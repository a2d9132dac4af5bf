/** The disassembly listing: sweeping a byte area and grouping what was found. */
module Listing {
  import opened Bytes
  import opened InstructionSet
  import opened Encoder
  import opened Disassembler
  import opened RoundTrip

  /** What the listing prints: a decoded line, a dump of data, or a count of NOPs in a row
      of which only the first three were printed as lines. */
  datatype Item =
    | Listed(position: nat, bytes: seq<byte>, literal: Literal)
    | Dump(position: nat, bytes: seq<byte>)
    | Padding(position: nat, count: nat)

  predicate HasBadByte(pieces: seq<Piece>) {
    exists k :: 0 <= k < |pieces| && PieceIsBad(pieces[k])
  }

  predicate PieceIsBad(p: Piece) {
    match p
    case BadByte(_) => true
    case ShowMemory(_, _, base, offset1, offset2) => HasBadByte(base) || HasBadByte(offset1) || HasBadByte(offset2)
    case _ => false
  }

  /** Nothing came out, or some of the text is data notation. */
  predicate IsBadData(literals: seq<Literal>) {
    literals == [] || exists k :: 0 <= k < |literals| && LiteralIsBad(literals[k])
  }

  predicate LiteralIsBad(l: Literal) {
    match l
    case Data(_) => true
    case Line(_, _, operands) => exists k :: 0 <= k < |operands| && HasBadByte(operands[k])
  }

  // ---- the listing of a sweep ----

  predicate IsBad(s: Slice) {
    IsBadData(s.literals)
  }

  predicate IsNop(s: Slice) {
    s.literals == [Line(NOP, None, [])]
  }

  /** How many slices in front are bad. */
  function BadRun(slices: seq<Slice>): (n: nat)
    ensures n <= |slices|
    ensures n < |slices| ==> !IsBad(slices[n])
    ensures forall k :: 0 <= k < n ==> IsBad(slices[k])
  {
    if slices != [] && IsBad(slices[0]) then
      assert forall k :: 0 < k < |slices| ==> slices[k] == slices[1..][k - 1];
      1 + BadRun(slices[1..])
    else 0
  }

  /** How many slices in front are NOPs. */
  function NopRun(slices: seq<Slice>): (n: nat)
    ensures n <= |slices|
    ensures n < |slices| ==> !IsNop(slices[n])
    ensures forall k :: 0 <= k < n ==> IsNop(slices[k])
  {
    if slices != [] && IsNop(slices[0]) then
      assert forall k :: 0 < k < |slices| ==> slices[k] == slices[1..][k - 1];
      1 + NopRun(slices[1..])
    else 0
  }

  function AllBytes(slices: seq<Slice>): seq<byte> {
    if slices == [] then [] else slices[0].bytes + AllBytes(slices[1..])
  }

  function LineOf(s: Slice, at: nat): Item
    requires s.literals != []
  {
    Listed(at, s.bytes, s.literals[0])
  }

  function NopLine(s: Slice, at: nat): Item {
    Listed(at, s.bytes, Line(NOP, None, []))
  }

  /** One line for each NOP, each at the address where its bytes stand. */
  function Lines(slices: seq<Slice>, at: nat): seq<Item> {
    if slices == [] then [] else [NopLine(slices[0], at)] + Lines(slices[1..], at + |slices[0].bytes|)
  }

  /** A long run of NOPs is reported with its full count and where it began. */
  function Report(count: nat, at: nat): seq<Item> {
    if count > 3 then [Padding(at, count)] else []
  }

  function Least(m: nat, n: nat): (k: nat)
    ensures k <= m && k <= n && (k == m || k == n)
  {
    if m < n then m else n
  }

  /** The listing: a maximal run of bad slices is one dump of exactly its bytes, unless nothing
      good follows it, when it is not shown; a maximal run of NOPs is up to three lines and the
      report; every other slice is a line. */
  function Render(slices: seq<Slice>, at: nat): seq<Item>
    decreases |slices|
  {
    if slices == [] then []
    else if IsBad(slices[0]) then
      var n := BadRun(slices);
      if n == |slices| then []
      else [Dump(at, AllBytes(slices[..n]))] + Render(slices[n..], at + |AllBytes(slices[..n])|)
    else if IsNop(slices[0]) then
      var n := NopRun(slices);
      Lines(slices[..Least(n, 3)], at) + Report(n, at) + Render(slices[n..], at + |AllBytes(slices[..n])|)
    else
      [LineOf(slices[0], at)] + Render(slices[1..], at + |slices[0].bytes|)
  }

  lemma RenderAtBad(slices: seq<Slice>, at: nat)
    requires slices != [] && IsBad(slices[0])
    ensures
      var n := BadRun(slices);
      Render(slices, at) ==
      if n == |slices| then []
      else [Dump(at, AllBytes(slices[..n]))] + Render(slices[n..], at + |AllBytes(slices[..n])|)
  {
    hide IsBad, IsNop, AllBytes, Lines, Report, BadRun, NopRun, Least, LineOf;
  }

  lemma RenderAtNop(slices: seq<Slice>, at: nat)
    requires slices != [] && !IsBad(slices[0]) && IsNop(slices[0])
    ensures
      var n := NopRun(slices);
      Render(slices, at) ==
      Lines(slices[..Least(n, 3)], at) + Report(n, at) + Render(slices[n..], at + |AllBytes(slices[..n])|)
  {
    hide IsBad, IsNop, AllBytes, Lines, Report, BadRun, NopRun, Least, LineOf;
  }

  lemma RenderAtLine(slices: seq<Slice>, at: nat)
    requires slices != [] && !IsBad(slices[0]) && !IsNop(slices[0])
    ensures slices[0].literals != []
    ensures Render(slices, at) == [LineOf(slices[0], at)] + Render(slices[1..], at + |slices[0].bytes|)
  {
    GoodHasText(slices[0]);
    hide IsBad, IsNop, AllBytes, Lines, Report, BadRun, NopRun, Least, LineOf;
  }

  // ---- what the listing still owes at each point of the loop ----

  /** A run of NOPs of which `count` have been taken. */
  ghost function AfterNops(count: nat, start: nat, slices: seq<Slice>, at: nat): seq<Item> {
    var n := NopRun(slices);
    Lines(slices[..if count >= 3 then 0 else Least(n, 3 - count)], at) + Report(count + n, start)
    + Render(slices[n..], at + |AllBytes(slices[..n])|)
  }

  ghost function Owed(held: seq<Slice>, heldAt: nat, nops: nat, nopsAt: nat, slices: seq<Slice>, at: nat): seq<Item> {
    if held != [] then Render(held + slices, heldAt)
    else if nops > 0 then AfterNops(nops, nopsAt, slices, at)
    else Render(slices, at)
  }

  lemma {:induction false} RunOfHeld(held: seq<Slice>, slices: seq<Slice>)
    requires (forall s :: s in held ==> IsBad(s)) && (slices != [] ==> !IsBad(slices[0]))
    ensures BadRun(held + slices) == |held|
  {
    hide IsBad;
    if held == [] {
      assert held + slices == slices;
    } else {
      RunOfHeld(held[1..], slices);
      assert (held + slices)[1..] == held[1..] + slices;
    }
  }

  /** Something good behind bad slices: they are dumped. */
  lemma {:induction false} DumpHeld(held: seq<Slice>, heldAt: nat, slices: seq<Slice>)
    requires held != [] && (forall s :: s in held ==> IsBad(s)) && slices != [] && !IsBad(slices[0])
    ensures Render(held + slices, heldAt) == [Dump(heldAt, AllBytes(held))] + Render(slices, heldAt + |AllBytes(held)|)
  {
    hide IsBad, Render, AllBytes, BadRun;
    RunOfHeld(held, slices);
    var all := held + slices;
    RenderAtBad(all, heldAt);
    assert all[..|held|] == held && all[|held|..] == slices && all[0] in held;
  }

  /** Only bad slices to the end: nothing is shown. */
  lemma {:induction false} HeldToTheEnd(held: seq<Slice>, heldAt: nat)
    requires forall s :: s in held ==> IsBad(s)
    ensures Render(held, heldAt) == []
  {
    hide IsBadData;
    RunOfHeld(held, []);
    assert held + [] == held;
  }

  lemma {:induction false} NopsOver(count: nat, start: nat, slices: seq<Slice>, at: nat)
    requires slices != [] ==> !IsNop(slices[0])
    ensures AfterNops(count, start, slices, at) == Report(count, start) + Render(slices, at)
  {
    assert NopRun(slices) == 0 && slices[..0] == [] && slices[0..] == slices;
    assert Lines([], at) == [] && AllBytes([]) == [];
    assert [] + Report(count, start) == Report(count, start);
  }

  lemma NopRunStep(slices: seq<Slice>)
    requires slices != [] && IsNop(slices[0])
    ensures var (n, rest) := (NopRun(slices), slices[1..]);
            && n == 1 + NopRun(rest) && rest[n - 1..] == slices[n..]
            && AllBytes(slices[..n]) == slices[0].bytes + AllBytes(rest[..n - 1])
  {
    hide IsNop;
    var n := NopRun(slices);
    assert slices[..n][0] == slices[0] && slices[..n][1..] == slices[1..][..n - 1];
  }

  lemma LinesStep(slices: seq<Slice>, m: nat, at: nat)
    requires 0 < m <= |slices|
    ensures Lines(slices[..m], at) == [NopLine(slices[0], at)] + Lines(slices[1..][..m - 1], at + |slices[0].bytes|)
  {
    var front := slices[..m];
    assert front[0] == slices[0] && front[1..] == slices[1..][..m - 1];
  }

  lemma LineOfNop(s: Slice, at: nat)
    requires IsNop(s)
    ensures s.literals != [] && LineOf(s, at) == NopLine(s, at)
  {
  }

  /** One more NOP of a run. */
  lemma {:induction false} OneMoreNop(count: nat, start: nat, slices: seq<Slice>, at: nat)
    requires slices != [] && IsNop(slices[0])
    ensures slices[0].literals != []
    ensures
      AfterNops(count, start, slices, at) ==
      (if count < 3 then [LineOf(slices[0], at)] else [])
      + AfterNops(count + 1, start, slices[1..], at + |slices[0].bytes|)
  {
    hide Render, IsNop, Lines, LineOf, NopLine, AllBytes, NopRun, Report;
    NopRunStep(slices);
    LineOfNop(slices[0], at);
    var m := if count >= 3 then 0 else Least(NopRun(slices), 3 - count);
    if m > 0 {
      LinesStep(slices, m, at);
    } else {
      assert slices[..0] == slices[1..][..0];
      NoLines(at, at + |slices[0].bytes|);
    }
  }

  lemma NoLines(i: nat, j: nat)
    ensures Lines([], i) == Lines([], j)
  {
  }

  lemma {:induction false} FirstNop(slices: seq<Slice>, at: nat)
    requires slices != [] && IsNop(slices[0])
    ensures Render(slices, at) == AfterNops(0, at, slices, at)
  {
    NopIsGood(slices[0]);
  }

  lemma NopIsGood(s: Slice)
    requires IsNop(s)
    ensures !IsBad(s)
  {
    assert s.literals[0] == Line(NOP, None, []);
  }

  lemma GoodHasText(s: Slice)
    requires !IsBad(s)
    ensures s.literals != []
  {
  }

  ghost function DumpOf(held: seq<Slice>, at: nat): seq<Item> {
    if held != [] then [Dump(at, AllBytes(held))] else []
  }

  lemma AllBytesSnoc(slices: seq<Slice>, s: Slice)
    ensures AllBytes(slices + [s]) == AllBytes(slices) + s.bytes
  {
    if slices == [] {
      assert AllBytes([s]) == s.bytes + AllBytes([]);
    } else {
      assert (slices + [s])[1..] == slices[1..] + [s];
      AllBytesSnoc(slices[1..], s);
    }
  }

  /** A bad slice settles a run of NOPs and joins those held back. */
  lemma {:induction false} OwedAtBad(held: seq<Slice>, heldAt: nat, nops: nat, nopsAt: nat, slices: seq<Slice>, at: nat)
    requires (held != [] ==> nops == 0) && slices != [] && IsBad(slices[0])
    ensures
      Owed(held, heldAt, nops, nopsAt, slices, at) ==
      Report(nops, nopsAt)
      + Owed(held + [slices[0]], if held == [] then at else heldAt, 0, 0, slices[1..], at + |slices[0].bytes|)
  {
    hide Render, AfterNops, IsBadData;
    assert held + slices == held + [slices[0]] + slices[1..];
    if held == [] {
      assert [slices[0]] + slices[1..] == slices && held + [slices[0]] == [slices[0]];
      if nops > 0 {
        if IsNop(slices[0]) {
          NopIsGood(slices[0]);
        }
        NopsOver(nops, nopsAt, slices, at);
      }
    }
  }

  /** What a good slice prints after a run of NOPs: its line, unless it is a NOP beyond the third
      of the run; anything else settles the run first. */
  function Shown(s: Slice, at: nat, nops: nat, nopsAt: nat): seq<Item>
    requires s.literals != []
  {
    if IsNop(s) then (if nops < 3 then [LineOf(s, at)] else []) else Report(nops, nopsAt) + [LineOf(s, at)]
  }

  ghost function Settled(held: seq<Slice>, heldAt: nat, nops: nat, nopsAt: nat, good: Slice, at: nat): seq<Item>
    requires good.literals != []
  {
    DumpOf(held, heldAt) + Shown(good, at, nops, nopsAt)
  }

  lemma {:induction false} OwedAfterDump(held: seq<Slice>, heldAt: nat, nops: nat, nopsAt: nat, slices: seq<Slice>,
                                         at: nat)
    requires (held != [] ==> nops == 0 && heldAt + |AllBytes(held)| == at) && (forall s :: s in held ==> IsBad(s))
    requires slices != [] && !IsBad(slices[0])
    ensures Owed(held, heldAt, nops, nopsAt, slices, at) == DumpOf(held, heldAt) + Owed([], 0, nops, nopsAt, slices, at)
  {
    hide AfterNops, IsBad, Render;
    if held != [] {
      DumpHeld(held, heldAt, slices);
    }
  }

  lemma {:induction false} OwedAtNop(nops: nat, nopsAt: nat, slices: seq<Slice>, at: nat)
    requires slices != [] && IsNop(slices[0])
    ensures
      Owed([], 0, nops, nopsAt, slices, at) ==
      (if nops < 3 then [LineOf(slices[0], at)] else [])
      + Owed([], 0, nops + 1, if nops == 0 then at else nopsAt, slices[1..], at + |slices[0].bytes|)
  {
    hide AfterNops, IsBad, Render;
    FirstNop(slices, at);
    OneMoreNop(nops, if nops == 0 then at else nopsAt, slices, at);
  }

  lemma {:induction false} OwedAtLine(nops: nat, nopsAt: nat, slices: seq<Slice>, at: nat)
    requires slices != [] && !IsBad(slices[0]) && !IsNop(slices[0])
    ensures
      Owed([], 0, nops, nopsAt, slices, at) ==
      Report(nops, nopsAt) + [LineOf(slices[0], at)] + Owed([], 0, 0, 0, slices[1..], at + |slices[0].bytes|)
  {
    hide AfterNops, IsBad;
    GoodHasText(slices[0]);
    assert Report(nops, nopsAt) + ([LineOf(slices[0], at)] + Render(slices[1..], at + |slices[0].bytes|))
        == Report(nops, nopsAt) + [LineOf(slices[0], at)] + Render(slices[1..], at + |slices[0].bytes|);
    NopsOver(nops, nopsAt, slices, at);
  }

  /** A good slice settles what is held back; its line follows at once unless it is a NOP. */
  lemma {:induction false} OwedAtGood(held: seq<Slice>, heldAt: nat, nops: nat, nopsAt: nat, slices: seq<Slice>,
                                      at: nat)
    requires (held != [] ==> nops == 0 && heldAt + |AllBytes(held)| == at) && (forall s :: s in held ==> IsBad(s))
    requires slices != [] && !IsBad(slices[0])
    ensures
      Owed(held, heldAt, nops, nopsAt, slices, at) ==
      Settled(held, heldAt, nops, nopsAt, slices[0], at)
      + Owed([], 0, if IsNop(slices[0]) then nops + 1 else 0, if IsNop(slices[0]) && nops > 0 then nopsAt else at,
             slices[1..], at + |slices[0].bytes|)
  {
    hide Owed, IsBad, IsNop, Report, DumpOf;
    GoodHasText(slices[0]);
    OwedAfterDump(held, heldAt, nops, nopsAt, slices, at);
    var next := at + |slices[0].bytes|;
    if IsNop(slices[0]) {
      OwedAtNop(nops, nopsAt, slices, at);
      var line := if nops < 3 then [LineOf(slices[0], at)] else [];
      AssociateItems(DumpOf(held, heldAt), line,
        Owed([], 0, nops + 1, if nops == 0 then at else nopsAt, slices[1..], next));
    } else {
      OwedAtLine(nops, nopsAt, slices, at);
      StartIsMoot([], 0, 0, 0, 0, at, slices[1..], next);
      AssociateItems(DumpOf(held, heldAt), Report(nops, nopsAt) + [LineOf(slices[0], at)],
        Owed([], 0, 0, at, slices[1..], next));
    }
  }

  /** Where nothing is held back or counted, where it would have begun does not matter. */
  lemma StartIsMoot(held: seq<Slice>, g: nat, h: nat, nops: nat, i: nat, j: nat, slices: seq<Slice>, at: nat)
    requires (held == [] || g == h) && (nops == 0 || i == j)
    ensures Owed(held, g, nops, i, slices, at) == Owed(held, h, nops, j, slices, at)
  {
    hide Render, AfterNops;
  }

  lemma AssociateItems(a: seq<Item>, b: seq<Item>, c: seq<Item>)
    ensures a + (b + c) == a + b + c
  {
  }

  /** At the end only a run of NOPs is still to be settled. */
  lemma {:induction false} OwedAtEnd(held: seq<Slice>, heldAt: nat, nops: nat, nopsAt: nat, at: nat)
    requires (held != [] ==> nops == 0) && forall s :: s in held ==> IsBad(s)
    ensures Owed(held, heldAt, nops, nopsAt, [], at) == Report(nops, nopsAt)
  {
    hide AfterNops;
    HeldToTheEnd(held, heldAt);
    assert held + [] == held;
    NopsOver(nops, nopsAt, [], at);
  }

  method Unify(lines: seq<seq<byte>>) returns (unified: seq<byte>)
    ensures unified == Concat(lines)
  {
    unified := [];
    for i := 0 to |lines|
      invariant unified == Concat(lines[..i])
    {
      assert lines[..i + 1] == lines[..i] + [lines[i]];
      ConcatSnoc(lines[..i], lines[i]);
      unified := unified + lines[i];
    }
    assert lines[..|lines|] == lines;
  }

  /** The listing under construction: what is printed, the bad slices held back, and the run of
      NOPs being counted. */
  class Printer {
    var items: seq<Item>
    var bad: seq<seq<byte>>
    var badPosition: nat
    var nops: nat
    var nopPosition: nat

    constructor ()
      ensures items == [] && bad == [] && nops == 0
    {
      items, bad, badPosition, nops, nopPosition := [], [], 0, 0, 0;
    }

    method ClearNops()
      modifies `items, `nops, `nopPosition
      ensures nops == 0 && items == old(items) + Report(old(nops), old(nopPosition))
    {
      if nops > 3 {
        items := items + [Padding(nopPosition, nops)];
      }
      nops, nopPosition := 0, 0;
    }

    function Dumped(): seq<Item>
      reads this
    {
      if bad != [] then [Dump(badPosition, Concat(bad))] else []
    }

    method FlushBad()
      modifies `items, `bad, `badPosition
      ensures bad == [] && items == old(items + Dumped())
    {
      if bad != [] {
        var unified := Unify(bad);
        items := items + [Dump(badPosition, unified)];
        bad, badPosition := [], 0;
      }
    }

    /** A slice that decoded to data is held back, and a run of NOPs in front of it reported. */
    method TakeBad(position: nat, slice: seq<byte>)
      modifies this
      ensures bad == old(bad) + [slice] && badPosition == if old(bad) == [] then position else old(badPosition)
      ensures nops == 0 && items == old(items) + Report(old(nops), old(nopPosition))
    {
      if bad == [] {
        badPosition := position;
      }
      bad := bad + [slice];
      ClearNops();
    }

    /** A slice that decoded to one line: dumps what was held back, then prints the line, or
        counts it when it is a NOP beyond the third of its run. */
    method TakeGood(position: nat, slice: seq<byte>, literal: Literal)
      modifies this
      ensures bad == [] && nops == if literal == Line(NOP, None, []) then old(nops) + 1 else 0
      ensures literal == Line(NOP, None, []) ==> nopPosition == if old(nops) == 0 then position else old(nopPosition)
      ensures
        items == old(items) + (old(Dumped()) + Shown(Slice(slice, [literal]), position, old(nops), old(nopPosition)))
    {
      FlushBad();
      if literal == Line(NOP, None, []) {
        if nops == 0 {
          nopPosition := position;
        }
        nops := nops + 1;
      } else {
        ClearNops();
      }
      if nops <= 3 {
        items := items + [Listed(position, slice, literal)];
      }
    }
  }

  lemma NopIsOneZeroByte(input: seq<byte>)
    requires input != []
    ensures var (literals, rest) := DecodeInstruction(input);
            literals == [Line(NOP, None, [])] ==> input[0] == 0 && rest == input[1..]
  {
    hide DecodeTarget;
  }

  /** Good text is a single line. */
  lemma GoodTextIsOneLine(input: seq<byte>)
    requires input != [] && !IsBadData(DecodeInstruction(input).0)
    ensures |DecodeInstruction(input).0| == 1
  {
    hide DecodeOperands, Opcode, RequiresWidth, ArgumentCount;
    var literals := DecodeInstruction(input).0;
    assert literals != [] && !LiteralIsBad(literals[0]);
  }


  lemma {:induction false} ConcatIsAllBytes(slices: seq<Slice>)
    ensures Concat(BytesOf(slices)) == AllBytes(slices)
  {
    if slices != [] {
      assert BytesOf(slices)[1..] == BytesOf(slices[1..]);
      ConcatIsAllBytes(slices[1..]);
    }
  }

  /** The printer holds back exactly these slices, which end where the input is now. */
  ghost predicate Holds(printer: Printer, held: seq<Slice>, at: nat)
    reads printer
  {
    && printer.bad == BytesOf(held) && (forall s :: s in held ==> IsBad(s))
    && (held != [] ==> printer.nops == 0 && printer.badPosition + |AllBytes(held)| == at)
  }

  /** Printed and owed together. */
  ghost function Whole(printer: Printer, held: seq<Slice>, slices: seq<Slice>, at: nat): seq<Item>
    reads printer
  {
    printer.items + Owed(held, printer.badPosition, printer.nops, printer.nopPosition, slices, at)
  }

  /** A bad slice in front of what is still to be listed. */
  method HoldBack(printer: Printer, slice: seq<byte>, at: nat, ghost held: seq<Slice>, ghost slices: seq<Slice>)
    requires slices != [] && slices[0].bytes == slice && IsBad(slices[0]) && Holds(printer, held, at)
    modifies printer
    ensures Holds(printer, held + [slices[0]], at + |slice|)
    ensures Whole(printer, held + [slices[0]], slices[1..], at + |slice|) == old(Whole(printer, held, slices, at))
  {
    hide IsBad, Owed, Report;
    ghost var nowHeld := held + [slices[0]];
    OwedAtBad(held, printer.badPosition, printer.nops, printer.nopPosition, slices, at);
    AllBytesSnoc(held, slices[0]);
    printer.TakeBad(at, slice);
    StartIsMoot(nowHeld, printer.badPosition, printer.badPosition, 0, 0, printer.nopPosition,
                slices[1..], at + |slice|);
  }

  /** A good slice in front of what is still to be listed. */
  method ListLine(printer: Printer, slice: seq<byte>, literal: Literal, at: nat,
                  ghost held: seq<Slice>, ghost slices: seq<Slice>)
    requires slices != [] && slices[0] == Slice(slice, [literal]) && !IsBad(slices[0]) && Holds(printer, held, at)
    modifies printer
    ensures Holds(printer, [], at + |slice|)
    ensures Whole(printer, [], slices[1..], at + |slice|) == old(Whole(printer, held, slices, at))
  {
    hide IsBad, Owed, Shown;
    GoodHasText(slices[0]);
    ghost var before, heldAt, nops, nopsAt := printer.items, printer.badPosition, printer.nops, printer.nopPosition;
    OwedAtGood(held, heldAt, nops, nopsAt, slices, at);
    ConcatIsAllBytes(held);
    printer.TakeGood(at, slice, literal);
    ghost var settled := Settled(held, heldAt, nops, nopsAt, slices[0], at);
    StartIsMoot([], 0, printer.badPosition, printer.nops, if IsNop(slices[0]) && nops > 0 then nopsAt else at,
                printer.nopPosition, slices[1..], at + |slice|);
    AssociateItems(before, settled,
                   Owed([], printer.badPosition, printer.nops, printer.nopPosition, slices[1..], at + |slice|));
  }

  /** One turn of the listing loop. */
  method ListNext(table: seq<Mnemonic>, reference: seq<byte>, org: nat, input: CodeBuffer, printer: Printer,
                  ghost held: seq<Slice>)
    returns (ghost nowHeld: seq<Slice>)
    requires forall m: Mnemonic :: m in table
    requires input.code != [] && IsSuffix(input.code, reference)
    requires Holds(printer, held, org + |reference| - |input.code|)
    modifies input, printer
    ensures input.code == DecodeInstruction(old(input.code)).1
    ensures IsSuffix(input.code, reference) && |input.code| < |old(input.code)|
    ensures Holds(printer, nowHeld, org + |reference| - |input.code|)
    ensures Whole(printer, nowHeld, Sweep(input.code), org + |reference| - |input.code|)
         == old(Whole(printer, held, Sweep(input.code), org + |reference| - |input.code|))
  {
    hide DecodeInstruction, IsBadData, Owed, Sweep, IsSuffix, Holds, Whole;
    ghost var rest := input.code;
    var before := |reference| - |input.code|;
    SuffixLength(rest, rest, reference);
    var literals := PopInstruction(table, input);
    DecodingMakesProgress(rest);
    SuffixOfSuffix(input.code, rest, reference);
    SuffixLength(input.code, rest, reference);
    var after := |reference| - |input.code|;
    SliceOfReference(reference, rest, input.code);
    SweepFirst(rest);
    assert Sweep(rest)[1..] == Sweep(input.code);
    if IsBadData(literals) {
      HoldBack(printer, reference[before..after], before + org, held, Sweep(rest));
      nowHeld := held + [Sweep(rest)[0]];
    } else {
      GoodTextIsOneLine(rest);
      ListLine(printer, reference[before..after], literals[0], before + org, held, Sweep(rest));
      nowHeld := [];
    }
  }

  lemma SweepFirst(rest: seq<byte>)
    requires rest != []
    ensures var (literals, left) := DecodeInstruction(rest);
            && |left| < |rest|
            && Sweep(rest) == [Slice(rest[..|rest| - |left|], literals)] + Sweep(left)
  {
    hide DecodeInstruction;
    DecodingMakesProgress(rest);
  }

  lemma SuffixLength(r: seq<byte>, s: seq<byte>, t: seq<byte>)
    requires (r == s || IsSuffix(r, s)) && IsSuffix(s, t)
    ensures |r| <= |s| <= |t|
  {
  }

  lemma SliceOfReference(reference: seq<byte>, rest: seq<byte>, next: seq<byte>)
    requires IsSuffix(rest, reference) && IsSuffix(next, rest)
    ensures reference[|reference| - |rest|..|reference| - |next|] == rest[..|rest| - |next|]
  {
  }

  /** Disassembles a byte area: the listing of its sweep, nothing more and nothing less. */
  method DisassembleCode(table: seq<Mnemonic>, code: seq<byte>, org: nat) returns (items: seq<Item>)
    requires forall m: Mnemonic :: m in table
    ensures items == Render(Sweep(code), org)
  {
    hide DecodeInstruction, Owed, IsSuffix, Sweep, Render;
    var printer := new Printer();
    var input := new CodeBuffer(code);
    ghost var held: seq<Slice> := [];
    TailIsSuffix(code, 0);
    assert code[0..] == code;
    NothingOwedYet(printer.badPosition, printer.nopPosition, Sweep(code), org);
    while input.code != []
      invariant fresh(printer) && fresh(input) && |input.code| <= |code|
      invariant IsSuffix(input.code, code)
      invariant Holds(printer, held, org + |code| - |input.code|)
      invariant Whole(printer, held, Sweep(input.code), org + |code| - |input.code|) == Render(Sweep(code), org)
      decreases |input.code|
    {
      held := ListNext(table, code, org, input, printer, held);
    }
    EmptySweep();
    OwedAtEnd(held, printer.badPosition, printer.nops, printer.nopPosition, org + |code|);
    printer.ClearNops();
    items := printer.items;
  }

  lemma NothingOwedYet(heldAt: nat, nopsAt: nat, slices: seq<Slice>, at: nat)
    ensures [] + Owed([], heldAt, 0, nopsAt, slices, at) == Render(slices, at)
  {
    hide Render;
  }

  lemma EmptySweep()
    ensures Sweep([]) == []
  {
  }
}
