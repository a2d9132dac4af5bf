/** What a listing promises its reader: nothing is lost, and every item stands where it says. */
module ListingFacts {
  import opened Bytes
  import opened InstructionSet
  import opened Operands
  import opened Disassembler
  import opened RoundTrip
  import opened Listing

  // ---- every byte is accounted for ----

  function Zeros(n: nat): seq<byte> {
    seq(n, _ => 0)
  }

  /** The bytes an item stands for; a count of NOPs speaks for those behind its three lines. */
  function ShownBy(item: Item): seq<byte> {
    match item
    case Listed(_, bytes, _) => bytes
    case Dump(_, bytes) => bytes
    case Padding(_, count) => if count > 3 then Zeros(count - 3) else []
  }

  function AllShown(items: seq<Item>): seq<byte> {
    if items == [] then [] else ShownBy(items[0]) + AllShown(items[1..])
  }

  /** The bytes of the bad slices at the very end. */
  function TrailingBad(slices: seq<Slice>): seq<byte> {
    if slices == [] then []
    else if BadRun(slices) == |slices| then AllBytes(slices)
    else TrailingBad(slices[1..])
  }

  lemma {:induction false} AllShownAppend(a: seq<Item>, b: seq<Item>)
    ensures AllShown(a + b) == AllShown(a) + AllShown(b)
  {
    if a == [] {
      assert a + b == b;
    } else {
      assert (a + b)[1..] == a[1..] + b;
      AllShownAppend(a[1..], b);
    }
  }

  lemma {:induction false} AllBytesSplit(slices: seq<Slice>, n: nat)
    requires n <= |slices|
    ensures AllBytes(slices) == AllBytes(slices[..n]) + AllBytes(slices[n..])
  {
    if n == 0 {
      assert slices[0..] == slices;
    } else {
      AllBytesSplit(slices[1..], n - 1);
      assert slices[1..][..n - 1] == slices[..n][1..] && slices[1..][n - 1..] == slices[n..];
    }
  }

  lemma {:induction false} LinesShow(slices: seq<Slice>, at: nat)
    ensures AllShown(Lines(slices, at)) == AllBytes(slices)
  {
    if slices != [] {
      LinesShow(slices[1..], at + |slices[0].bytes|);
      assert Lines(slices, at)[1..] == Lines(slices[1..], at + |slices[0].bytes|);
    }
  }

  lemma {:induction false} NopBytes(slices: seq<Slice>)
    requires forall k :: 0 <= k < |slices| ==> slices[k].bytes == [0]
    ensures AllBytes(slices) == Zeros(|slices|)
  {
    if slices != [] {
      NopBytes(slices[1..]);
    }
  }

  lemma {:induction false} BadRunIsNotTrailing(slices: seq<Slice>)
    requires BadRun(slices) < |slices|
    ensures TrailingBad(slices) == TrailingBad(slices[BadRun(slices)..])
  {
    var n := BadRun(slices);
    if n == 0 {
      assert slices[0..] == slices;
    } else {
      BadRunIsNotTrailing(slices[1..]);
      assert slices[1..][n - 1..] == slices[n..];
    }
  }

  lemma {:induction false} NopsAreNotTrailing(slices: seq<Slice>)
    ensures TrailingBad(slices) == TrailingBad(slices[NopRun(slices)..])
  {
    var n := NopRun(slices);
    if n == 0 {
      assert slices[0..] == slices;
    } else {
      NopIsGood(slices[0]);
      NopsAreNotTrailing(slices[1..]);
      assert slices[1..][n - 1..] == slices[n..];
    }
  }

  lemma ReportShows(n: nat, at: nat)
    ensures AllShown(Report(n, at)) == if n > 3 then Zeros(n - 3) else []
  {
    if n > 3 {
      assert Report(n, at)[1..] == [];
    }
  }

  /** The lines and the count of a run of NOPs stand for all of it. */
  lemma {:induction false} NopsShow(slices: seq<Slice>, at: nat)
    requires forall k :: 0 <= k < |slices| ==> IsNop(slices[k]) && slices[k].bytes == [0]
    ensures AllShown(Lines(slices[..Least(|slices|, 3)], at) + Report(|slices|, at)) == AllBytes(slices)
  {
    var n, m := |slices|, Least(|slices|, 3);
    LinesShow(slices[..m], at);
    NopBytes(slices[..m]);
    NopBytes(slices);
    AllShownAppend(Lines(slices[..m], at), Report(n, at));
    ReportShows(n, at);
    assert Zeros(n) == Zeros(m) + Zeros(n - m);
  }

  lemma {:induction false} FrontShows(front: seq<Item>, back: seq<Item>, slices: seq<Slice>, n: nat)
    requires n <= |slices| && AllShown(front) == AllBytes(slices[..n])
    requires TrailingBad(slices) == TrailingBad(slices[n..])
    requires AllShown(back) + TrailingBad(slices[n..]) == AllBytes(slices[n..])
    ensures AllShown(front + back) + TrailingBad(slices) == AllBytes(slices)
  {
    hide AllShown, AllBytes, TrailingBad;
    AllShownAppend(front, back);
    AllBytesSplit(slices, n);
    assert AllShown(front) + AllShown(back) + TrailingBad(slices) ==
      AllShown(front) + (AllShown(back) + TrailingBad(slices));
  }

  lemma OneShown(item: Item)
    ensures AllShown([item]) == ShownBy(item)
  {
    assert [item][1..] == [];
  }

  lemma NothingShown(at: nat)
    ensures AllShown([]) == [] && AllBytes([]) == [] && TrailingBad([]) == [] && Render([], at) == []
  {
  }

  /** The listing from here, once what follows the front run is known to account for its bytes. */
  lemma {:induction false} BadRunShows(slices: seq<Slice>, at: nat)
    requires slices != [] && IsBad(slices[0]) && BadRun(slices) < |slices|
    requires var n := BadRun(slices);
             AllShown(Render(slices[n..], at + |AllBytes(slices[..n])|)) + TrailingBad(slices[n..]) ==
               AllBytes(slices[n..])
    ensures AllShown(Render(slices, at)) + TrailingBad(slices) == AllBytes(slices)
  {
    hide AllShown, IsBad, AllBytes, TrailingBad, BadRun;
    var n := BadRun(slices);
    BadRunIsNotTrailing(slices);
    OneShown(Dump(at, AllBytes(slices[..n])));
    FrontShows([Dump(at, AllBytes(slices[..n]))], Render(slices[n..], at + |AllBytes(slices[..n])|), slices, n);
  }

  lemma {:induction false} NopRunShows(slices: seq<Slice>, at: nat)
    requires forall k :: 0 <= k < |slices| && IsNop(slices[k]) ==> slices[k].bytes == [0]
    requires slices != [] && IsNop(slices[0])
    requires var n := NopRun(slices);
             AllShown(Render(slices[n..], at + |AllBytes(slices[..n])|)) + TrailingBad(slices[n..]) ==
               AllBytes(slices[n..])
    ensures AllShown(Render(slices, at)) + TrailingBad(slices) == AllBytes(slices)
  {
    hide AllShown, AllBytes, TrailingBad, IsBad, NopRun;
    NopIsGood(slices[0]);
    var n := NopRun(slices);
    NopsAreNotTrailing(slices);
    NopsShow(slices[..n], at);
    assert slices[..n][..Least(n, 3)] == slices[..Least(n, 3)];
    FrontShows(Lines(slices[..Least(n, 3)], at) + Report(n, at), Render(slices[n..], at + |AllBytes(slices[..n])|),
      slices, n);
  }

  lemma {:induction false} LineShows(slices: seq<Slice>, at: nat)
    requires slices != [] && !IsBad(slices[0]) && !IsNop(slices[0])
    requires AllShown(Render(slices[1..], at + |slices[0].bytes|)) + TrailingBad(slices[1..]) == AllBytes(slices[1..])
    ensures AllShown(Render(slices, at)) + TrailingBad(slices) == AllBytes(slices)
  {
    hide AllShown, AllBytes, IsBad, IsNop;
    GoodHasText(slices[0]);
    FirstBytes(slices);
    OneShown(LineOf(slices[0], at));
    FrontShows([LineOf(slices[0], at)], Render(slices[1..], at + |slices[0].bytes|), slices, 1);
  }

  lemma {:induction false} RenderShows(slices: seq<Slice>, at: nat)
    requires forall k :: 0 <= k < |slices| && IsNop(slices[k]) ==> slices[k].bytes == [0]
    ensures AllShown(Render(slices, at)) + TrailingBad(slices) == AllBytes(slices)
    decreases |slices|
  {
    hide AllShown, IsBad, AllBytes, IsNop, Render, TrailingBad;
    if slices == [] {
      NothingShown(at);
    } else if IsBad(slices[0]) {
      var n := BadRun(slices);
      if n < |slices| {
        RenderShows(slices[n..], at + |AllBytes(slices[..n])|);
        BadRunShows(slices, at);
      } else {
        OnlyBadShows(slices, at);
      }
    } else if IsNop(slices[0]) {
      RenderShows(slices[NopRun(slices)..], at + |AllBytes(slices[..NopRun(slices)])|);
      NopRunShows(slices, at);
    } else {
      RenderShows(slices[1..], at + |slices[0].bytes|);
      LineShows(slices, at);
    }
  }

  lemma OnlyBadShows(slices: seq<Slice>, at: nat)
    requires slices != [] && BadRun(slices) == |slices|
    ensures Render(slices, at) == [] && AllShown([]) == [] && TrailingBad(slices) == AllBytes(slices)
  {
  }

  lemma FirstBytes(slices: seq<Slice>)
    requires slices != []
    ensures AllBytes(slices[..1]) == slices[0].bytes
  {
    assert slices[..1][1..] == [];
  }

  lemma {:induction false} SweptNops(input: seq<byte>)
    ensures forall k :: 0 <= k < |Sweep(input)| && IsNop(Sweep(input)[k]) ==> Sweep(input)[k].bytes == [0]
    decreases |input|
  {
    hide DecodeInstruction;
    if input != [] {
      NopIsOneZeroByte(input);
      DecodingMakesProgress(input);
      SweptNops(DecodeInstruction(input).1);
    }
  }

  /** The listing accounts for every byte of the area except bad data at the very end. */
  lemma ListingAccountsForAll(code: seq<byte>, org: nat)
    ensures AllShown(Render(Sweep(code), org)) + TrailingBad(Sweep(code)) == code
  {
    SweptNops(code);
    RenderShows(Sweep(code), org);
    SweepCoversInput(code);
    ConcatIsAllBytes(Sweep(code));
  }

  /** A byte that starts no instruction is not listed when nothing follows it. */
  lemma TrailingByteIsNotListed(org: nat)
    ensures Render(Sweep([0xFF]), org) == [] && TrailingBad(Sweep([0xFF])) == [0xFF]
  {
    assert MnemonicOf(0xFF) == None;
    assert DecodeInstruction([0xFF]).0 == [Data(BadByte(0xFF))];
    ListingAccountsForAll([0xFF], org);
  }

  // ---- which slices are listed, and which dumped ----

  /** A byte shown as data, by itself or as a part of a memory operand. */
  predicate ShowsData(p: Piece) {
    || p.BadByte?
    || (p.ShowMemory? && exists q :: q in p.base + p.offset1 + p.offset2 && q.BadByte?)
  }

  lemma PartsAreSimple(input: seq<byte>)
    ensures forall q :: q in DecodeParameter(input).0.out ==> !q.ShowMemory?
  {
  }

  ghost predicate SimpleParts(pieces: seq<Piece>) {
    forall p :: p in pieces && p.ShowMemory? ==> forall q :: q in p.base + p.offset1 + p.offset2 ==> !q.ShowMemory?
  }

  lemma {:induction false} TargetPartsAreSimple(input: seq<byte>)
    ensures SimpleParts(DecodeTarget(input).out)
  {
    hide DecodeParameter, NameOf, FromLe;
    if input != [] && input[0] == MEMORY_PREFIX && |input| > 1 && WidthOf(input[1]).Some? {
      var (p, ok1) := DecodeParameter(input[1..][1..]);
      PartsAreSimple(input[1..][1..]);
      var (q, ok2) := DecodeParameter(p.rest);
      PartsAreSimple(p.rest);
      PartsAreSimple(q.rest);
    }
  }

  lemma DataIsBad(pieces: seq<Piece>)
    requires SimpleParts(pieces)
    ensures HasBadByte(pieces) <==> exists p :: p in pieces && ShowsData(p)
  {
    forall k | 0 <= k < |pieces|
      ensures PieceIsBad(pieces[k]) <==> ShowsData(pieces[k])
    {
      var p := pieces[k];
      if p.ShowMemory? {
        assert p in pieces;
        SimpleIsBad(p.base);
        SimpleIsBad(p.offset1);
        SimpleIsBad(p.offset2);
      }
    }
  }

  lemma SimpleIsBad(pieces: seq<Piece>)
    requires forall q :: q in pieces ==> !q.ShowMemory?
    ensures HasBadByte(pieces) <==> exists q :: q in pieces && q.BadByte?
  {
    assert forall k :: 0 <= k < |pieces| ==> pieces[k] in pieces && PieceIsBad(pieces[k]) == pieces[k].BadByte?;
  }

  ghost predicate AllSimple(texts: seq<seq<Piece>>) {
    forall k :: 0 <= k < |texts| ==> SimpleParts(texts[k])
  }

  lemma {:induction false} OperandPartsAreSimple(input: seq<byte>, count: nat)
    ensures AllSimple(DecodeOperands(input, count).texts)
    decreases count
  {
    hide DecodeTarget, SimpleParts;
    if count > 0 && !DecodeTarget(input).emptied {
      var d := DecodeTarget(input);
      TargetPartsAreSimple(input);
      OperandPartsAreSimple(d.rest, count - 1);
      assert DecodeOperands(input, count).texts == [d.out] + DecodeOperands(d.rest, count - 1).texts;
    }
  }

  /** What decodes to one line without any data notation in it, and nothing else, is listed as a
      line; everything else is dumped. */
  lemma {:induction false} ListedExactly(input: seq<byte>)
    requires input != []
    ensures
      var literals := DecodeInstruction(input).0;
      !IsBadData(literals) <==>
      && |literals| == 1 && literals[0].Line?
      && forall k, p :: 0 <= k < |literals[0].operands| && p in literals[0].operands[k] ==> !ShowsData(p)
  {
    hide DecodeOperands, Opcode, RequiresWidth, ArgumentCount, HasBadByte, ShowsData, SimpleParts;
    var literals := DecodeInstruction(input).0;
    if !IsBadData(literals) {
      GoodTextIsOneLine(input);
      assert !LiteralIsBad(literals[0]);
    }
    if |literals| == 1 && literals[0].Line? {
      SimpleLine(input);
      forall k | 0 <= k < |literals[0].operands|
        ensures HasBadByte(literals[0].operands[k]) <==> exists p :: p in literals[0].operands[k] && ShowsData(p)
      {
        DataIsBad(literals[0].operands[k]);
      }
    }
  }

  lemma SimpleLine(input: seq<byte>)
    requires input != [] && |DecodeInstruction(input).0| == 1 && DecodeInstruction(input).0[0].Line?
    ensures
      AllSimple(DecodeInstruction(input).0[0].operands)
  {
    hide DecodeOperands, Opcode, RequiresWidth, ArgumentCount, AllSimple;
    if MnemonicOf(input[0]).Some? {
      var m := MnemonicOf(input[0]).value;
      var tail := if RequiresWidth(m) && |input| > 1 then input[2..] else input[1..];
      OperandPartsAreSimple(tail, ArgumentCount(m));
      assert DecodeInstruction(input).0[0].operands == DecodeOperands(tail, ArgumentCount(m)).texts;
    }
  }

  // ---- every item stands where it says ----

  /** A line is what the bytes at its position decode to, and shows the bytes the decoder took;
      a dump shows the bytes at its position; a count covers that many NOPs from its position. */
  ghost predicate Stands(item: Item, code: seq<byte>, org: nat) {
    var at := item.position - org;
    match item
    case Listed(_, bytes, literal) =>
      && 0 <= at < |code|
      && var (literals, rest) := DecodeInstruction(code[at..]);
         literals == [literal] && code[at..] == bytes + rest
    case Dump(_, bytes) => bytes != [] && 0 <= at && at + |bytes| <= |code| && code[at..at + |bytes|] == bytes
    case Padding(_, count) => count > 3 && 0 <= at && at + count <= |code| && code[at..at + count] == Zeros(count)
  }

  ghost predicate AllStand(items: seq<Item>, code: seq<byte>, org: nat) {
    forall k :: 0 <= k < |items| ==> Stands(items[k], code, org)
  }

  lemma StandAppend(a: seq<Item>, b: seq<Item>, code: seq<byte>, org: nat)
    requires AllStand(a, code, org) && AllStand(b, code, org)
    ensures AllStand(a + b, code, org)
  {
    hide Stands;
  }

  /** The first slice of a sweep is what is decoded there, and the sweep goes on behind it. */
  lemma SweepStep(code: seq<byte>, from: nat)
    requires from < |code|
    ensures var slices := Sweep(code[from..]);
            && slices != []
            && var next := from + |slices[0].bytes|;
               && from < next <= |code|
               && code[from..next] == slices[0].bytes
               && slices[1..] == Sweep(code[next..])
               && DecodeInstruction(code[from..]) == (slices[0].literals, code[next..])
  {
    hide DecodeInstruction;
    var rest := DecodeInstruction(code[from..]).1;
    DecodingMakesProgress(code[from..]);
    assert rest == code[|code| - |rest|..];
  }

  lemma {:induction false} SweepOn(code: seq<byte>, from: nat, n: nat)
    requires from <= |code| && n <= |Sweep(code[from..])|
    ensures var slices := Sweep(code[from..]);
            var next := from + |AllBytes(slices[..n])|;
            && next <= |code|
            && code[from..next] == AllBytes(slices[..n])
            && slices[n..] == Sweep(code[next..])
    decreases n
  {
    hide DecodeInstruction, Sweep;
    var slices := Sweep(code[from..]);
    if n == 0 {
      assert slices[0..] == slices && slices[..0] == [];
    } else {
      if from == |code| {
        assert code[from..] == [];
        EmptySweep();
      }
      SweepStep(code, from);
      var next := from + |slices[0].bytes|;
      SweepOn(code, next, n - 1);
      assert slices[..n][1..] == slices[1..][..n - 1] && slices[1..][n - 1..] == slices[n..];
    }
  }

  lemma {:induction false} LineStands(code: seq<byte>, org: nat, from: nat)
    requires from < |code| && !IsBad(Sweep(code[from..])[0])
    ensures Sweep(code[from..])[0].literals != [] && Stands(LineOf(Sweep(code[from..])[0], org + from), code, org)
  {
    hide DecodeInstruction, IsBadData, Sweep;
    SweepStep(code, from);
    GoodTextIsOneLine(code[from..]);
  }

  lemma {:induction false} LinesStand(code: seq<byte>, org: nat, from: nat, m: nat)
    requires from <= |code| && m <= |Sweep(code[from..])|
    requires forall k :: 0 <= k < m ==> IsNop(Sweep(code[from..])[k])
    ensures
      AllStand(Lines(Sweep(code[from..])[..m], org + from), code, org)
    decreases m
  {
    hide DecodeInstruction, IsBad, Sweep, Stands, IsNop;
    if m > 0 {
      if from == |code| {
        assert code[from..] == [];
        EmptySweep();
      }
      var slices := Sweep(code[from..]);
      SweepStep(code, from);
      NopIsGood(slices[0]);
      LineStands(code, org, from);
      LineOfNop(slices[0], org + from);
      LinesStand(code, org, from + |slices[0].bytes|, m - 1);
      LinesStep(slices, m, org + from);
      StandAppend([NopLine(slices[0], org + from)], Lines(slices[1..][..m - 1], org + from + |slices[0].bytes|), code,
        org);
    }
  }

  lemma {:induction false} NopsStand(code: seq<byte>, org: nat, from: nat)
    requires from <= |code| && Sweep(code[from..]) != []
    ensures
      var slices := Sweep(code[from..]);
      var n := NopRun(slices);
      && |AllBytes(slices[..n])| == n
      && AllStand(Lines(slices[..Least(n, 3)], org + from) + Report(n, org + from), code, org)
  {
    hide DecodeInstruction, IsBad, Sweep, IsNop, Lines, NopRun;
    var slices, at := Sweep(code[from..]), org + from;
    var n := NopRun(slices);
    SweepOn(code, from, n);
    SweptNops(code[from..]);
    NopBytes(slices[..n]);
    LinesStand(code, org, from, Least(n, 3));
    StandAppend(Lines(slices[..Least(n, 3)], at), Report(n, at), code, org);
  }

  lemma {:induction false} DumpStands(code: seq<byte>, org: nat, from: nat)
    requires from <= |code| && Sweep(code[from..]) != [] && IsBad(Sweep(code[from..])[0])
    ensures
      var slices := Sweep(code[from..]);
      AllStand([Dump(org + from, AllBytes(slices[..BadRun(slices)]))], code, org)
  {
    hide DecodeInstruction, Sweep, IsBadData;
    var slices := Sweep(code[from..]);
    SweepNotAtEnd(code, from);
    SweepStep(code, from);
    SweepOn(code, from, BadRun(slices));
  }

  lemma SweepNotAtEnd(code: seq<byte>, from: nat)
    requires from <= |code| && Sweep(code[from..]) != []
    ensures from < |code|
  {
    hide DecodeInstruction;
  }

  /** Every item of a listing stands where it says. */
  lemma {:induction false} ListingStands(code: seq<byte>, org: nat, from: nat)
    requires from <= |code|
    ensures AllStand(Render(Sweep(code[from..]), org + from), code, org)
    decreases |code| - from
  {
    hide DecodeInstruction, IsBad, Sweep, IsNop, Lines, LineOf, Stands, AllStand, AllBytes, BadRun, NopRun, Render;
    hide Report, Least;
    var slices, at := Sweep(code[from..]), org + from;
    if slices == [] {
      StandNone(code, org, at);
    } else {
      SweepNotAtEnd(code, from);
      SweepStep(code, from);
      if IsBad(slices[0]) {
        var n := BadRun(slices);
        RenderAtBad(slices, at);
        if n == |slices| {
          StandNone(code, org, at);
        } else {
          OneBad(slices);
          SweepOn(code, from, n);
          DumpStands(code, org, from);
          ListingStands(code, org, from + |AllBytes(slices[..n])|);
          StandAppend([Dump(at, AllBytes(slices[..n]))], Render(slices[n..], at + |AllBytes(slices[..n])|), code, org);
        }
      } else if IsNop(slices[0]) {
        var n := NopRun(slices);
        NopIsGood(slices[0]);
        RenderAtNop(slices, at);
        OneNop(slices);
        NopsStand(code, org, from);
        SweepOn(code, from, n);
        ListingStands(code, org, from + n);
        StandAppend(Lines(slices[..Least(n, 3)], at) + Report(n, at), Render(slices[n..], at + n), code, org);
      } else {
        RenderAtLine(slices, at);
        LineStands(code, org, from);
        StandOne(LineOf(slices[0], at), code, org);
        ListingStands(code, org, from + |slices[0].bytes|);
        StandAppend([LineOf(slices[0], at)], Render(slices[1..], at + |slices[0].bytes|), code, org);
      }
    }
  }

  lemma StandNone(code: seq<byte>, org: nat, at: nat)
    ensures AllStand([], code, org) && Render([], at) == []
  {
  }

  lemma StandOne(item: Item, code: seq<byte>, org: nat)
    requires Stands(item, code, org)
    ensures AllStand([item], code, org)
  {
  }

  lemma OneBad(slices: seq<Slice>)
    requires slices != [] && IsBad(slices[0])
    ensures 0 < BadRun(slices) && |AllBytes(slices[..BadRun(slices)])| >= |slices[0].bytes|
  {
    hide IsBad;
    assert slices[..BadRun(slices)][0] == slices[0];
  }

  lemma OneNop(slices: seq<Slice>)
    requires slices != [] && IsNop(slices[0])
    ensures 0 < NopRun(slices)
  {
  }
}
