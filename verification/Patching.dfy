/** Why patching a placeholder gives the encoding of the instruction with the address in it. */
module Patching {
  import opened Bytes
  import opened InstructionSet
  import opened Operands
  import opened Encoder
  import opened Assembler
  import opened Linker

  // ---- a patched statement is the statement with the address in it ----

  lemma {:induction false} EncTargetsConcat(a: seq<Target>, b: seq<Target>)
    requires (forall t :: t in a ==> EncodableTarget(t)) && (forall t :: t in b ==> EncodableTarget(t))
    ensures EncTargets(a + b) == EncTargets(a) + EncTargets(b)
    decreases |b|
  {
    hide EncTarget, EncodableTarget;
    if b == [] {
      assert a + b == a;
    } else {
      EncTargetsAppend(a, b[0]);
      EncTargetsConcat(a + [b[0]], b[1..]);
      assert a + b == a + [b[0]] + b[1..];
      Associate(EncTargets(a), EncTarget(b[0]), EncTargets(b[1..]));
    }
  }

  function Head(i: Instruction): seq<byte>
    requires RequiresWidth(i.mnemonic) ==> i.width.Some?
  {
    [Opcode(i.mnemonic)] + if RequiresWidth(i.mnemonic) then [i.width.value.Prefix()] else []
  }

  /** Everything an encoding holds before operand `j`. */
  function Before(i: Instruction, j: nat): seq<byte>
    requires Accepts(i) && j <= |i.operands| == ArgumentCount(i.mnemonic)
  {
    Head(i) + EncTargets(i.operands[..j])
  }

  /** Everything an encoding holds behind operand `j`. */
  function Behind(i: Instruction, j: nat): seq<byte>
    requires Accepts(i) && j < |i.operands| == ArgumentCount(i.mnemonic)
  {
    EncTargets(i.operands[j + 1..])
  }

  lemma {:induction false} EncodingAround(i: Instruction, j: nat)
    requires Accepts(i) && j < |i.operands| == ArgumentCount(i.mnemonic)
    ensures Encode(i) == Before(i, j) + EncTarget(i.operands[j]) + Behind(i, j)
  {
    hide EncTarget, EncodableTarget, Opcode, RequiresWidth, ArgumentCount, PassesSanityCheck, WidthConsistent;
    var ts := i.operands;
    assert ts == ts[..j] + ([ts[j]] + ts[j + 1..]);
    EncTargetsConcat(ts[..j], [ts[j]] + ts[j + 1..]);
    assert ([ts[j]] + ts[j + 1..])[1..] == ts[j + 1..];
    assert EncTargets([ts[j]] + ts[j + 1..]) == EncTarget(ts[j]) + EncTargets(ts[j + 1..]);
    Associate(Head(i), EncTargets(ts[..j]), EncTarget(ts[j]) + EncTargets(ts[j + 1..]));
    Associate(Before(i, j), EncTarget(ts[j]), EncTargets(ts[j + 1..]));
  }

  lemma OccursBehind(a: seq<byte>, b: seq<byte>, c: seq<byte>)
    ensures Occurs(a + b + c, b, |a|)
  {
  }

  lemma ReplaceBehind(a: seq<byte>, c: seq<byte>, r: seq<byte>)
    requires Search(a + PLACEHOLDER + c, PLACEHOLDER, 0) == |a|
    ensures Replace(a + PLACEHOLDER + c, PLACEHOLDER, r) == a + r + c
  {
    hide Search;
    var s := a + PLACEHOLDER + c;
    assert s[..|a|] == a && s[|a| + |PLACEHOLDER|..] == c;
  }

  lemma {:induction false} LeOfAllOnes(n: nat)
    ensures Le(Pow256(n) - 1, n) == seq(n, _ => 255)
  {
    if n > 0 {
      var p: nat := Pow256(n - 1);
      assert (256 * p - 1) % 256 == 255 && (256 * p - 1) / 256 == p - 1;
      LeOfAllOnes(n - 1);
      assert seq<byte>(n, _ => 255) == [255] + seq(n - 1, _ => 255);
    }
  }

  lemma PlaceholderIsConstant()
    ensures EncConstant(W64, ALL_ONES) == PLACEHOLDER
  {
    Pow256Values();
    LeOfAllOnes(8);
  }

  /** Operands that differ in the value of a 64-bit constant at most. */
  ghost predicate SameShape(t: Target, u: Target) {
    t == u || (t.Constant? && u.Constant? && t.width == u.width)
  }

  lemma ShapeDecidesAcceptance(i: Instruction, k: Instruction)
    requires i.mnemonic == k.mnemonic && i.width == k.width && |i.operands| == |k.operands|
    requires forall j :: 0 <= j < |i.operands| ==> SameShape(i.operands[j], k.operands[j])
    requires Accepts(i)
    ensures Accepts(k)
  {
    hide RequiresWidth, ArgumentCount;
    var m, ts, us := i.mnemonic, CheckedOperands(i), CheckedOperands(k);
    forall u | u in us
      ensures EncodableTarget(u) && (RequiresWidth(m) ==> WidthConsistent(i.width.value, u))
    {
      var j :| 0 <= j < |us| && us[j] == u;
      assert SameShape(ts[j], us[j]) && ts[j] in ts;
    }
    ShapeDecidesSanity(m, ts, us);
  }

  lemma ShapeDecidesSanity(m: Mnemonic, ts: seq<Target>, us: seq<Target>)
    requires |ts| == |us| == ArgumentCount(m)
    requires forall j :: 0 <= j < |ts| ==> SameShape(ts[j], us[j])
    requires PassesSanityCheck(m, ts)
    ensures PassesSanityCheck(m, us)
  {
    forall j | 0 <= j < |ts|
      ensures ts[j].Constant? == us[j].Constant? && ts[j].Memory? == us[j].Memory?
      ensures Is64BitOperand(ts[j]) == Is64BitOperand(us[j])
    {
      assert SameShape(ts[j], us[j]);
    }
    hide SameShape, Is64BitOperand;
  }

  lemma {:induction false} SubstitutionKeepsShape(source: SourceInstruction, symbol: Option<string>, value: u64)
    requires Draft(Statement(source, symbol)).Some?
    ensures Substitute(source, symbol, value).Some? && Accepts(Substitute(source, symbol, value).value)
  {
    hide ArgumentCount, Accepts;
    var i, k := Substitute(source, symbol, ALL_ONES).value, Substitute(source, symbol, value).value;
    ShapeDecidesAcceptance(i, k);
  }

  lemma AcceptedCount(i: Instruction)
    requires Accepts(i)
    ensures ArgumentCount(i.mnemonic) == 0 || |i.operands| == ArgumentCount(i.mnemonic)
  {
  }

  lemma NoOperandsNoPlaceholder(i: Instruction)
    requires Accepts(i) && ArgumentCount(i.mnemonic) == 0
    ensures forall p :: !Occurs(Encode(i), PLACEHOLDER, p)
  {
    hide Opcode;
  }

  lemma LaterOperandsLieFurther(i: Instruction, j: nat, k: nat)
    requires Accepts(i) && j < k <= |i.operands| == ArgumentCount(i.mnemonic)
    ensures |Before(i, j)| < |Before(i, k)|
  {
    hide EncodableTarget, RequiresWidth, PassesSanityCheck, WidthConsistent;
    var ts := i.operands;
    assert ts[..k] == ts[..j] + ts[j..k];
    EncTargetsConcat(ts[..j], ts[j..k]);
  }

  lemma OperandOccurs(i: Instruction, j: nat)
    requires Accepts(i) && j < |i.operands| == ArgumentCount(i.mnemonic)
    requires i.operands[j] == Constant(W64, ALL_ONES)
    ensures Occurs(Encode(i), PLACEHOLDER, |Before(i, j)|)
  {
    hide Accepts, ArgumentCount, EncConstant, Before, Behind, Encode, Occurs;
    EncodingAround(i, j);
    PlaceholderIsConstant();
    OccursBehind(Before(i, j), PLACEHOLDER, Behind(i, j));
  }

  lemma SameAround(i: Instruction, k: Instruction, j: nat)
    requires Accepts(i) && j < |i.operands| == ArgumentCount(i.mnemonic)
    requires Accepts(k) && j < |k.operands| == ArgumentCount(k.mnemonic)
    requires i.mnemonic == k.mnemonic && i.width == k.width && |i.operands| == |k.operands|
    requires forall n :: 0 <= n < |i.operands| && n != j ==> i.operands[n] == k.operands[n]
    ensures Before(i, j) == Before(k, j) && Behind(i, j) == Behind(k, j)
  {
    hide Accepts, ArgumentCount, EncTarget;
    assert i.operands[..j] == k.operands[..j] && i.operands[j + 1..] == k.operands[j + 1..];
  }

  /** A draft with one placeholder has one symbol operand. */
  lemma OneSymbol(source: SourceInstruction, name: string, j: nat)
    requires Draft(Statement(source, Some(name))).Some? && ArgumentCount(source.mnemonic) > 0
    requires j < |source.operands| && source.operands[j] == Symbol(name)
    requires Count(Draft(Statement(source, Some(name))).value, PLACEHOLDER) == 1
    ensures forall n :: 0 <= n < |source.operands| && n != j ==> source.operands[n].Plain?
  {
    hide ArgumentCount, Accepts, Count, Before, Encode, Occurs;
    var draft, i := Draft(Statement(source, Some(name))).value, Substitute(source, Some(name), ALL_ONES).value;
    CountOneIsUnique(draft);
    AcceptedCount(i);
    OperandOccurs(i, j);
    forall n | 0 <= n < |source.operands| && n != j
      ensures source.operands[n].Plain?
    {
      if source.operands[n].Symbol? {
        OperandOccurs(i, n);
        LaterOperandsLieFurther(i, if n < j then n else j, if n < j then j else n);
      }
    }
  }

  /** Patching the one placeholder of a statement's draft is encoding the statement with the
      address in place of its symbol. */
  lemma {:induction false} PatchedStatement(source: SourceInstruction, name: string, value: u64)
    requires Draft(Statement(source, Some(name))).Some? && Symbol(name) in source.operands
    requires Count(Draft(Statement(source, Some(name))).value, PLACEHOLDER) == 1
    ensures Substitute(source, Some(name), value).Some? && Accepts(Substitute(source, Some(name), value).value)
    ensures
      Replace(Draft(Statement(source, Some(name))).value, PLACEHOLDER, EncConstant(W64, value)) ==
      Encode(Substitute(source, Some(name), value).value)
  {
    hide ArgumentCount, Accepts, EncConstant, Replace, Count, Search, Before, Behind, Encode, Occurs;
    var i := Substitute(source, Some(name), ALL_ONES).value;
    SubstitutionKeepsShape(source, Some(name), value);
    CountOneIsUnique(Encode(i));
    if ArgumentCount(source.mnemonic) == 0 {
      NoOperandsNoPlaceholder(i);
    } else {
      var j :| 0 <= j < |source.operands| && source.operands[j] == Symbol(name);
      OneSymbol(source, name, j);
      AcceptedCount(i);
      PatchedOperand(i, Substitute(source, Some(name), value).value, j, value);
    }
  }

  lemma PatchedOperand(i: Instruction, k: Instruction, j: nat, value: u64)
    requires Accepts(i) && j < |i.operands| == ArgumentCount(i.mnemonic)
    requires Accepts(k) && j < |k.operands| == ArgumentCount(k.mnemonic)
    requires i.mnemonic == k.mnemonic && i.width == k.width && |i.operands| == |k.operands|
    requires forall n :: 0 <= n < |i.operands| && n != j ==> i.operands[n] == k.operands[n]
    requires i.operands[j] == Constant(W64, ALL_ONES) && k.operands[j] == Constant(W64, value)
    requires OccursOnlyAt(Encode(i), Search(Encode(i), PLACEHOLDER, 0))
    ensures Replace(Encode(i), PLACEHOLDER, EncConstant(W64, value)) == Encode(k)
  {
    hide ArgumentCount, Accepts, EncConstant, Replace, Search, Before, Behind, Encode, Occurs;
    PlaceholderIsConstant();
    EncodingAround(i, j);
    EncodingAround(k, j);
    SameAround(i, k, j);
    OperandOccurs(i, j);
    ReplaceBehind(Before(i, j), Behind(i, j), EncConstant(W64, value));
  }
}
