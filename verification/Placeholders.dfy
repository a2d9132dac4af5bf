/** How often the placeholder occurs in the code of a line, told from its operands. */
module Placeholders {
  import opened Bytes
  import opened InstructionSet
  import opened Operands
  import opened Encoder
  import opened Assembler
  import opened Linker
  import opened Patching

  ghost predicate Free(data: seq<byte>) {
    forall p :: !Occurs(data, PLACEHOLDER, p)
  }

  /** Bytes that cannot continue a placeholder begun in front of them. */
  predicate Apart(data: seq<byte>) {
    data == [] || (data[0] != PLACEHOLDER[1] && data[0] != PLACEHOLDER[2])
  }

  lemma OccursInPart(a: seq<byte>, b: seq<byte>, p: int)
    requires Apart(b)
    ensures Occurs(a + b, PLACEHOLDER, p) <==> Occurs(a, PLACEHOLDER, p) || Occurs(b, PLACEHOLDER, p - |a|)
  {
    var n := |PLACEHOLDER|;
    assert b != [] ==> (a + b)[|a|] == b[0];
    if Occurs(a + b, PLACEHOLDER, p) && p < |a| < p + n {
      OccurrenceByte(a + b, p, |a| - p);
    } else if 0 <= p && p + n <= |a| {
      assert (a + b)[p..p + n] == a[p..p + n];
    } else if |a| <= p && p + n <= |a + b| {
      assert (a + b)[p..p + n] == b[p - |a|..p - |a| + n];
    }
  }

  lemma {:induction false} FreeParts(a: seq<byte>, b: seq<byte>)
    requires Apart(b)
    ensures Free(a + b) <==> Free(a) && Free(b)
  {
    hide Occurs, Apart;
    forall p: int
      ensures Occurs(a + b, PLACEHOLDER, p) <==> Occurs(a, PLACEHOLDER, p) || Occurs(b, PLACEHOLDER, p - |a|)
    {
      OccursInPart(a, b, p);
    }
    if q :| Occurs(b, PLACEHOLDER, q) {
      OccursInPart(a, b, q + |a|);
      assert Occurs(b, PLACEHOLDER, q + |a| - |a|);
    }
  }

  lemma ShortIsFree(data: seq<byte>)
    requires |data| < |PLACEHOLDER|
    ensures Free(data)
  {
  }

  /** Around one placeholder: it is the only one exactly when both sides are free of it. */
  lemma {:induction false} OnceBetween(a: seq<byte>, b: seq<byte>)
    requires Apart(b)
    ensures Count(a + PLACEHOLDER + b, PLACEHOLDER) == 1 <==> Free(a) && Free(b)
  {
    hide Occurs, Apart, Count;
    var data := a + PLACEHOLDER + b;
    assert Apart(PLACEHOLDER) by { PlaceholderIsApart(); }
    forall p: int
      ensures
        Occurs(data, PLACEHOLDER, p) <==>
        Occurs(a, PLACEHOLDER, p) || p == |a| || Occurs(b, PLACEHOLDER, p - |a| - |PLACEHOLDER|)
    {
      OccursInPart(a + PLACEHOLDER, b, p);
      OccursInPart(a, PLACEHOLDER, p);
      OccursInItself(p - |a|);
    }
    CountOneIsUnique(data);
    OccurrenceFits(a, |a|);
    if Free(a) && Free(b) {
      assert OccursOnlyAt(data, |a|);
    } else if p :| Occurs(a, PLACEHOLDER, p) {
      OccurrenceFits(a, p);
      assert Occurs(data, PLACEHOLDER, p) && Occurs(data, PLACEHOLDER, |a|);
    } else {
      var q :| Occurs(b, PLACEHOLDER, q);
      OccurrenceFits(b, q);
      assert Occurs(b, PLACEHOLDER, (q + |a| + |PLACEHOLDER|) - |a| - |PLACEHOLDER|);
      assert Occurs(data, PLACEHOLDER, q + |a| + |PLACEHOLDER|) && Occurs(data, PLACEHOLDER, |a|);
    }
  }

  lemma PlaceholderIsApart()
    ensures Apart(PLACEHOLDER)
  {
  }

  lemma OccursInItself(p: int)
    ensures Occurs(PLACEHOLDER, PLACEHOLDER, p) <==> p == 0
  {
  }

  // ---- what operands are encoded as ----

  predicate IsAllOnes(p: Parameter) {
    p == ConstantParameter(W64, ALL_ONES)
  }

  /** The operand is, or has a part that is, the 64-bit constant of all ones. */
  predicate HoldsAllOnes(t: Target) {
    match t
    case Register(_) => false
    case Constant(width, value) => width == W64 && value == ALL_ONES
    case Memory(_, _, base, offset1, offset2) => IsAllOnes(base) || IsAllOnes(offset1) || IsAllOnes(offset2)
  }

  lemma {:induction false} ConstantFree(width: Width, value: u64)
    ensures Free(EncConstant(width, value)) <==> !(width == W64 && value == ALL_ONES)
    ensures Apart(EncConstant(width, value))
  {
    hide Le;
    if width == W64 {
      PlaceholderIsConstant();
      if value == ALL_ONES {
        OccursInItself(0);
      } else if p :| Occurs(EncConstant(width, value), PLACEHOLDER, p) {
        assert p == 0 && EncConstant(W64, value) == PLACEHOLDER;
        SameConstants(value, ALL_ONES);
      }
    } else {
      ShortIsFree(EncConstant(width, value));
    }
  }

  lemma SameConstants(v: u64, w: u64)
    requires EncConstant(W64, v) == EncConstant(W64, w)
    ensures v == w
  {
    hide Le, FromLe;
    assert EncConstant(W64, v)[2..] == Le(v, 8) && EncConstant(W64, w)[2..] == Le(w, 8);
    FromLeOfLe(v, 8);
    FromLeOfLe(w, 8);
    Pow256Values();
  }

  lemma RegisterFree(name: RegisterName)
    requires EncodableRegister(name)
    ensures Free(EncRegister(name)) && Apart(EncRegister(name))
  {
    ShortIsFree(EncRegister(name));
  }

  lemma ParameterFree(p: Parameter)
    requires EncodableParameter(p)
    ensures Free(EncParameter(p)) <==> !IsAllOnes(p)
    ensures Apart(EncParameter(p))
  {
    hide EncConstant, EncRegister, Free, Apart, EncodableRegister;
    match p {
      case RegisterParameter(name) => RegisterFree(name);
      case ConstantParameter(width, value) => ConstantFree(width, value);
    }
  }

  lemma {:induction false} TargetFree(t: Target)
    requires EncodableTarget(t)
    ensures Free(EncTarget(t)) <==> !HoldsAllOnes(t)
    ensures Apart(EncTarget(t))
  {
    hide EncConstant, EncRegister, EncParameter, Free, EncodableParameter, EncodableRegister;
    match t {
      case Register(name) => RegisterFree(name);
      case Constant(width, value) => ConstantFree(width, value);
      case Memory(ratio, width, base, offset1, offset2) =>
        var head := [MEMORY_PREFIX, width.Prefix()];
        ParameterFree(base);
        ParameterFree(offset1);
        ParameterFree(offset2);
        ShortIsFree(head);
        ShortIsFree([ratio.Code()]);
        FreeParts(head, EncParameter(base));
        FreeParts(head + EncParameter(base), EncParameter(offset1));
        FreeParts(head + EncParameter(base) + EncParameter(offset1), EncParameter(offset2));
        FreeParts(head + EncParameter(base) + EncParameter(offset1) + EncParameter(offset2), [ratio.Code()]);
    }
  }

  lemma {:induction false} TargetsFree(ts: seq<Target>)
    requires forall t :: t in ts ==> EncodableTarget(t)
    ensures Free(EncTargets(ts)) <==> forall k :: 0 <= k < |ts| ==> !HoldsAllOnes(ts[k])
    ensures Apart(EncTargets(ts))
  {
    hide EncTarget, Free, EncodableTarget, HoldsAllOnes;
    if ts == [] {
      ShortIsFree([]);
    } else {
      TargetFree(ts[0]);
      TargetsFree(ts[1..]);
      FreeParts(EncTarget(ts[0]), EncTargets(ts[1..]));
      assert ts == [ts[0]] + ts[1..];
    }
  }

  /** The code of an instruction with an all-ones operand holds one placeholder exactly when no
      other operand holds that constant. */
  lemma {:induction false} OnePlaceholderExactly(i: Instruction, j: nat)
    requires Accepts(i) && j < |i.operands| == ArgumentCount(i.mnemonic)
    requires i.operands[j] == Constant(W64, ALL_ONES)
    ensures
      Count(Encode(i), PLACEHOLDER) == 1 <==>
      forall k :: 0 <= k < |i.operands| && k != j ==> !HoldsAllOnes(i.operands[k])
  {
    hide Accepts, ArgumentCount, EncConstant, Before, Behind, Encode, Free, Apart, Count, HoldsAllOnes;
    EncodingAround(i, j);
    PlaceholderIsConstant();
    SidesFree(i, j);
    OnceBetween(Before(i, j), Behind(i, j));
  }

  lemma {:induction false} SidesFree(i: Instruction, j: nat)
    requires Accepts(i) && j < |i.operands| == ArgumentCount(i.mnemonic)
    ensures Free(Before(i, j)) <==> forall k :: 0 <= k < j ==> !HoldsAllOnes(i.operands[k])
    ensures Free(Behind(i, j)) <==> forall k :: j < k < |i.operands| ==> !HoldsAllOnes(i.operands[k])
    ensures Apart(Behind(i, j))
  {
    hide ArgumentCount, Free, Apart, HoldsAllOnes, EncTargets, Opcode, PassesSanityCheck, WidthConsistent;
    var ts := i.operands;
    TargetsFree(ts[..j]);
    TargetsFree(ts[j + 1..]);
    ShortIsFree(Head(i));
    FreeParts(Head(i), EncTargets(ts[..j]));
    assert forall k :: j < k < |ts| ==> ts[k] == ts[j + 1..][k - j - 1];
  }
}
