/** Which instructions the assembler accepts, in terms of mnemonics and operand forms. */
module Acceptance {
  import opened InstructionSet
  import opened Operands
  import opened Encoder

  predicate IsDecimal(digits: string) {
    digits != [] && forall k :: 0 <= k < |digits| ==> '0' <= digits[k] <= '9'
  }

  /** %FER with any digits, the narrower registers with a digit up to 7, and the seven registers
      with names of their own. */
  predicate KnownRegister(name: RegisterName) {
    match name
    case Numbered(KindFER, digits) => IsDecimal(digits)
    case Numbered(_, digits) => |digits| == 1 && '0' <= digits[0] <= '7'
    case XMM(_) => false
    case _ => true
  }

  /** A part of a memory operand: a constant or a 64-bit register. */
  predicate KnownPart(p: Parameter) {
    match p
    case ConstantParameter(_, _) => true
    case RegisterParameter(name) => KnownRegister(name) && OperandWidth(Register(name)) == W64
    case Unrecognized => false
  }

  predicate KnownOperand(t: Target) {
    match t
    case Register(name) => KnownRegister(name)
    case Constant(_, _) => true
    case Memory(_, _, base, offset1, offset2) => KnownPart(base) && KnownPart(offset1) && KnownPart(offset2)
  }

  /** Instructions that write their first operand. */
  predicate WritesFirst(m: Mnemonic) {
    match m
    case MOV | XCHG | POP | LEA | ADD | ADC | SUB | SBB | NEG | INC | DEC | AND | OR | XOR | NOT | SHL
       | SHR | ROL | ROR | RCL | RCR => true
    case _ => false
  }

  /** Instructions that write their second operand. */
  predicate WritesSecond(m: Mnemonic) {
    match m
    case XCHG | IN => true
    case _ => false
  }

  /** Instructions that go to a code base and an address. */
  predicate Branches(m: Mnemonic) {
    match m
    case JMP | CALL | JE | JNE | JB | JL | JBE | JLE | JC | JNC | JO | JNO | LOOP => true
    case _ => false
  }

  /** A 64-bit operand, or a constant of any width. */
  predicate FitsAddress(t: Target) {
    t.Constant? || OperandWidth(t) == W64
  }

  /** What is asked of the operands of an instruction: no constant where it writes, memory and a
      64-bit place for LEA, addresses for branches. */
  predicate OperandsMakeSense(m: Mnemonic, ts: seq<Target>)
    requires |ts| == ArgumentCount(m)
  {
    && (WritesFirst(m) ==> !ts[0].Constant?)
    && (WritesSecond(m) ==> !ts[1].Constant?)
    && (m == LEA ==> ts[1].Memory? && OperandWidth(ts[0]) == W64)
    && (Branches(m) ==> FitsAddress(ts[0]) && FitsAddress(ts[1]))
  }

  predicate WidthFits(w: Width, t: Target) {
    OperandWidth(t) == w || (w == W16 && (t == Register(EB) || t == Register(EP)))
  }

  lemma OperandExact(t: Target)
    ensures EncodableTarget(t) <==> KnownOperand(t)
  {
    match t {
      case Memory(_, _, base, offset1, offset2) =>
        PartExact(base);
        PartExact(offset1);
        PartExact(offset2);
      case _ =>
    }
  }

  lemma PartExact(p: Parameter)
    ensures EncodableParameter(p) <==> KnownPart(p)
  {
  }

  lemma SanityOfBranch(m: Mnemonic, ts: seq<Target>)
    requires |ts| == ArgumentCount(m) && Branches(m)
    ensures |ts| == 2 && !WritesFirst(m) && !WritesSecond(m) && m != LEA
    ensures PassesSanityCheck(m, ts) <==> Is64BitOperand(ts[0]) && Is64BitOperand(ts[1])
  {
    hide Is64BitOperand;
  }

  lemma SanityOfWriter(m: Mnemonic, ts: seq<Target>)
    requires |ts| == ArgumentCount(m) && WritesFirst(m) && m != LEA && m != XCHG
    ensures |ts| > 0
    ensures PassesSanityCheck(m, ts) <==> !ts[0].Constant?
  {
    hide Branches, WritesSecond;
  }

  lemma WritersAreApart(m: Mnemonic)
    requires WritesFirst(m) && m != LEA && m != XCHG
    ensures !Branches(m) && !WritesSecond(m)
  {
  }

  lemma SanityOfRest(m: Mnemonic, ts: seq<Target>)
    requires |ts| == ArgumentCount(m) && !WritesFirst(m) && m != IN && !Branches(m)
    ensures PassesSanityCheck(m, ts) && !WritesSecond(m) && m != LEA
  {
  }

  /** The sanity check refuses exactly those operands. */
  lemma {:induction false} SanityExact(m: Mnemonic, ts: seq<Target>)
    requires |ts| == ArgumentCount(m) && forall t :: t in ts ==> EncodableTarget(t)
    ensures PassesSanityCheck(m, ts) <==> OperandsMakeSense(m, ts)
  {
    if m == XCHG || m == IN {
    } else if m == LEA {
      AddressExact(ts[0]);
    } else {
      hide WritesFirst, WritesSecond, Branches, ArgumentCount, PassesSanityCheck, FitsAddress, Is64BitOperand;
      if Branches(m) {
        SanityOfBranch(m, ts);
        AddressExact(ts[0]);
        AddressExact(ts[1]);
      } else if WritesFirst(m) {
        SanityOfWriter(m, ts);
        WritersAreApart(m);
      } else {
        SanityOfRest(m, ts);
      }
    }
  }

  lemma AddressExact(t: Target)
    requires EncodableTarget(t)
    ensures Is64BitOperand(t) <==> FitsAddress(t)
    ensures !t.Constant? ==> (Is64BitOperand(t) <==> OperandWidth(t) == W64)
  {
  }

  /** An instruction is accepted if and only if it has the operands its mnemonic takes, a width
      where that needs one and none where that takes operands without, known operands, operands
      of its width, and operands that make sense. One that takes no operands accepts any. */
  lemma {:induction false} AcceptsExactly(i: Instruction)
    ensures
      Accepts(i) <==>
      var (m, n) := (i.mnemonic, ArgumentCount(i.mnemonic));
      && (RequiresWidth(m) ==> i.width.Some?)
      && (n > 0 ==>
            && |i.operands| == n && (i.width.Some? ==> RequiresWidth(m))
            && (forall t :: t in i.operands ==> KnownOperand(t))
            && (RequiresWidth(m) ==> forall t :: t in i.operands ==> WidthFits(i.width.value, t))
            && OperandsMakeSense(m, i.operands))
  {
    hide EncodableTarget, KnownOperand, WidthConsistent, WidthFits, PassesSanityCheck, OperandsMakeSense;
    hide RequiresWidth, ArgumentCount;
    var m, ts := i.mnemonic, CheckedOperands(i);
    if ArgumentCount(m) == 0 {
      NoOperandsMakeSense(m);
    }
    forall t: Target
      ensures EncodableTarget(t) <==> KnownOperand(t)
    {
      OperandExact(t);
    }
    forall t, w: Width | EncodableTarget(t)
      ensures WidthConsistent(w, t) <==> WidthFits(w, t)
    {
      WidthExact(w, t);
    }
    if |ts| == ArgumentCount(m) && forall t :: t in ts ==> EncodableTarget(t) {
      SanityExact(m, ts);
    }
  }

  lemma WidthExact(w: Width, t: Target)
    requires EncodableTarget(t)
    ensures WidthConsistent(w, t) <==> WidthFits(w, t)
  {
    OperandWidthExact(w, t);
  }

  lemma NoOperandsMakeSense(m: Mnemonic)
    requires ArgumentCount(m) == 0
    ensures PassesSanityCheck(m, [])
  {
  }
}
