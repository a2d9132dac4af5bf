/** What addition and subtraction do to their target, whatever its form, and to the flags. */
module AluInstructions {
  import opened Bytes
  import opened Operands
  import opened Registers
  import opened CpuDecoder
  import opened Machine
  import opened StackOperations
  import opened OperandAccess
  import opened Arithmetic

  /** Sum or difference as a number of any size, the carry taken into account by adc and sbb. */
  function Exact(op: AluOp, x: u64, y: u64, carry: bool): int {
    match op
    case Add => x + y
    case Adc => x + y + if carry then 1 else 0
    case Sub => x - y
    case Sbb => x - y - if carry then 1 else 0
  }

  lemma CombineIsExact(op: AluOp, x: u64, y: u64, carry: bool)
    ensures Combine(op, x, y, carry) == Wrap64(Exact(op, x, y, carry))
  {
    hide Wrap64;
  }

  /** Carry as the result says, overflow and the order bits cleared, everything above kept. */
  ghost predicate ArithmeticFlags(before: u64, after: u64, carry: bool) {
    after % 32 == (if carry then 1 else 0) && after / 32 == before / 32
  }

  lemma {:induction false} FlagsStored(f: RegisterFile, w: Width, value: u64)
    ensures var (r, g) := CheckOverflow(f, w, value);
            && r == value % Pow256(w.Size())
            && ArithmeticFlags(Load(f, Flags), Load(g, Flags), value >= Pow256(w.Size()))
  {
    hide Load, Store, Pow256;
    LoadStoredWide(f, Flags, WithArithmeticFlags(Load(f, Flags), !(value < Pow256(w.Size()))));
  }

  /** The target receives sum or difference cut to its width; the carry says whether what was
      formed in 64 bits did not fit that width. */
  lemma {:induction false} AluResult(s: State, w: Width, op: AluOp, target: CpuOperand, source: CpuOperand)
    requires ExecuteAlu(s, w, op, target, source).fault.None? && target.width == w.Prefix()
    ensures var (t, p, flags) := (ExecuteAlu(s, w, op, target, source).state, Pow256(w.Size()), Load(s.file, Flags));
            && GetVal(s, target).Done? && GetVal(s, source).Done?
            && var exact := Exact(op, GetVal(s, target).value, GetVal(s, source).value, Carry(flags));
               && GetVal(t, target) == Done(exact % p)
               && ArithmeticFlags(flags, Load(t.file, Flags), exact % TWO64 >= p)
  {
    hide Load, Store, GetVal, SetVal, Combine, CheckOverflow, ArithmeticFlags, Exact, Pow256, Carry;
    var x, y, carry := GetVal(s, target).value, GetVal(s, source).value, Carry(Load(s.file, Flags));
    var v, p, exact := Combine(op, x, y, carry), Pow256(w.Size()), Exact(op, x, y, carry);
    CombineIsExact(op, x, y, carry);
    FlagsStored(s.file, w, v);
    LowBytesOfWrapped(exact, w.Size());
    var (r, g) := CheckOverflow(s.file, w, v);
    WidthCodes(target.width);
    ReadBack(State(g, s.mem), target, r);
    DivModUnique(r, p, 0, r);
  }

  /** With a constant for a target the instruction is illegal; the flags have changed by then, and
      nothing else has. */
  lemma {:induction false} AluOnConstant(s: State, w: Width, op: AluOp, value: u64, width: byte, source: CpuOperand)
    requires GetVal(s, source).Done?
    ensures var (r, flags) := (ExecuteAlu(s, w, op, ConstantOperand(value, width), source), Load(s.file, Flags));
            && r.fault == Some(IllegalInstruction) && r.state.mem == s.mem
            && ArithmeticFlags(flags, Load(r.state.file, Flags),
                               Exact(op, value, GetVal(s, source).value, Carry(flags)) % TWO64 >= Pow256(w.Size()))
            && forall q: Registers.Register :: q.Exists() && q != Flags ==> Load(r.state.file, q) == Load(s.file, q)
  {
    hide Load, Store, Combine, ArithmeticFlags, Exact, Pow256, Carry, WithArithmeticFlags;
    var flags, y := Load(s.file, Flags), GetVal(s, source).value;
    var v := Combine(op, value, y, Carry(flags));
    CombineIsExact(op, value, y, Carry(flags));
    FlagsStored(s.file, w, v);
    forall q: Registers.Register | q.Exists() && q != Flags
      ensures Load(CheckOverflow(s.file, w, v).1, q) == Load(s.file, q)
    {
      OtherRegister(q, Flags);
      LoadDisjoint(s.file, Flags, WithArithmeticFlags(flags, !(v < Pow256(w.Size()))), q);
    }
  }
}
