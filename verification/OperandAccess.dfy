/** What reading and writing an operand come to, by its form. */
module OperandAccess {
  import opened Bytes
  import opened Operands
  import opened Registers
  import opened CpuDecoder
  import opened Machine
  import opened StackOperations

  /** A constant reads as itself. */
  lemma ReadConstant(s: State, value: u64, width: byte)
    ensures GetVal(s, ConstantOperand(value, width)) == Done(value)
    ensures SetVal(s, ConstantOperand(value, width), value) == Failed(IllegalInstruction)
  {
  }

  /** A register operand reads the register its code selects; a code of none is illegal, read or
      written. */
  lemma {:induction false} ReadRegister(s: State, width: byte, index: byte, r: Registers.Register)
    requires r.Exists() && SelectorOf(r) == Some((width, index as nat))
    ensures GetVal(s, RegisterOperand(width, index)) == Done(Load(s.file, r))
  {
    hide Load;
    SelectionIsExact(width, index, r);
  }

  lemma {:induction false} NoSuchRegister(s: State, width: byte, index: byte, v: u64)
    requires forall r: Registers.Register :: r.Exists() ==> SelectorOf(r) != Some((width, index as nat))
    ensures GetVal(s, RegisterOperand(width, index)) == Failed(IllegalInstruction)
    ensures SetVal(s, RegisterOperand(width, index), v) == Failed(IllegalInstruction)
  {
    hide Load, Store;
    var r := SelectRegister(width, index);
    if r.Some? {
      SelectionIsExact(width, index, r.value);
    }
  }

  /** A memory operand reads its bytes, lowest first; bytes beyond memory read as a stack
      overflow and write as an illegal access; a code that is no width is illegal first. */
  lemma {:induction false} ReadMemoryOperand(s: State, address: u64, width: byte, v: u64)
    ensures var o := MemoryOperand(address, width);
            if CodedSize(width) == 0 then
              GetVal(s, o) == Failed(IllegalInstruction) && SetVal(s, o, v) == Failed(IllegalInstruction)
            else
              var n := CodedSize(width);
              if address + n > |s.mem| then
                GetVal(s, o) == Failed(Fault.StackOverflow) && SetVal(s, o, v) == Failed(MemoryFault)
              else
                GetVal(s, o) == Done(FromLe(s.mem[address..address + n]))
  {
    hide FromLe, Le, Splice;
    WidthCodes(width);
    if CodedSize(width) > 0 {
      SmallAccess(|s.mem|, address, CodedSize(width));
    }
  }

  /** After a register write the register holds the truncated value, registers without a common
      byte and all memory are as before. */
  lemma {:induction false} WriteRegister(s: State, width: byte, index: byte, r: Registers.Register, v: u64)
    requires r.Exists() && SelectorOf(r) == Some((width, index as nat))
    ensures var t := SetVal(s, RegisterOperand(width, index), v);
            && t.Done? && t.value.mem == s.mem && Load(t.value.file, r) == v % Pow256(r.Size())
            && forall q: Registers.Register :: q.Exists() && Disjoint(r, q) ==> Load(t.value.file, q) == Load(s.file, q)
  {
    hide Load, Store, Disjoint;
    SelectionIsExact(width, index, r);
    LoadStored(s.file, r, v);
    forall q: Registers.Register | q.Exists() && Disjoint(r, q)
      ensures Load(Store(s.file, r, v), q) == Load(s.file, q)
    {
      LoadDisjoint(s.file, r, v, q);
    }
  }

  /** After a memory write the bytes hold the truncated value, lowest first, and every other byte
      and all registers are as before. */
  lemma {:induction false} WriteMemoryOperand(s: State, address: u64, width: byte, v: u64)
    requires CodedSize(width) > 0 && address + CodedSize(width) <= |s.mem|
    ensures var (t, n) := (SetVal(s, MemoryOperand(address, width), v), CodedSize(width));
            && t.Done? && t.value.file == s.file && |t.value.mem| == |s.mem|
            && FromLe(t.value.mem[address..address + n]) == v % Pow256(n)
            && forall k :: 0 <= k < |s.mem| && !(address <= k < address + n) ==> t.value.mem[k] == s.mem[k]
  {
    hide FromLe, Le;
    WidthCodes(width);
    var n := CodedSize(width);
    SmallAccess(|s.mem|, address, n);
    WrittenBack(s.mem, address, Le(v, n));
    FromLeOfLe(v, n);
  }

  /** What was written is read back, cut to the operand's width. */
  lemma {:induction false} ReadBack(s: State, o: CpuOperand, v: u64)
    requires SetVal(s, o, v).Done?
    ensures !o.ConstantOperand? && CodedSize(o.width) > 0
    ensures GetVal(SetVal(s, o, v).value, o) == Done(v % Pow256(CodedSize(o.width)))
    ensures Load(SetVal(s, o, v).value.file, Flags) == Load(s.file, Flags)
  {
    hide Load, Store, FromLe, Le, Splice, SelectRegister;
    WidthCodes(o.width);
    if o.MemoryOperand? {
      ReadMemoryOperand(s, o.address, o.width, v);
      WriteMemoryOperand(s, o.address, o.width, v);
      ReadMemoryOperand(SetVal(s, o, v).value, o.address, o.width, v);
    } else {
      var r := SelectRegister(o.width, o.index).value;
      LoadStored(s.file, r, v);
      SelectedByWidth(o.width, o.index);
      OtherRegister(r, Flags);
      LoadDisjoint(s.file, r, v, Flags);
    }
  }

  lemma SelectedByWidth(width: byte, index: byte)
    requires SelectRegister(width, index).Some?
    ensures var r := SelectRegister(width, index).value;
            r.Exists() && r.Size() == CodedSize(width) && r != Flags
  {
  }
}
