/** The CPU object: register file and paged memory, updated in place by its methods. */
module Cpu {
  import opened Bytes
  import opened InstructionSet
  import opened Operands
  import opened Registers
  import opened Memory
  import opened CpuDecoder
  import opened Machine
  import Arithmetic
  import Rotation
  import RotateInstructions
  import StackOperations

  /** How a method that may throw ended. */
  datatype Attempt<T> = Value(value: T) | Throw(fault: Fault)

  ghost function Completed<T>(a: Attempt<T>, file: RegisterFile): Fetch<T> {
    match a
    case Value(v) => Got(v, file)
    case Throw(e) => Raised(e, file)
  }

  class SysdarftCPU {
    const registers: SysdarftRegister
    const memory: PagedMemory
    var int3DebugInterrupt: bool

    ghost predicate Valid()
    {
      && memory.Valid()
      && memory.total % BLOCK_SIZE == 0 && memory.total >= MINIMAL_MEMORY && memory.total + 256 < TWO64
    }

    ghost function Flat(): (m: FlatMemory)
      requires Valid()
      reads memory.blocks
      ensures |m| == memory.total
    {
      memory.Flat()
    }

    ghost function Current(): State
      requires Valid()
      reads registers, memory.blocks
    {
      State(registers.Registers, Flat())
    }

    constructor (totalMemory: u64)
      requires totalMemory % BLOCK_SIZE == 0 && totalMemory >= MINIMAL_MEMORY && totalMemory + 256 < TWO64
      ensures Valid() && fresh(registers) && fresh(memory.blocks) && memory.total == totalMemory
      ensures Load(registers.Registers, InstructionPointer) == BIOS_START
      ensures forall k :: 0 <= k < |Flat()| ==> Flat()[k] == 0
    {
      registers := new SysdarftRegister();
      memory := new PagedMemory(totalMemory);
      int3DebugInterrupt := false;
      LoadStoredWide(seq(REGISTER_FILE_SIZE, _ => 0), InstructionPointer, BIOS_START);
    }

    lemma SmallAccessIsBacked(address: u64, n: nat)
      requires Valid() && 0 < n <= 256
      ensures Refuses(memory.total, address, n) || Backed(memory.total, address, n)
    {
      hide Backed;
      if !Refuses(memory.total, address, n) {
        SmallAccess(memory.total, address, n);
        RangeCheckIsExact(memory.total, address, n);
      }
    }

    /** A read of a few bytes into a fresh buffer. */
    method ReadBytes(address: u64, n: nat) returns (r: Option<seq<byte>>)
      requires Valid() && 0 < n <= 256
      ensures r == ReadFlat(Flat(), address, n)
    {
      hide Refuses, Backed;
      SmallAccessIsBacked(address, n);
      var buffer := new byte[n](_ => 0);
      var access := memory.ReadMemory(address, buffer, n);
      if access.IllegalMemoryAccess? {
        return None;
      }
      DeliveredIsSlice(buffer[..], seq(n, _ => 0), Flat(), address, n);
      assert buffer[..][..n] == buffer[..];
      return Some(buffer[..]);
    }

    /** A write of a few bytes from a buffer. */
    method WriteBytes(address: u64, data: seq<byte>) returns (ok: bool)
      requires Valid() && 0 < |data| <= 256
      modifies memory.blocks
      ensures ok <==> !Refuses(memory.total, address, |data|)
      ensures !ok ==> Flat() == old(Flat())
      ensures ok ==> address + |data| <= memory.total && Flat() == Splice(old(Flat()), address, data)
    {
      SmallAccessIsBacked(address, |data|);
      var buffer := new byte[|data|](k requires 0 <= k < |data| => data[k]);
      assert buffer[..] == data;
      hide Refuses, Backed;
      var access := memory.WriteMemory(address, buffer, |data|);
      if access.Granted? {
        assert data[..|data|] == data;
        StoredIsSplice(Flat(), old(Flat()), data, address, |data|);
      }
      return access.Granted?;
    }

    // ---- code fetch ----

    method PopCodeAndIncIp(w: Width) returns (r: Attempt<nat>)
      requires Valid()
      modifies registers
      ensures Completed(r, registers.Registers) == PopCode(old(registers.Registers), Flat(), w)
    {
      hide Load, Store, Wrap64, FromLe;
      var cb, ip := registers.LoadRegister(CodeBase), registers.LoadRegister(InstructionPointer);
      var bytes := ReadBytes(Wrap64(cb + ip), w.Size());
      if bytes.None? {
        return Throw(Fault.StackOverflow);
      }
      registers.StoreRegister(InstructionPointer, Wrap64(ip + w.Size()));
      return Value(FromLe(bytes.value));
    }

    method PopCode8() returns (r: Attempt<byte>)
      requires Valid()
      modifies registers
      ensures Completed(r, registers.Registers) == PopByte(old(registers.Registers), Flat())
    {
      var v := PopCodeAndIncIp(W8);
      if v.Throw? {
        return Throw(v.fault);
      }
      Pow256Values();
      return Value(v.value);
    }

    method DecodeRegister() returns (r: Attempt<RegisterCode>)
      requires Valid()
      modifies registers
      ensures Completed(r, registers.Registers) == FetchRegister(old(registers.Registers), Flat())
    {
      hide PopByte;
      var width := PopCode8();
      if width.Throw? {
        return Throw(width.fault);
      }
      var index := PopCode8();
      if index.Throw? {
        return Throw(index.fault);
      }
      return Value(RegisterCode(width.value, index.value));
    }

    method DecodeConstant() returns (r: Attempt<ConstantCode>)
      requires Valid()
      modifies registers
      ensures Completed(r, registers.Registers) == FetchConstant(old(registers.Registers), Flat())
    {
      hide PopByte, PopCode;
      var prefix := PopCode8();
      if prefix.Throw? {
        return Throw(prefix.fault);
      }
      var width := WidthOf(prefix.value);
      if width.None? {
        return Throw(IllegalInstruction);
      }
      var num := PopCodeAndIncIp(width.value);
      if num.Throw? {
        return Throw(num.fault);
      }
      Pow256Values();
      return Value(ConstantCode(num.value, width.value));
    }

    method DecodeEachParameter() returns (r: Attempt<ParameterValue>)
      requires Valid()
      modifies registers
      ensures Completed(r, registers.Registers) == FetchParameter(old(registers.Registers), Flat())
    {
      hide PopByte, FetchRegister, FetchConstant, SelectRegister, Load;
      var prefix := PopCode8();
      if prefix.Throw? {
        return Throw(prefix.fault);
      }
      if prefix.value == REGISTER_PREFIX {
        var code := DecodeRegister();
        if code.Throw? {
          return Throw(code.fault);
        }
        var selected := SelectRegister(code.value.width, code.value.index);
        if selected.None? {
          return Throw(IllegalInstruction);
        }
        return Value(ParameterValue(registers.LoadRegister(selected.value), WidthOf(code.value.width).value));
      } else if prefix.value == CONSTANT_PREFIX {
        var c := DecodeConstant();
        if c.Throw? {
          return Throw(c.fault);
        }
        return Value(ParameterValue(c.value.value, c.value.width));
      } else {
        return Throw(IllegalInstruction);
      }
    }

    method DecodeMemory() returns (r: Attempt<CpuOperand>)
      requires Valid()
      modifies registers
      ensures Completed(r, registers.Registers) == FetchMemory(old(registers.Registers), Flat())
    {
      hide PopByte, FetchParameter, SecondOffset, FinishMemory;
      var width := PopCode8();
      if width.Throw? {
        return Throw(width.fault);
      }
      var base := DecodeEachParameter();
      if base.Throw? {
        return Throw(base.fault);
      }
      var offset1 := DecodeEachParameter();
      if offset1.Throw? {
        return Throw(offset1.fault);
      }
      var offset2 := DecodeEachParameter();
      if offset2.Throw? {
        return Throw(offset2.fault);
      }
      var code := PopCode8();
      if code.Throw? {
        return Throw(code.fault);
      }
      r := CalculateAddress(width.value, base.value.value, offset1.value.value,
                            SecondOffset(offset2.value.value, offset2.value.width), code.value);
    }

    method CalculateAddress(width: byte, base: u64, offset1: u64, offset2: int, code: byte)
      returns (r: Attempt<CpuOperand>)
      ensures Completed(r, registers.Registers) ==
              FinishMemory(width, base, offset1, offset2, code, registers.Registers)
    {
      var ratio := RatioOf(code);
      if ratio.None? {
        return Throw(IllegalInstruction);
      }
      var address := MakeAddress(base, offset1, offset2, ratio.value);
      if width != 0x08 && width != 0x16 && width != 0x32 && width != 0x64 {
        return Throw(IllegalInstruction);
      }
      return Value(MemoryOperand(address, width));
    }

    method DecodeOperand() returns (r: Attempt<CpuOperand>)
      requires Valid()
      modifies registers
      ensures Completed(r, registers.Registers) == FetchOperand(old(registers.Registers), Flat())
    {
      hide PopByte, FetchRegister, FetchConstant, FetchMemory;
      var prefix := PopCode8();
      if prefix.Throw? {
        return Throw(prefix.fault);
      }
      if prefix.value == REGISTER_PREFIX {
        var code := DecodeRegister();
        return if code.Throw? then Throw(code.fault) else Value(RegisterOperand(code.value.width, code.value.index));
      } else if prefix.value == CONSTANT_PREFIX {
        var c := DecodeConstant();
        return if c.Throw? then Throw(c.fault) else Value(ConstantOperand(c.value.value, c.value.width.Prefix()));
      } else if prefix.value == MEMORY_PREFIX {
        r := DecodeMemory();
      } else {
        return Throw(IllegalInstruction);
      }
    }

    method DecodeOperands(count: nat) returns (r: Attempt<seq<CpuOperand>>)
      requires Valid()
      modifies registers
      ensures Completed(r, registers.Registers) == FetchOperands(old(registers.Registers), Flat(), count)
    {
      hide FetchOperand;
      var operands: seq<CpuOperand> := [];
      NothingBefore(FetchOperands(registers.Registers, Flat(), count));
      for i := 0 to count
        invariant Behind(operands, FetchOperands(registers.Registers, Flat(), count - i)) ==
                  FetchOperands(old(registers.Registers), Flat(), count)
      {
        ghost var before := registers.Registers;
        var operand := DecodeOperand();
        if operand.Throw? {
          return Throw(operand.fault);
        }
        BehindOneMore(operands, operand.value, FetchOperands(registers.Registers, Flat(), count - i - 1));
        operands := operands + [operand.value];
      }
      assert operands + [] == operands;
      return Value(operands);
    }

    /** Fetches one instruction; `table` is the instruction map in iteration order. */
    method PopInstruction(table: seq<Mnemonic>) returns (r: Attempt<CpuInstruction>)
      requires Valid() && forall m: Mnemonic :: m in table
      modifies registers
      ensures Completed(r, registers.Registers) == FetchInstruction(old(registers.Registers), Flat())
    {
      hide PopByte, FetchOperands, Opcode, MnemonicOf, RequiresWidth, ArgumentCount;
      var opcode := PopCode8();
      if opcode.Throw? {
        return Throw(opcode.fault);
      }
      var entry := FindEntry(table, opcode.value);
      if entry.None? {
        return Throw(IllegalInstruction);
      }
      var n, w := entry.value, None;
      if RequiresWidth(n) {
        var code := PopCode8();
        if code.Throw? {
          return Throw(code.fault);
        }
        w := WidthOf(code.value);
        if w.None? {
          return Throw(IllegalInstruction);
        }
      }
      var operands := DecodeOperands(ArgumentCount(n));
      return if operands.Throw? then Throw(operands.fault) else Value(CpuInstruction(n, w, operands.value));
    }

    // ---- stack ----

    /** Stores below the stack pointer, which moves when the store succeeds. */
    method PushStack(data: seq<byte>) returns (ok: bool)
      requires Valid() && 0 < |data| <= 256
      modifies registers, memory.blocks
      ensures ok <==> Push(old(Current()), data).Some?
      ensures Current() == if ok then Push(old(Current()), data).value else old(Current())
    {
      hide Load, Store, Refuses, Wrap64;
      var sp, sb := registers.LoadRegister(StackPointer), registers.LoadRegister(StackBase);
      if sp < |data| {
        return false;
      }
      var newLowerEnd := sp - |data|;
      ok := WriteBytes(Wrap64(newLowerEnd + sb), data);
      if ok {
        registers.StoreRegister(StackPointer, newLowerEnd);
      }
    }

    method PopStack(n: nat) returns (r: Option<seq<byte>>)
      requires Valid() && 0 < n <= 256
      modifies registers
      ensures var spec := Pop(old(Current()), n);
              && (r.Some? <==> spec.Some?)
              && (r.Some? ==> (r.value, Current()) == spec.value)
              && (r.None? ==> Current() == old(Current()))
    {
      hide Load, Store, Refuses, Wrap64;
      var sp, sb := registers.LoadRegister(StackPointer), registers.LoadRegister(StackBase);
      r := ReadBytes(Wrap64(sb + sp), n);
      if r.Some? {
        registers.StoreRegister(StackPointer, Wrap64(sp + n));
      }
    }

    // ---- operands and stack instructions ----

    method GetVal(o: CpuOperand) returns (r: StackOperations.Access<u64>)
      requires Valid()
      ensures r == StackOperations.GetVal(Current(), o)
    {
      hide Load, SelectRegister, Refuses;
      match o {
        case RegisterOperand(width, index) =>
          var selected := SelectRegister(width, index);
          if selected.None? {
            return StackOperations.Failed(IllegalInstruction);
          }
          return StackOperations.Done(registers.LoadRegister(selected.value));
        case ConstantOperand(value, _) =>
          return StackOperations.Done(value);
        case MemoryOperand(address, width) =>
          var w := WidthOf(width);
          if w.None? {
            return StackOperations.Failed(IllegalInstruction);
          }
          var bytes := ReadBytes(address, w.value.Size());
          if bytes.None? {
            return StackOperations.Failed(Fault.StackOverflow);
          }
          FromLeBound(bytes.value);
          Pow256Values();
          return StackOperations.Done(FromLe(bytes.value));
      }
    }

    method SetVal(o: CpuOperand, v: u64) returns (fault: Option<Fault>)
      requires Valid()
      modifies registers, memory.blocks
      ensures var spec := StackOperations.SetVal(old(Current()), o, v);
              && (spec.Failed? ==> fault == Some(spec.fault) && Current() == old(Current()))
              && (spec.Done? ==> fault == None && Current() == spec.value)
    {
      hide Load, Store, SelectRegister, Refuses;
      match o {
        case RegisterOperand(width, index) =>
          var selected := SelectRegister(width, index);
          if selected.None? {
            return Some(IllegalInstruction);
          }
          registers.StoreRegister(selected.value, v);
          return None;
        case ConstantOperand(_, _) =>
          return Some(IllegalInstruction);
        case MemoryOperand(address, width) =>
          var w := WidthOf(width);
          if w.None? {
            return Some(IllegalInstruction);
          }
          var ok := WriteBytes(address, Le(v, w.value.Size()));
          return if ok then None else Some(MemoryFault);
      }
    }

    method PushInstruction(w: Width, source: CpuOperand) returns (fault: Option<Fault>)
      requires Valid()
      modifies registers, memory.blocks
      ensures StackOperations.Result(Current(), fault) == StackOperations.ExecutePush(old(Current()), w, source)
    {
      hide Push;
      var v := GetVal(source);
      if v.Failed? {
        return Some(v.fault);
      }
      var ok := PushStack(Le(v.value, w.Size()));
      return if ok then None else Some(Fault.StackOverflow);
    }

    method PopInstructionInto(w: Width, target: CpuOperand) returns (fault: Option<Fault>)
      requires Valid()
      modifies registers, memory.blocks
      ensures StackOperations.Result(Current(), fault) == StackOperations.ExecutePop(old(Current()), w, target)
    {
      hide Pop;
      var data := PopStack(w.Size());
      if data.None? {
        return Some(Fault.StackOverflow);
      }
      FromLeBound(data.value);
      Pow256Values();
      fault := SetVal(target, FromLe(data.value));
    }

    method PushAll() returns (fault: Option<Fault>)
      requires Valid()
      modifies registers, memory.blocks
      ensures StackOperations.Result(Current(), fault) == StackOperations.ExecutePushAll(old(Current()))
    {
      hide Push, Load, StackOperations.SaveFrame;
      var ok := PushStack(StackOperations.SaveFrame(registers.Registers, |StackOperations.SAVED|));
      return if ok then None else Some(Fault.StackOverflow);
    }

    method PopAll() returns (fault: Option<Fault>)
      requires Valid()
      modifies registers, memory.blocks
      ensures StackOperations.Result(Current(), fault) == StackOperations.ExecutePopAll(old(Current()))
    {
      hide Pop, Store, StackOperations.RestoreFrame;
      var data := PopStack(8 * |StackOperations.SAVED|);
      if data.None? {
        return Some(Fault.StackOverflow);
      }
      registers.Registers := StackOperations.RestoreFrame(registers.Registers, data.value, |StackOperations.SAVED|);
      return None;
    }

    method CallInstruction(base: CpuOperand, ip: CpuOperand) returns (fault: Option<Fault>)
      requires Valid()
      modifies registers, memory.blocks
      ensures StackOperations.Result(Current(), fault) == StackOperations.ExecuteCall(old(Current()), base, ip)
    {
      hide Push, Load, Store, StackOperations.GetVal;
      var originalBase := registers.LoadRegister(CodeBase);
      var originalIp := registers.LoadRegister(InstructionPointer);
      var ok := PushStack(Le(originalBase, 8));
      if !ok {
        return Some(Fault.StackOverflow);
      }
      ok := PushStack(Le(originalIp, 8));
      if !ok {
        return Some(Fault.StackOverflow);
      }
      var newBase := GetVal(base);
      if newBase.Failed? {
        return Some(newBase.fault);
      }
      var newIp := GetVal(ip);
      if newIp.Failed? {
        return Some(newIp.fault);
      }
      DoJumpTable((newBase.value, newIp.value));
      return None;
    }

    method RetInstruction() returns (fault: Option<Fault>)
      requires Valid()
      modifies registers
      ensures StackOperations.Result(Current(), fault) == StackOperations.ExecuteRet(old(Current()))
    {
      hide Pop, Load, Store;
      var ip := PopStack(8);
      if ip.None? {
        return Some(Fault.StackOverflow);
      }
      var cb := PopStack(8);
      if cb.None? {
        return Some(Fault.StackOverflow);
      }
      FromLeBound(ip.value);
      FromLeBound(cb.value);
      Pow256Values();
      DoJumpTable((FromLe(cb.value), FromLe(ip.value)));
      return None;
    }

    // ---- arithmetic ----

    /** Truncates to the width and records in the flags whether anything was lost. */
    method CheckOverflow(w: Width, value: u64) returns (r: u64)
      requires Valid()
      modifies registers
      ensures (r, registers.Registers) == Arithmetic.CheckOverflow(old(registers.Registers), w, value)
    {
      hide Load, Store;
      Pow256Values();
      var complement :=
        match w
        case W8 => 0xFF
        case W16 => 0xFFFF
        case W32 => 0xFFFF_FFFF
        case W64 => 0xFFFF_FFFF_FFFF_FFFF;
      var fg := registers.LoadRegister(Flags);
      if value % (complement + 1) != value {
        registers.StoreRegister(Flags, Arithmetic.WithArithmeticFlags(fg, true));
      } else {
        registers.StoreRegister(Flags, Arithmetic.WithArithmeticFlags(fg, false));
      }
      return value % (complement + 1);
    }

    /** Checks a result and stores it in the target, the flags first. */
    method StoreResult(w: Width, target: CpuOperand, result: u64) returns (fault: Option<Fault>)
      requires Valid()
      modifies registers, memory.blocks
      ensures var (r, file) := Arithmetic.CheckOverflow(old(registers.Registers), w, result);
              var t := State(file, old(Flat()));
              match StackOperations.SetVal(t, target, r)
              case Failed(e) => fault == Some(e) && Current() == t
              case Done(u) => fault == None && Current() == u
    {
      hide Load, Store, StackOperations.SetVal, Arithmetic.CheckOverflow;
      var r := CheckOverflow(w, result);
      fault := SetVal(target, r);
    }

    method AddInstruction(w: Width, target: CpuOperand, source: CpuOperand) returns (fault: Option<Fault>)
      requires Valid()
      modifies registers, memory.blocks
      ensures StackOperations.Result(Current(), fault) ==
              Arithmetic.ExecuteAlu(old(Current()), w, Arithmetic.Add, target, source)
    {
      hide Load, StackOperations.GetVal, StackOperations.SetVal, Arithmetic.CheckOverflow;
      var x := GetVal(target);
      if x.Failed? { return Some(x.fault); }
      var y := GetVal(source);
      if y.Failed? { return Some(y.fault); }
      var a: int, b: int := x.value, y.value;
      fault := StoreResult(w, target, Wrap64(a + b));
    }

    method AdcInstruction(w: Width, target: CpuOperand, source: CpuOperand) returns (fault: Option<Fault>)
      requires Valid()
      modifies registers, memory.blocks
      ensures StackOperations.Result(Current(), fault) ==
              Arithmetic.ExecuteAlu(old(Current()), w, Arithmetic.Adc, target, source)
    {
      hide Load, StackOperations.GetVal, StackOperations.SetVal, Arithmetic.CheckOverflow;
      var x := GetVal(target);
      if x.Failed? { return Some(x.fault); }
      var y := GetVal(source);
      if y.Failed? { return Some(y.fault); }
      var a: int, b: int := x.value, y.value;
      var cf := if Arithmetic.Carry(registers.LoadRegister(Flags)) then 1 else 0;
      fault := StoreResult(w, target, Wrap64(a + b + cf));
    }

    method SubInstruction(w: Width, target: CpuOperand, source: CpuOperand) returns (fault: Option<Fault>)
      requires Valid()
      modifies registers, memory.blocks
      ensures StackOperations.Result(Current(), fault) ==
              Arithmetic.ExecuteAlu(old(Current()), w, Arithmetic.Sub, target, source)
    {
      hide Load, StackOperations.GetVal, StackOperations.SetVal, Arithmetic.CheckOverflow;
      var x := GetVal(target);
      if x.Failed? { return Some(x.fault); }
      var y := GetVal(source);
      if y.Failed? { return Some(y.fault); }
      var a: int, b: int := x.value, y.value;
      fault := StoreResult(w, target, Wrap64(a - b));
    }

    method SbbInstruction(w: Width, target: CpuOperand, source: CpuOperand) returns (fault: Option<Fault>)
      requires Valid()
      modifies registers, memory.blocks
      ensures StackOperations.Result(Current(), fault) ==
              Arithmetic.ExecuteAlu(old(Current()), w, Arithmetic.Sbb, target, source)
    {
      hide Load, StackOperations.GetVal, StackOperations.SetVal, Arithmetic.CheckOverflow;
      var x := GetVal(target);
      if x.Failed? { return Some(x.fault); }
      var y := GetVal(source);
      if y.Failed? { return Some(y.fault); }
      var a: int, b: int := x.value, y.value;
      var cf := if Arithmetic.Carry(registers.LoadRegister(Flags)) then 1 else 0;
      fault := StoreResult(w, target, Wrap64(a - b - cf));
    }

    /** The flags cleared for the comparison are overwritten with those captured before, so
        carry and overflow survive. */
    method CmpInstruction(first: CpuOperand, second: CpuOperand) returns (fault: Option<Fault>)
      requires Valid()
      modifies registers
      ensures StackOperations.Result(Current(), fault) == Arithmetic.ExecuteCmp(old(Current()), first, second)
    {
      hide Load, Store, StackOperations.GetVal, Arithmetic.WithOrder, Arithmetic.WithArithmeticFlags;
      var x := GetVal(first);
      if x.Failed? { return Some(x.fault); }
      var y := GetVal(second);
      if y.Failed? { return Some(y.fault); }
      var fg := registers.LoadRegister(Flags);
      ghost var before := registers.Registers;
      var ignored := CheckOverflow(W8, 0);
      ghost var cleared := Arithmetic.WithArithmeticFlags(fg, !(0 < Pow256(1)));
      if x.value > y.value {
        fg := Arithmetic.WithOrder(fg, Arithmetic.Larger);
      } else if x.value == y.value {
        fg := Arithmetic.WithOrder(fg, Arithmetic.Equal);
      } else {
        fg := Arithmetic.WithOrder(fg, Arithmetic.Less);
      }
      StoreTwice(before, Flags, cleared, fg);
      registers.StoreRegister(Flags, fg);
      return None;
    }

    // ---- rotations ----

    method RolInstruction(w: Width, target: CpuOperand, source: CpuOperand) returns (fault: Option<Fault>)
      requires Valid()
      modifies registers, memory.blocks
      ensures StackOperations.Result(Current(), fault)
           == RotateInstructions.ExecuteRotate(old(Current()), w, RotateInstructions.Rol, target, source)
    {
      hide Load, StackOperations.GetVal, StackOperations.SetVal, Pow256, Pow2, RotateInstructions.WithCarryFlag;
      hide FromLe, Rotation.RotateLeft, PagedMemory.Flat, Registers.Store, RotateInstructions.Rotated;
      var x := GetVal(target);
      if x.Failed? { return Some(x.fault); }
      var n := GetVal(source);
      if n.Failed? { return Some(n.fault); }
      RotateInstructions.PlainRotations(x.value, n.value, Arithmetic.Carry(Load(registers.Registers, Flags)), w);
      var value, bits := x.value % Pow256(w.Size()), RotateInstructions.BitCount(w);
      fault := SetVal(target, Rotation.RotateLeft(value, n.value, bits));
    }

    method RorInstruction(w: Width, target: CpuOperand, source: CpuOperand) returns (fault: Option<Fault>)
      requires Valid()
      modifies registers, memory.blocks
      ensures StackOperations.Result(Current(), fault)
           == RotateInstructions.ExecuteRotate(old(Current()), w, RotateInstructions.Ror, target, source)
    {
      hide Load, StackOperations.GetVal, StackOperations.SetVal, Pow256, Pow2, RotateInstructions.WithCarryFlag;
      hide FromLe, Rotation.RotateRight, PagedMemory.Flat, Registers.Store, RotateInstructions.Rotated;
      var x := GetVal(target);
      if x.Failed? { return Some(x.fault); }
      var n := GetVal(source);
      if n.Failed? { return Some(n.fault); }
      RotateInstructions.PlainRotations(x.value, n.value, Arithmetic.Carry(Load(registers.Registers, Flags)), w);
      var value, bits := x.value % Pow256(w.Size()), RotateInstructions.BitCount(w);
      fault := SetVal(target, Rotation.RotateRight(value, n.value, bits));
    }

    method RclInstruction(w: Width, target: CpuOperand, source: CpuOperand) returns (fault: Option<Fault>)
      requires Valid()
      modifies registers, memory.blocks
      ensures StackOperations.Result(Current(), fault)
           == RotateInstructions.ExecuteRotate(old(Current()), w, RotateInstructions.Rcl, target, source)
    {
      hide Load, StackOperations.GetVal, StackOperations.SetVal, Pow256, Pow2, RotateInstructions.WithCarryFlag;
      hide FromLe, Rotation.RunLeft, PagedMemory.Flat, Registers.Store;
      var x := GetVal(target);
      if x.Failed? { return Some(x.fault); }
      var n := GetVal(source);
      if n.Failed? { return Some(n.fault); }
      RotateInstructions.WidthBounds(w);
      var fg := registers.LoadRegister(Flags);
      var value, bits := x.value % Pow256(w.Size()), RotateInstructions.BitCount(w);
      var r := Rotation.Rcl(value, n.value % TWO32, Arithmetic.Carry(fg), bits);
      Rotation.RunLeftStaysInside(Rotation.WithCarry(value, Arithmetic.Carry(fg)), n.value % TWO32 % (bits + 1), bits);
      registers.StoreRegister(Flags, RotateInstructions.WithCarryFlag(fg, r.carry));
      fault := SetVal(target, r.value);
    }

    method RcrInstruction(w: Width, target: CpuOperand, source: CpuOperand) returns (fault: Option<Fault>)
      requires Valid()
      modifies registers, memory.blocks
      ensures StackOperations.Result(Current(), fault)
           == RotateInstructions.ExecuteRotate(old(Current()), w, RotateInstructions.Rcr, target, source)
    {
      hide Load, StackOperations.GetVal, StackOperations.SetVal, Pow256, Pow2, RotateInstructions.WithCarryFlag;
      hide FromLe, Rotation.RunRight, PagedMemory.Flat, Registers.Store;
      var x := GetVal(target);
      if x.Failed? { return Some(x.fault); }
      var n := GetVal(source);
      if n.Failed? { return Some(n.fault); }
      RotateInstructions.WidthBounds(w);
      var fg := registers.LoadRegister(Flags);
      var value, bits := x.value % Pow256(w.Size()), RotateInstructions.BitCount(w);
      var r := Rotation.Rcr(value, n.value % TWO32, Arithmetic.Carry(fg), bits);
      Rotation.RunRightStaysInside(Rotation.WithCarry(value, Arithmetic.Carry(fg)), n.value % TWO32 % (bits + 1), bits);
      registers.StoreRegister(Flags, RotateInstructions.WithCarryFlag(fg, r.carry));
      fault := SetVal(target, r.value);
    }

    // ---- interrupts ----

    method SetMaskBit()
      requires Valid()
      modifies registers
      ensures registers.Registers == MaskInterrupts(old(registers.Registers))
    {
      hide Load, Store, SetMask;
      var fg := registers.LoadRegister(Flags);
      registers.StoreRegister(Flags, SetMask(fg));
    }

    /** The vector table entry of a code, unless it lies beyond the table. */
    method DoInterruptionLookup(code: nat) returns (r: Option<(u64, u64)>)
      requires Valid() && code <= MAX_INTERRUPTION_ENTRY
      ensures r.Some? <==> code < MAX_INTERRUPTION_ENTRY
      ensures r.Some? ==> r.value == (Word(Flat(), VectorOffset(code)), Word(Flat(), VectorOffset(code) + 8))
    {
      var offset := INTERRUPTION_VECTOR + code * 16;
      if offset >= INTERRUPTION_VEC_ED {
        return None;
      }
      var entry := ReadBytes(offset, 16);
      var pointer := entry.value;
      SliceOfSlice(Flat(), offset, offset + 16, 0, 8);
      SliceOfSlice(Flat(), offset, offset + 16, 8, 8);
      FromLeBound(pointer[..8]);
      FromLeBound(pointer[8..]);
      Pow256Values();
      hide FromLe;
      return Some((FromLe(pointer[..8]), FromLe(pointer[8..])));
    }

    method DoJumpTable(location: (u64, u64))
      requires Valid()
      modifies registers
      ensures registers.Registers ==
              Store(Store(old(registers.Registers), CodeBase, location.0), InstructionPointer, location.1)
    {
      registers.StoreRegister(CodeBase, location.0);
      registers.StoreRegister(InstructionPointer, location.1);
    }

    method DoPreserveCpuState() returns (ok: bool)
      requires Valid()
      modifies registers, memory.blocks
      ensures ok <==> Push(old(Current()), old(registers.Registers)).Some?
      ensures Current() == if ok then Push(old(Current()), old(registers.Registers)).value else old(Current())
    {
      ok := PushStack(registers.Registers);
    }

    /** The two handlers that never use the stack. */
    method JumpWithoutFrame(code: nat)
      requires Valid() && code < MAX_INTERRUPTION_ENTRY
      modifies registers
      ensures Current() == EnterWithoutFrame(old(Current()), code)
    {
      hide MaskInterrupts, Store, Word;
      var location := DoInterruptionLookup(code);
      SetMaskBit();
      DoJumpTable(location.value);
    }

    method DoInterruptionDebug() returns (o: Outcome)
      requires Valid()
      modifies this, registers, memory.blocks
      ensures (o, Current()) == Interrupt(old(Current()), 0x03) && int3DebugInterrupt
    {
      hide MaskInterrupts, Store, Word, Push;
      int3DebugInterrupt := true;
      var location := DoInterruptionLookup(0x03);
      var preserved := DoPreserveCpuState();
      if !preserved {
        return Overflowed;
      }
      SetMaskBit();
      DoJumpTable(location.value);
      return Jumped;
    }

    /** The common dispatch. `fg` is the flag word the caller captured; masking updates it along
        with the register, and the caller looks at it again afterwards. */
    method DispatchWithFrame(code: nat, captured: u64) returns (o: Outcome, fg: u64)
      requires Valid() && code <= MAX_INTERRUPTION_ENTRY && captured == Load(registers.Registers, Flags)
      modifies registers, memory.blocks
      ensures fg == if o == OutOfRange then captured else SetMask(captured)
      ensures (o, Current()) == Dispatch(old(Current()), code)
    {
      hide Load, MaskInterrupts, Store, Word, Push, SetMask;
      fg := captured;
      var location := DoInterruptionLookup(code);
      if location.None? {
        return OutOfRange, fg;
      }
      ghost var before := Current();
      var preserved := DoPreserveCpuState();
      if !preserved {
        JumpWithoutFrame(0x07);
        fg := SetMask(fg);
        FlagsAreMasked(before, 0x07);
        registers.StoreRegister(Flags, fg);
        return Aborted, fg;
      }
      fg := SetMask(fg);
      PushKeepsRegister(before, before.file, Flags);
      MaskIsStore(registers.Registers);
      registers.StoreRegister(Flags, fg);
      DoJumpTable(location.value);
      return Jumped, fg;
    }

    /** Dispatches an interrupt. Codes up to 0x1F run into the maskable test after their own
        dispatch; the flag word masked by that dispatch is what keeps them from a second one. */
    method DoInterruption(code: nat) returns (o: Outcome)
      requires Valid()
      modifies this, registers, memory.blocks
      ensures (o, Current()) == Interrupt(old(Current()), code)
      ensures int3DebugInterrupt == (old(int3DebugInterrupt) || code == 0x03)
    {
      hide Load, EnterWithoutFrame, EnterWithFrame, SetMask, Masked;
      if code > MAX_INTERRUPTION_ENTRY {
        return BadInterruption;
      }
      var fg := registers.LoadRegister(Flags);
      if code <= 0x1F {
        if code == 0x00 || code == 0x07 {
          JumpWithoutFrame(code);
          return Jumped;
        } else if code == 0x03 {
          o := DoInterruptionDebug();
          return;
        } else if 0x10 <= code <= 0x19 {
          return Serviced;
        }
        o, fg := DispatchWithFrame(code, fg);
        if o != Jumped {
          return;
        }
        assert Masked(fg);
      }
      if !Masked(fg) {
        o, fg := DispatchWithFrame(code, fg);
      } else if code > 0x1F {
        o := Ignored;
      }
    }

    /** Return from interrupt: the frame overwrites every register. */
    method DoIret() returns (ok: bool)
      requires Valid()
      modifies registers
      ensures ok <==> ReturnFromInterrupt(old(Current())).Some?
      ensures Current() == if ok then ReturnFromInterrupt(old(Current())).value else old(Current())
    {
      hide Load, Store, Refuses, Wrap64;
      var sb: int, sp: int := registers.LoadRegister(StackBase), registers.LoadRegister(StackPointer);
      var frame := ReadBytes(Wrap64(sb + sp), REGISTER_FILE_SIZE);
      if frame.None? {
        return false;
      }
      registers.Registers := frame.value;
      return true;
    }

    /** The accesses the range check refuses, and those all of whose blocks exist. */
    predicate Decided(address: u64, size: u64) {
      Refuses(memory.total, address, size) || Backed(memory.total, address, size)
    }

    /** Copies through a buffer, so overlapping ranges copy as if apart. */
    method CopyBlock(source: u64, dest: u64, count: u64) returns (r: Access)
      requires Valid() && Decided(source, count) && Decided(dest, count)
      modifies memory.blocks
      ensures BlockMoved(old(Flat()), Flat(), source, dest, count, r)
    {
      hide Refuses, Backed, Splice;
      var buffer := new byte[count](_ => 0);
      ghost var blank := buffer[..];
      r := memory.ReadMemory(source, buffer, count);
      if r.IllegalMemoryAccess? {
        return;
      }
      DeliveredIsSlice(buffer[..], blank, Flat(), source, count);
      ghost var data := buffer[..];
      assert data == data[..count];
      r := memory.WriteMemory(dest, buffer, count);
      if r.Granted? {
        StoredIsSplice(Flat(), old(Flat()), data, dest, count);
      }
    }

    /** The string move: as many bytes as FER3 says, from EB:EP to DB:DP. */
    method Movs() returns (r: Access)
      requires Valid()
      requires var f := registers.Registers;
               && Decided(Wrap64(Load(f, ExtendedBase) + Load(f, ExtendedPointer)), Load(f, FER(3)))
               && Decided(Wrap64(Load(f, DataBase) + Load(f, DataPointer)), Load(f, FER(3)))
      modifies memory.blocks
      ensures var f := registers.Registers;
              BlockMoved(old(Flat()), Flat(), Wrap64(Load(f, ExtendedBase) + Load(f, ExtendedPointer)),
                         Wrap64(Load(f, DataBase) + Load(f, DataPointer)), Load(f, FER(3)), r)
    {
      hide Refuses, Backed, Load, BlockMoved, Decided, Wrap64, PagedMemory.Flat, Pow256;
      var dest := Wrap64(registers.LoadRegister(DataPointer) + registers.LoadRegister(DataBase));
      var source := Wrap64(registers.LoadRegister(ExtendedPointer) + registers.LoadRegister(ExtendedBase));
      r := CopyBlock(source, dest, registers.LoadRegister(FER(3)));
    }
  }

  /** A block move: the bytes of the source range as they were before, whether or not the ranges
      overlap; nothing when either range is refused. */
  ghost predicate BlockMoved(m: FlatMemory, n: FlatMemory, source: u64, dest: u64, count: u64, r: Access) {
    && (r.IllegalMemoryAccess? <==> Refuses(|m|, source, count) || Refuses(|m|, dest, count))
    && (r.IllegalMemoryAccess? ==> n == m)
    && (r.Granted? ==> source + count <= |m| && dest + count <= |m| && n == Splice(m, dest, m[source..source + count]))
  }

  ghost function Behind(before: seq<CpuOperand>, r: Fetch<seq<CpuOperand>>): Fetch<seq<CpuOperand>> {
    match r
    case Got(rest, file) => Got(before + rest, file)
    case Raised(e, file) => Raised(e, file)
  }

  lemma NothingBefore(r: Fetch<seq<CpuOperand>>)
    ensures Behind([], r) == r
  {
    if r.Got? {
      assert [] + r.value == r.value;
    }
  }

  lemma BehindOneMore(before: seq<CpuOperand>, o: CpuOperand, r: Fetch<seq<CpuOperand>>)
    ensures Behind(before, Behind([o], r)) == Behind(before + [o], r)
  {
    if r.Got? {
      assert before + ([o] + r.value) == before + [o] + r.value;
    }
  }
}
