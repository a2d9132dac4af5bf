/** The rotate instructions: operands in, flags and target out. */
module RotateInstructions {
  import opened Bytes
  import opened Operands
  import opened Registers
  import opened CpuDecoder
  import opened Machine
  import opened StackOperations
  import opened OperandAccess
  import opened Arithmetic
  import opened Rotation

  datatype Rotate = Rol | Ror | Rcl | Rcr

  function BitCount(w: Width): (n: nat)
    ensures IsWidth(n) && n == 8 * w.Size()
  {
    match w
    case W8 => 8
    case W16 => 16
    case W32 => 32
    case W64 => 64
  }

  lemma {:induction false} WidthBounds(w: Width)
    ensures Pow2(BitCount(w)) == Pow256(w.Size()) <= TWO64
  {
    Pow256Values();
    Rotation.Pow2Values();
    hide Pow2, Pow256;
  }

  /** The carry bit replaced, every other flag kept. */
  function WithCarryFlag(flags: u64, carry: bool): (r: u64)
    ensures Carry(r) == carry && r / 2 == flags / 2
  {
    flags - flags % 2 + if carry then 1 else 0
  }

  /** The rotation of a truncated value. The plain rotations leave the carry alone; those
      through the carry take their count in 32 bits. */
  function Rotated(kind: Rotate, value: u64, count: u64, carry: bool, w: Width): (r: WithCarry)
    ensures r.value < TWO64
  {
    WidthBounds(w);
    var (v, bits) := (value % Pow256(w.Size()), BitCount(w));
    match kind
    case Rol => RotateLeftBits(v, count, bits); WithCarry(RotateLeft(v, count, bits), carry)
    case Ror => RotateRightBits(v, count, bits); WithCarry(RotateRight(v, count, bits), carry)
    case Rcl =>
      var n := count % TWO32 % (bits + 1);
      RunLeftStaysInside(WithCarry(v, carry), n, bits);
      RunLeft(WithCarry(v, carry), n, bits)
    case Rcr =>
      var n := count % TWO32 % (bits + 1);
      RunRightStaysInside(WithCarry(v, carry), n, bits);
      RunRight(WithCarry(v, carry), n, bits)
  }

  /** The plain rotations of a truncated value stay in the width. */
  lemma PlainRotations(value: u64, count: u64, carry: bool, w: Width)
    ensures
      var (v, bits) := (value % Pow256(w.Size()), BitCount(w));
      && RotateLeft(v, count, bits) < TWO64 && RotateRight(v, count, bits) < TWO64
      && Rotated(Rol, value, count, carry, w) == WithCarry(RotateLeft(v, count, bits), carry)
      && Rotated(Ror, value, count, carry, w) == WithCarry(RotateRight(v, count, bits), carry)
  {
    hide RotateLeft, RotateRight, RunLeft, RunRight, Pow256, Pow2;
    WidthBounds(w);
    RotateLeftBits(value % Pow256(w.Size()), count, BitCount(w));
    RotateRightBits(value % Pow256(w.Size()), count, BitCount(w));
  }

  /** What a rotation of `bits` bits makes of a value and a carry: rol and ror turn the value alone,
      by the count round the width; rcl and rcr turn value and carry together, by the low 32 bits
      of the count round one place more. At 64 bits rcl does so only while no step loses bits. */
  ghost predicate Turns(kind: Rotate, before: WithCarry, count: u64, after: WithCarry, bits: nat)
    requires IsWidth(bits)
  {
    var (v, r) := (BitsOf(before.value, bits), BitsOf(after.value, bits));
    var n := count % TWO32 % (bits + 1);
    match kind
    case Rol => after.carry == before.carry && r == RotateUp(v, count % bits)
    case Ror => after.carry == before.carry && r == RotateUp(v, bits - count % bits)
    case Rcl =>
      if bits == 64 then r + [after.carry] == RotateUp(v + [before.carry], n) <==> Survives(before, n)
      else r + [after.carry] == RotateUp(v + [before.carry], n)
    case Rcr => r + [after.carry] == RotateUp(v + [before.carry], bits + 1 - n)
  }

  lemma {:induction false} RotatedTurns(kind: Rotate, value: u64, count: u64, carry: bool, w: Width)
    ensures var (v, r, bits) := (value % Pow256(w.Size()), Rotated(kind, value, count, carry, w), 8 * w.Size());
            && r.value < Pow256(w.Size())
            && Turns(kind, WithCarry(v, carry), count, r, bits)
  {
    hide Pow2, Pow256, RotateLeft, RotateRight, RunLeft, RunRight, BitsOf, RotateUp, Survives;
    WidthBounds(w);
    var (v, bits) := (value % Pow256(w.Size()), BitCount(w));
    var n := count % TWO32 % (bits + 1);
    match kind {
      case Rol => RotateLeftBits(v, count, bits);
      case Ror => RotateRightBits(v, count, bits);
      case Rcr => RunRightIsRotation(WithCarry(v, carry), n, bits);
      case Rcl =>
        RunLeftStaysInside(WithCarry(v, carry), n, bits);
        if bits == 64 {
          WideRunLeft(WithCarry(v, carry), n);
        } else {
          RunLeftIsRotation(WithCarry(v, carry), n, bits);
        }
    }
  }

  function ExecuteRotate(s: State, w: Width, kind: Rotate, target: CpuOperand, source: CpuOperand): Result {
    match GetVal(s, target)
    case Failed(e) => Result(s, Some(e))
    case Done(x) =>
      match GetVal(s, source)
      case Failed(e) => Result(s, Some(e))
      case Done(n) =>
        var flags := Load(s.file, Flags);
        var r := Rotated(kind, x, n, Carry(flags), w);
        var t := if kind.Rol? || kind.Ror? then s
          else State(Store(s.file, Flags, WithCarryFlag(flags, r.carry)), s.mem);
        match SetVal(t, target, r.value)
        case Failed(e) => Result(t, Some(e))
        case Done(u) => Result(u, None)
  }

  /** What a rotate instruction does to its target and to the carry; every other flag stays. */
  lemma {:induction false} RotateResult(s: State, w: Width, kind: Rotate, target: CpuOperand, source: CpuOperand)
    requires ExecuteRotate(s, w, kind, target, source).fault.None? && target.width == w.Prefix()
    ensures var t := ExecuteRotate(s, w, kind, target, source).state;
            var (flags, newFlags) := (Load(s.file, Flags), Load(t.file, Flags));
            && GetVal(s, target).Done? && GetVal(s, source).Done? && GetVal(t, target).Done?
            && Turns(kind, WithCarry(GetVal(s, target).value % Pow256(w.Size()), Carry(flags)), GetVal(s, source).value,
                     WithCarry(GetVal(t, target).value, Carry(newFlags)), 8 * w.Size())
            && newFlags / 2 == flags / 2
  {
    hide Load, Store, Rotated, GetVal, SetVal, Turns, WithCarryFlag, Carry, Pow256;
    var flags, x, n := Load(s.file, Flags), GetVal(s, target).value, GetVal(s, source).value;
    var r := Rotated(kind, x, n, Carry(flags), w);
    var marked := WithCarryFlag(flags, r.carry);
    var t := if kind.Rol? || kind.Ror? then s else State(Store(s.file, Flags, marked), s.mem);
    RotatedTurns(kind, x, n, Carry(flags), w);
    LoadStoredWide(s.file, Flags, marked);
    ReadBack(t, target, r.value);
    WidthCodes(target.width);
    Truncated(r.value, Pow256(w.Size()));
    if kind.Rol? || kind.Ror? {
      PlainKeepsCarry(kind, x, n, Carry(flags), w);
    }
  }

  lemma PlainKeepsCarry(kind: Rotate, value: u64, count: u64, carry: bool, w: Width)
    requires kind.Rol? || kind.Ror?
    ensures Rotated(kind, value, count, carry, w).carry == carry
  {
    hide RotateLeft, RotateRight;
    PlainRotations(value, count, carry, w);
  }

  // ---- rotating back ----

  function Opposite(kind: Rotate): Rotate {
    match kind
    case Rol => Ror
    case Ror => Rol
    case Rcl => Rcr
    case Rcr => Rcl
  }

  predicate ThroughCarry(kind: Rotate) {
    kind.Rcl? || kind.Rcr?
  }

  /** On a value of its own width a rotation stays in the width, and the opposite one undoes it,
      through the carry at 8, 16 and 32 bits. */
  lemma {:induction false} OppositeUndoes(kind: Rotate, value: u64, count: u64, carry: bool, w: Width)
    requires value < Pow256(w.Size()) && (ThroughCarry(kind) ==> w != W64)
    ensures var r := Rotated(kind, value, count, carry, w);
            && r.value < Pow256(w.Size())
            && Rotated(Opposite(kind), r.value, count, r.carry, w) == WithCarry(value, carry)
            && (!ThroughCarry(kind) ==> r.carry == carry)
  {
    hide Pow2, Pow256, RotateLeft, RotateRight, RunLeft, RunRight;
    var bits, p := BitCount(w), Pow256(w.Size());
    WidthBounds(w);
    Truncated(value, p);
    Truncated(Rotated(kind, value, count, carry, w).value, p);
    if ThroughCarry(kind) {
      var n := count % TWO32 % (bits + 1);
      CarryRotationsInverse(WithCarry(value, carry), n, bits);
      RunLeftStaysInside(WithCarry(value, carry), n, bits);
      RunRightStaysInside(WithCarry(value, carry), n, bits);
    } else {
      RotationsInverse(value, count, bits);
      RotateLeftBits(value, count, bits);
      RotateRightBits(value, count, bits);
    }
  }

  lemma Truncated(v: nat, p: nat)
    requires p >= 1
    ensures v < p ==> v % p == v
  {
    if v < p {
      DivModUnique(v, p, 0, v);
    }
  }

  lemma SelectedSize(w: Width, index: byte)
    requires SelectRegister(w.Prefix(), index).Some?
    ensures SelectRegister(w.Prefix(), index).value.Size() == w.Size()
            && SelectRegister(w.Prefix(), index).value != Flags
  {
  }

  lemma CarryFlagBack(flags: u64, carry: bool)
    ensures WithCarryFlag(WithCarryFlag(flags, carry), Carry(flags)) == flags
  {
  }

  lemma {:induction false} StoresUndone(f: RegisterFile, r: Registers.Register, v: u64, flags: u64)
    requires r.Exists() && Disjoint(Flags, r) && Disjoint(r, Flags)
    ensures Store(Store(Store(Store(f, Flags, flags), r, v), Flags, Load(f, Flags)), r, Load(f, r)) == f
    ensures Store(Store(f, r, v), r, Load(f, r)) == f
  {
    hide Load, Store;
    var g := Store(f, Flags, flags);
    StoresCommute(g, r, v, Flags, Load(f, Flags));
    StoreTwice(f, Flags, flags, Load(f, Flags));
    StoreLoaded(f, Flags);
    StoreTwice(f, r, v, Load(f, r));
    StoreLoaded(f, r);
  }

  /** A register rotated and rotated back by the same constant: the whole state is as before,
      flags included. */
  lemma {:induction false} RotationUndone(s: State, w: Width, kind: Rotate, index: byte, count: u64, countWidth: byte)
    requires SelectRegister(w.Prefix(), index).Some? && (ThroughCarry(kind) ==> w != W64)
    ensures var (target, source) := (RegisterOperand(w.Prefix(), index), ConstantOperand(count, countWidth));
            var first := ExecuteRotate(s, w, kind, target, source);
            first.fault.None? && ExecuteRotate(first.state, w, Opposite(kind), target, source) == Result(s, None)
  {
    hide Load, Store, Rotated, SelectRegister, WithCarryFlag, Carry, Pow256;
    var r := SelectRegister(w.Prefix(), index).value;
    var f, flags, x := s.file, Load(s.file, Flags), Load(s.file, r);
    SelectedSize(w, index);
    OtherRegister(r, Flags);
    var y := Rotated(kind, x, count, Carry(flags), w);
    OppositeUndoes(kind, x, count, Carry(flags), w);
    var newFlags := WithCarryFlag(flags, y.carry);
    StoresUndone(f, r, y.value, newFlags);
    CarryFlagBack(flags, y.carry);
    var g := if ThroughCarry(kind) then Store(f, Flags, newFlags) else f;
    LoadStoredWide(f, Flags, newFlags);
    LoadStored(g, r, y.value);
    Truncated(y.value, Pow256(w.Size()));
    LoadDisjoint(g, r, y.value, Flags);
  }
}
