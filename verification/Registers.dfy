/** The register file: one 256-byte struct whose general registers overlap. */
module Registers {
  import opened Bytes

  const REGISTER_FILE_SIZE: nat := 256

  type RegisterFile = s: seq<byte> | |s| == REGISTER_FILE_SIZE witness seq(REGISTER_FILE_SIZE, _ => 0)

  datatype Register =
    | R(i: nat)
    | EXR(i: nat)
    | HER(i: nat)
    | FER(i: nat)
    | Flags | StackBase | StackPointer | CodeBase | InstructionPointer
    | DataBase | DataPointer | ExtendedBase | ExtendedPointer | ProcedureSpace
    | SelectorStart | SelectorSize
  {
    /** The registers the struct declares: eight of each narrow width, sixteen wide ones. */
    predicate Exists() {
      match this
      case R(i) => i < 8
      case EXR(i) => i < 8
      case HER(i) => i < 8
      case FER(i) => i < 16
      case _ => true
    }

    function Size(): (k: nat)
      ensures k == 1 || k == 2 || k == 4 || k == 8
    {
      match this
      case R(_) => 1
      case EXR(_) => 2
      case HER(_) => 4
      case _ => 8
    }

    function Offset(): (at: nat)
      requires Exists()
      ensures at + Size() <= REGISTER_FILE_SIZE
    {
      match this
      case R(i) => ROffset(i)
      case EXR(i) => ExrOffset(i)
      case HER(i) => HerOffset(i)
      case _ => 8 * Slot()
    }

    /** The position of a 64-bit register among the struct's 64-bit words. */
    function Slot(): (k: nat)
      requires Exists() && Size() == 8
      ensures k < 32
    {
      match this
      case FER(i) => i
      case Flags => 16
      case StackBase => 17
      case StackPointer => 18
      case CodeBase => 19
      case InstructionPointer => 20
      case DataBase => 21
      case DataPointer => 22
      case ExtendedBase => 23
      case ExtendedPointer => 24
      case ProcedureSpace => 25
      case SelectorStart => 26
      case SelectorSize => 27
    }
  }

  function FerOffset(i: nat): nat {
    8 * i
  }

  // In the struct each narrow register is declared as one half of the next wider one.
  // The contracts say that this nesting packs them without gaps.

  function HerOffset(i: nat): (at: nat)
    ensures at == 4 * i
  {
    FerOffset(i / 2) + 4 * (i % 2)
  }

  function ExrOffset(i: nat): (at: nat)
    ensures at == 2 * i
  {
    HerOffset(i / 2) + 2 * (i % 2)
  }

  function ROffset(i: nat): (at: nat)
    ensures at == i
  {
    ExrOffset(i / 2) + i % 2
  }

  const BIOS_START: u64 := 0xC1800

  function Load(f: RegisterFile, r: Register): (v: u64)
    requires r.Exists()
    ensures v < Pow256(r.Size())
  {
    FromLeBound(f[r.Offset()..r.Offset() + r.Size()]);
    Pow256Values();
    Field(f, r.Offset(), r.Size())
  }

  /** Storing keeps the low bytes that fit the register. */
  function Store(f: RegisterFile, r: Register, v: u64): RegisterFile
    requires r.Exists()
  {
    WithField(f, r.Offset(), r.Size(), v)
  }

  ghost predicate Within(r: Register, q: Register)
    requires r.Exists() && q.Exists()
  {
    q.Offset() <= r.Offset() && r.Offset() + r.Size() <= q.Offset() + q.Size()
  }

  ghost predicate Disjoint(r: Register, q: Register)
    requires r.Exists() && q.Exists()
  {
    r.Offset() + r.Size() <= q.Offset() || q.Offset() + q.Size() <= r.Offset()
  }

  /** Two registers never straddle: one holds the other, or they share no byte. */
  lemma NestedOrDisjoint(r: Register, q: Register)
    requires r.Exists() && q.Exists()
    ensures Within(r, q) || Within(q, r) || Disjoint(r, q)
  {
    var s, k := Placement(r);
    var t, j := Placement(q);
    Blocks(s, k, t, j);
  }

  lemma Placement(r: Register) returns (s: nat, k: nat)
    requires r.Exists()
    ensures s == r.Size() && r.Offset() == s * k && s in {1, 2, 4, 8}
  {
    match r {
      case R(i) => s, k := 1, i;
      case EXR(i) => s, k := 2, i;
      case HER(i) => s, k := 4, i;
      case _ => s, k := 8, r.Slot();
    }
  }

  /** Blocks of power-of-two widths at multiples of their width are nested or disjoint. */
  lemma Blocks(s: nat, k: nat, t: nat, j: nat)
    requires s in {1, 2, 4, 8} && t in {1, 2, 4, 8}
    ensures var a, b := s * k, t * j;
            a + s <= b || b + t <= a || (b <= a && a + s <= b + t) || (a <= b && b + t <= a + s)
  {
    LinearBlocks(s, k, s * k, t, j, t * j);
  }

  predicate IsMultiple(s: nat, k: nat, a: nat) {
    (s == 1 && a == k) || (s == 2 && a == 2 * k) || (s == 4 && a == 4 * k) || (s == 8 && a == 8 * k)
  }

  lemma LinearBlocks(s: nat, k: nat, a: nat, t: nat, j: nat, b: nat)
    requires IsMultiple(s, k, a) && IsMultiple(t, j, b)
    ensures a + s <= b || b + t <= a || (b <= a && a + s <= b + t) || (a <= b && b + t <= a + s)
    decreases s > t
  {
    if s > t {
      LinearBlocks(t, j, b, s, k, a);
    } else if t == s {
      SmallBlocks(s, k, a, 1, j, b);
    } else if t == 2 * s {
      SmallBlocks(s, k, a, 2, 2 * j, b);
    } else if t == 4 * s {
      SmallBlocks(s, k, a, 4, 4 * j, b);
    } else {
      SmallBlocks(s, k, a, 8, 8 * j, b);
    }
  }

  /** One block of a width against `count` blocks of the same width from block `first` on. */
  lemma SmallBlocks(s: nat, k: nat, a: nat, count: nat, first: nat, b: nat)
    requires IsMultiple(s, k, a) && IsMultiple(s, first, b) && count in {1, 2, 4, 8}
    ensures var t := s * count; a + s <= b || b + t <= a || (b <= a && a + s <= b + t)
  {
    if s == 1 {
    } else if s == 2 {
    } else if s == 4 {
    } else {
    }
  }

  /** Where each register lies: the narrow ones packed from the start, the wide ones over them,
      then the others in the order of the struct. */
  lemma RegisterLayout(i: nat)
    requires i < 16
    ensures FER(i).Offset() == 8 * i && FER(i).Size() == 8
    ensures
      i < 8 ==>
        && R(i).Offset() == i && R(i).Size() == 1 && EXR(i).Offset() == 2 * i && EXR(i).Size() == 2
        && HER(i).Offset() == 4 * i && HER(i).Size() == 4
    ensures Flags.Offset() == 128 && StackBase.Offset() == 136 && StackPointer.Offset() == 144
    ensures CodeBase.Offset() == 152 && InstructionPointer.Offset() == 160 && DataBase.Offset() == 168
    ensures DataPointer.Offset() == 176 && ExtendedBase.Offset() == 184 && ExtendedPointer.Offset() == 192
    ensures ProcedureSpace.Offset() == 200 && SelectorStart.Offset() == 208 && SelectorSize.Offset() == 216
  {
  }

  lemma OtherSlot(r: Register, q: Register)
    requires r.Exists() && q.Exists() && r.Size() == q.Size() == 8 && r != q
    ensures r.Slot() != q.Slot()
  {
  }

  lemma WhereRegistersLie(r: Register)
    requires r.Exists()
    ensures if r.Size() == 8 then r.Offset() == 8 * r.Slot() else r.Offset() + r.Size() <= 64
  {
  }

  /** The registers behind the general ones share no byte with any other register. */
  lemma OtherRegister(r: Register, q: Register)
    requires r.Exists() && q.Exists() && q.Size() == 8 && q.Slot() >= 16 && r != q
    ensures Disjoint(q, r) && Disjoint(r, q)
  {
    hide Register.Offset, Register.Slot;
    WhereRegistersLie(r);
    WhereRegistersLie(q);
    if r.Size() == 8 {
      OtherSlot(r, q);
    }
  }

  lemma LoadDisjoint(f: RegisterFile, r: Register, v: u64, q: Register)
    requires r.Exists() && q.Exists() && Disjoint(r, q)
    ensures Load(Store(f, r, v), q) == Load(f, q)
  {
    FieldOfDisjoint(f, r.Offset(), r.Size(), v, q.Offset(), q.Size());
  }

  /** An enclosing register changes in the stored field only. */
  lemma LoadEnclosing(f: RegisterFile, r: Register, v: u64, q: Register)
    requires r.Exists() && q.Exists() && Within(r, q)
    ensures Load(Store(f, r, v), q) ==
            Load(f, q) + Pow256(r.Offset() - q.Offset()) * (v % Pow256(r.Size()) - Load(f, r))
  {
    hide Field, WithField, Pow256, Register.Offset, Register.Size;
    FieldOfEnclosing(f, r.Offset(), r.Size(), v, q.Offset(), q.Size());
  }

  /** A register inside the stored one reads its own bytes of the stored value. */
  lemma LoadInside(f: RegisterFile, r: Register, v: u64, q: Register)
    requires r.Exists() && q.Exists() && Within(q, r)
    ensures Load(Store(f, r, v), q) == v % Pow256(r.Size()) / Pow256(q.Offset() - r.Offset()) % Pow256(q.Size())
  {
    FieldOfInside(f, r.Offset(), r.Size(), v, q.Offset(), q.Size());
  }

  lemma {:induction false} LoadStored(f: RegisterFile, r: Register, v: u64)
    requires r.Exists()
    ensures Load(Store(f, r, v), r) == v % Pow256(r.Size())
  {
    FieldOfItself(f, r.Offset(), r.Size(), v);
  }

  lemma LoadStoredWide(f: RegisterFile, r: Register, v: u64)
    requires r.Exists() && r.Size() == 8
    ensures Load(Store(f, r, v), r) == v
  {
    hide Load, Store, Pow256;
    LoadStored(f, r, v);
    Pow256Values();
    DivModUnique(v, TWO64, 0, v);
  }

  lemma {:induction false} StoreLoaded(f: RegisterFile, r: Register)
    requires r.Exists()
    ensures Store(f, r, Load(f, r)) == f
  {
    FieldOfItself(f, r.Offset(), r.Size(), 0);
  }

  lemma StoreTwice(f: RegisterFile, r: Register, v: u64, w: u64)
    requires r.Exists()
    ensures Store(Store(f, r, v), r, w) == Store(f, r, w)
  {
  }

  lemma {:induction false} StoresCommute(f: RegisterFile, r: Register, v: u64, q: Register, w: u64)
    requires r.Exists() && q.Exists() && Disjoint(r, q)
    ensures Store(Store(f, r, v), q, w) == Store(Store(f, q, w), r, v)
  {
    var at, n, to, m := r.Offset(), r.Size(), q.Offset(), q.Size();
    if at + n <= to {
      SplicesCommute(f, at, Le(v, n), to, Le(w, m));
    } else {
      SplicesCommute(f, to, Le(w, m), at, Le(v, n));
    }
  }

  lemma ZeroRegister(f: RegisterFile, r: Register)
    requires r.Exists() && f == seq(REGISTER_FILE_SIZE, _ => 0)
    ensures Load(f, r) == 0
  {
    hide Register.Offset, Register.Size, Field;
    ZeroField(f, r.Offset(), r.Size());
  }

  lemma ZeroField(f: RegisterFile, at: nat, n: nat)
    requires at + n <= |f| && f == seq(REGISTER_FILE_SIZE, _ => 0)
    ensures Field(f, at, n) == 0
  {
    hide FromLe;
    ZerosAreZero(n);
    assert f[at..at + n] == seq(n, _ => 0);
  }

  lemma {:induction false} ZerosAreZero(n: nat)
    ensures FromLe(seq(n, _ => 0)) == 0
  {
    if n > 0 {
      ZerosAreZero(n - 1);
      assert seq<byte>(n, _ => 0)[1..] == seq(n - 1, _ => 0);
    }
  }

  class SysdarftRegister {
    var Registers: RegisterFile

    constructor ()
      ensures Registers == Store(seq(REGISTER_FILE_SIZE, _ => 0), InstructionPointer, BIOS_START)
      ensures Load(Registers, InstructionPointer) == 0xC1800
      ensures forall r: Register :: r.Exists() && r != InstructionPointer ==> Load(Registers, r) == 0
    {
      hide Load, Store;
      var zeros := seq(REGISTER_FILE_SIZE, _ => 0);
      Registers := Store(zeros, InstructionPointer, BIOS_START);
      LoadStoredWide(zeros, InstructionPointer, BIOS_START);
      forall r: Register | r.Exists() && r != InstructionPointer
        ensures Load(Store(zeros, InstructionPointer, BIOS_START), r) == 0
      {
        OtherRegister(r, InstructionPointer);
        LoadDisjoint(zeros, InstructionPointer, BIOS_START, r);
        ZeroRegister(zeros, r);
      }
    }

    function LoadRegister(r: Register): (v: u64)
      requires r.Exists()
      reads this
      ensures v == Load(Registers, r)
    {
      Load(Registers, r)
    }

    method StoreRegister(r: Register, v: u64)
      requires r.Exists()
      modifies this
      ensures Registers == Store(old(Registers), r, v)
      ensures LoadRegister(r) == v % Pow256(r.Size())
    {
      LoadStored(Registers, r, v);
      Registers := Store(Registers, r, v);
    }
  }
}
