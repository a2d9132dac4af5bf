/** Addition and subtraction with carry, and the multi-word numbers they compute. */
module Arithmetic {
  import opened Bytes
  import opened Operands
  import opened Registers
  import opened CpuDecoder
  import opened Machine
  import opened StackOperations

  // ---- flags ----

  predicate Carry(flags: u64) {
    flags % 2 == 1
  }

  /** Carry as given; overflow, larger, less and equal cleared; every other bit kept. */
  function WithArithmeticFlags(flags: u64, carry: bool): (r: u64)
    ensures Carry(r) == carry && Masked(r) == Masked(flags) && r / 32 == flags / 32
    ensures r % 32 == if carry then 1 else 0
  {
    flags - flags % 32 + if carry then 1 else 0
  }

  /** Bits 2, 3 and 4: larger, less, equal. */
  datatype Order = Larger | Less | Equal

  function OrderBits(o: Order): nat {
    match o
    case Larger => 4
    case Less => 8
    case Equal => 16
  }

  lemma CarryOfParts(high: nat, low: nat)
    ensures (32 * high + low) % 2 == low % 2 && (4 * high + low) % 2 == low % 2
  {
    DivModUnique(32 * high + low, 2, 16 * high + low / 2, low % 2);
    DivModUnique(4 * high + low, 2, 2 * high + low / 2, low % 2);
  }

  /** The three order bits replaced; carry, overflow and the bits above kept. */
  function WithOrder(flags: u64, o: Order): (r: u64)
    ensures r % 32 == OrderBits(o) + flags % 4 && r / 32 == flags / 32
    ensures Carry(r) == Carry(flags)
  {
    var low := OrderBits(o) + flags % 4;
    var r := 32 * (flags / 32) + low;
    DivModUnique(r, 32, flags / 32, low);
    CarryOfParts(flags / 32, low);
    CarryOfParts(flags / 4, flags % 4);
    r
  }

  predicate IsLarger(flags: u64) {
    flags / 4 % 2 == 1
  }

  predicate IsLess(flags: u64) {
    flags / 8 % 2 == 1
  }

  predicate IsEqual(flags: u64) {
    flags / 16 % 2 == 1
  }

  /** The bits of the flag word: carry 0, larger 2, less 3, equal 4, mask 5. */
  lemma FlagLayout(flags: u64)
    ensures Carry(flags) <==> flags % 2 == 1
    ensures IsLarger(flags) <==> flags / 4 % 2 == 1
    ensures IsLess(flags) <==> flags / 8 % 2 == 1
    ensures IsEqual(flags) <==> flags / 16 % 2 == 1
    ensures Masked(flags) <==> flags / 32 % 2 == 1
  {
  }

  /** Masking sets bit 5 and no other. */
  lemma MaskSetsOneBit(flags: u64)
    ensures var r := SetMask(flags); Masked(r) && r % 32 == flags % 32 && r / 64 == flags / 64
  {
    var high, low := flags / 64, flags % 64;
    if low < 32 {
      DivModUnique(flags, 32, 2 * high, low);
      DivModUnique(flags + 32, 32, 2 * high + 1, low);
      DivModUnique(flags + 32, 64, high, low + 32);
    } else {
      DivModUnique(flags, 32, 2 * high + 1, low - 32);
    }
  }

  lemma OrderIsRead(flags: u64, o: Order)
    ensures var r := WithOrder(flags, o); IsLarger(r) == o.Larger? && IsLess(r) == o.Less? && IsEqual(r) == o.Equal?
  {
    var low, high := OrderBits(o) + flags % 4, flags / 32;
    var r := 32 * high + low;
    BitsAbove(high, low);
    LowOrder(o, flags % 4);
  }

  lemma BitsAbove(high: nat, low: nat)
    requires low < 32
    ensures (32 * high + low) / 4 % 2 == low / 4 % 2
    ensures (32 * high + low) / 8 % 2 == low / 8 % 2
    ensures (32 * high + low) / 16 % 2 == low / 16 % 2
  {
    DivModUnique(32 * high + low, 4, 8 * high + low / 4, low % 4);
    DivModUnique(32 * high + low, 8, 4 * high + low / 8, low % 8);
    DivModUnique(32 * high + low, 16, 2 * high + low / 16, low % 16);
    DivModUnique(8 * high + low / 4, 2, 4 * high + low / 4 / 2, low / 4 % 2);
    DivModUnique(4 * high + low / 8, 2, 2 * high + low / 8 / 2, low / 8 % 2);
    DivModUnique(2 * high + low / 16, 2, high + low / 16 / 2, low / 16 % 2);
  }

  lemma LowOrder(o: Order, rest: nat)
    requires rest < 4
    ensures var low := OrderBits(o) + rest;
            (low / 4 % 2 == 1 <==> o.Larger?) && (low / 8 % 2 == 1 <==> o.Less?) && (low / 16 % 2 == 1 <==> o.Equal?)
  {
  }

  lemma LowFlagsKept(flags: u64, o: Order)
    ensures WithOrder(flags, o) % 4 == flags % 4
  {
    var high, low := flags / 32, flags % 4;
    DivModUnique(32 * high + OrderBits(o) + low, 4, 8 * high + OrderBits(o) / 4, low);
  }

  /** A comparison sets exactly the flag of the operands' order, and does not disturb the carry
      between the words of a longer number. */
  lemma {:induction false} CompareOrders(s: State, first: CpuOperand, second: CpuOperand)
    requires GetVal(s, first).Done? && GetVal(s, second).Done?
    ensures var (r, x, y) := (ExecuteCmp(s, first, second), GetVal(s, first).value, GetVal(s, second).value);
            var flags := Load(r.state.file, Flags);
            && r.fault.None? && r.state.mem == s.mem
            && (IsLarger(flags) <==> x > y) && (IsLess(flags) <==> x < y) && (IsEqual(flags) <==> x == y)
            && CarryOf(r.state) == CarryOf(s)
            && flags % 4 == Load(s.file, Flags) % 4 && flags / 32 == Load(s.file, Flags) / 32
            && forall q: Registers.Register :: q.Exists() && q != Flags ==> Load(r.state.file, q) == Load(s.file, q)
  {
    hide Load, Store, GetVal, WithOrder, IsLarger, IsLess, IsEqual;
    var x, y := GetVal(s, first).value, GetVal(s, second).value;
    var order := if x > y then Larger else if x == y then Equal else Less;
    var flags := WithOrder(Load(s.file, Flags), order);
    LoadStoredWide(s.file, Flags, flags);
    OrderIsRead(Load(s.file, Flags), order);
    LowFlagsKept(Load(s.file, Flags), order);
    forall q: Registers.Register | q.Exists() && q != Flags
      ensures Load(Store(s.file, Flags, flags), q) == Load(s.file, q)
    {
      OtherRegister(q, Flags);
      LoadDisjoint(s.file, Flags, flags, q);
    }
  }

  /** The truncated value; what does not fit sets the carry. */
  function CheckOverflow(f: RegisterFile, w: Width, value: u64): (u64, RegisterFile) {
    var fits := value < Pow256(w.Size());
    (value % Pow256(w.Size()), Store(f, Flags, WithArithmeticFlags(Load(f, Flags), !fits)))
  }

  // ---- instructions ----

  datatype AluOp = Add | Adc | Sub | Sbb

  predicate UsesCarry(op: AluOp) {
    op.Adc? || op.Sbb?
  }

  /** The result before truncation, formed in 64 bits. */
  function Combine(op: AluOp, x: u64, y: u64, carry: bool): u64 {
    var c := if UsesCarry(op) && carry then 1 else 0;
    if op.Add? || op.Adc? then Wrap64(x + y + c) else Wrap64(x - y - c)
  }

  function ExecuteAlu(s: State, w: Width, op: AluOp, target: CpuOperand, source: CpuOperand): Result {
    match GetVal(s, target)
    case Failed(e) => Result(s, Some(e))
    case Done(x) =>
      match GetVal(s, source)
      case Failed(e) => Result(s, Some(e))
      case Done(y) =>
        var (r, file) := CheckOverflow(s.file, w, Combine(op, x, y, Carry(Load(s.file, Flags))));
        var t := State(file, s.mem);
        match SetVal(t, target, r)
        case Failed(e) => Result(t, Some(e))
        case Done(u) => Result(u, None)
  }

  function ExecuteCmp(s: State, first: CpuOperand, second: CpuOperand): Result {
    match GetVal(s, first)
    case Failed(e) => Result(s, Some(e))
    case Done(x) =>
      match GetVal(s, second)
      case Failed(e) => Result(s, Some(e))
      case Done(y) =>
        var order := if x > y then Larger else if x == y then Equal else Less;
        Result(State(Store(s.file, Flags, WithOrder(Load(s.file, Flags), order)), s.mem), None)
  }

  // ---- one word of a longer number ----

  function CarryOf(s: State): (c: nat)
    ensures c <= 1
  {
    if Carry(Load(s.file, Flags)) then 1 else 0
  }

  function CarryIn(s: State, op: AluOp): nat {
    if UsesCarry(op) then CarryOf(s) else 0
  }

  /** What a word operation is for: sum or difference with the carry in, as one more digit. */
  predicate WordResult(op: AluOp, x: nat, y: nat, carryIn: nat, r: nat, carryOut: nat, p: nat) {
    if op.Add? || op.Adc? then r + p * carryOut == x + y + carryIn
    else r + y + carryIn == x + p * carryOut
  }

  lemma CombineNarrow(op: AluOp, x: u64, y: u64, carry: bool, w: Width)
    requires w != W64 && x < Pow256(w.Size()) && y < Pow256(w.Size())
    ensures var (v, p, c) := (Combine(op, x, y, carry), Pow256(w.Size()), if UsesCarry(op) && carry then 1 else 0);
            WordResult(op, x, y, c, v % p, if v < p then 0 else 1, p)
  {
    Pow256Values();
    var v, p, c := Combine(op, x, y, carry), Pow256(w.Size()), if UsesCarry(op) && carry then 1 else 0;
    NarrowCases(op, x, y, c, v, p);
  }

  lemma NarrowCases(op: AluOp, x: nat, y: nat, c: nat, v: nat, p: nat)
    requires p in {0x100, 0x1_0000, 0x1_0000_0000} && x < p && y < p && c <= 1
    requires v == if op.Add? || op.Adc? then (x + y + c) % TWO64 else (x - y - c) % TWO64
    ensures WordResult(op, x, y, c, v % p, if v < p then 0 else 1, p)
  {
    if op.Add? || op.Adc? {
      SmallTotal(x + y + c);
      DivModUnique(v, p, if v >= p then 1 else 0, if v >= p then v - p else v);
    } else if x >= y + c {
      SmallTotal(x - y - c);
      DivModUnique(v, p, 0, v);
    } else {
      BelowZero(y + c - x);
      WholePages(v, p, p + x - y - c);
    }
  }

  lemma SmallTotal(v: int)
    requires 0 <= v < TWO64
    ensures v % TWO64 == v
  {
  }

  lemma BelowZero(v: int)
    requires 0 < v < TWO64
    ensures (0 - v) % TWO64 == TWO64 - v
  {
  }

  lemma WholePages(v: nat, p: nat, r: nat)
    requires p in {0x100, 0x1_0000, 0x1_0000_0000} && r < p && v == TWO64 - p + r
    ensures v % p == r
  {
    var d: nat := TWO64 / p;
    assert d * p == TWO64;
    DivModUnique(v, p, d - 1, r);
  }

  function MemoryWord(at: u64, w: Width): CpuOperand {
    MemoryOperand(at, w.Prefix())
  }

  function ReadWord(s: State, at: u64, w: Width): (v: u64)
    requires at + w.Size() <= |s.mem|
    ensures v < Pow256(w.Size())
  {
    FromLeBound(s.mem[at..at + w.Size()]);
    Pow256Values();
    FromLe(s.mem[at..at + w.Size()])
  }

  lemma MemoryWordAccess(s: State, at: u64, w: Width, v: u64)
    requires at + w.Size() <= |s.mem|
    ensures GetVal(s, MemoryWord(at, w)) == Done(ReadWord(s, at, w))
    ensures SetVal(s, MemoryWord(at, w), v) == Done(State(s.file, Splice(s.mem, at, Le(v, w.Size()))))
  {
    hide FromLe, Le, Pow256;
    SmallAccess(|s.mem|, at, w.Size());
  }

  /** An operation on two memory words changes the flags and the first word. */
  lemma {:induction false} MemoryStep(s: State, w: Width, op: AluOp, p: u64, q: u64)
    requires p + w.Size() <= |s.mem| && q + w.Size() <= |s.mem|
    ensures var (r, n) := (ExecuteAlu(s, w, op, MemoryWord(p, w), MemoryWord(q, w)), w.Size());
            var v := Combine(op, ReadWord(s, p, w), ReadWord(s, q, w), Carry(Load(s.file, Flags)));
            && r.fault.None? && r.state.mem == Splice(s.mem, p, Le(v % Pow256(n), n))
            && CarryOf(r.state) == (if v < Pow256(n) then 0 else 1)
  {
    hide Load, Store, Le, Pow256, WithArithmeticFlags, Combine, GetVal, SetVal, ReadWord, MemoryWord, Splice;
    var v := Combine(op, ReadWord(s, p, w), ReadWord(s, q, w), Carry(Load(s.file, Flags)));
    MemoryWordAccess(s, p, w, 0);
    MemoryWordAccess(s, q, w, 0);
    var (r, file) := CheckOverflow(s.file, w, v);
    MemoryWordAccess(State(file, s.mem), p, w, r);
    LoadStoredWide(s.file, Flags, WithArithmeticFlags(Load(s.file, Flags), !(v < Pow256(w.Size()))));
  }

  // ---- numbers of many words ----

  /** The operation the words behind the first one take. */
  function Later(op: AluOp): AluOp {
    if op.Add? || op.Adc? then Adc else Sbb
  }

  lemma OneFewer(k: nat, n: nat)
    requires k > 0
    ensures k * n == n + (k - 1) * n
  {
  }

  lemma StepFits(s: State, w: Width, op: AluOp, p: u64, q: u64, k: nat)
    requires k > 0 && p + k * w.Size() <= |s.mem| && q + k * w.Size() <= |s.mem|
    ensures var (r, n) := (ExecuteAlu(s, w, op, MemoryWord(p, w), MemoryWord(q, w)), w.Size());
            && r.fault.None? && |r.state.mem| == |s.mem| && p + n <= |s.mem| && q + n <= |s.mem|
            && p + n + (k - 1) * n <= |s.mem| && q + n + (k - 1) * n <= |s.mem|
  {
    hide ExecuteAlu, MemoryWord, Splice, Load, Combine, ReadWord;
    OneFewer(k, w.Size());
    MemoryStep(s, w, op, p, q);
  }

  /** The operation on words `k` long, lowest first: the first word with `op`, the others with
      the carry. */
  function RunWords(s: State, w: Width, op: AluOp, p: u64, q: u64, k: nat): Option<State>
    requires p + k * w.Size() <= |s.mem| && q + k * w.Size() <= |s.mem|
    decreases k
  {
    hide ExecuteAlu, MemoryWord;
    if k == 0 then Some(s)
    else
      StepFits(s, w, op, p, q, k);
      var r := ExecuteAlu(s, w, op, MemoryWord(p, w), MemoryWord(q, w));
      if r.fault.Some? then None
      else RunWords(r.state, w, Later(op), p + w.Size(), q + w.Size(), k - 1)
  }

  /** The number stored in `m` bytes at `at`. */
  function Number(mem: seq<byte>, at: nat, m: nat): nat
    requires at + m <= |mem|
  {
    FromLe(mem[at..at + m])
  }

  /** Two ranges that are the same or share no byte. */
  predicate SameOrApart(p: nat, q: nat, m: nat) {
    p == q || p + m <= q || q + m <= p
  }

  ghost predicate OnlyChanged(m: seq<byte>, n: seq<byte>, at: nat, count: nat) {
    |m| == |n| && forall k :: 0 <= k < |m| && !(at <= k < at + count) ==> m[k] == n[k]
  }

  lemma {:induction false} NumberSplit(mem: seq<byte>, at: nat, n: nat, m: nat)
    requires at + n + m <= |mem|
    ensures Number(mem, at, n + m) == Number(mem, at, n) + Pow256(n) * Number(mem, at + n, m)
  {
    assert mem[at..at + n + m] == mem[at..at + n] + mem[at + n..at + n + m];
    FromLeAppend(mem[at..at + n], mem[at + n..at + n + m]);
  }

  lemma NumberUnchanged(m: seq<byte>, n: seq<byte>, at: nat, count: nat, from: nat, size: nat)
    requires OnlyChanged(m, n, at, count) && from + size <= |m|
    requires from + size <= at || at + count <= from
    ensures Number(n, from, size) == Number(m, from, size)
  {
    assert m[from..from + size] == n[from..from + size];
  }

  lemma {:induction false} NumberStored(mem: seq<byte>, at: nat, v: nat, n: nat)
    requires at + n <= |mem| && v < Pow256(n)
    ensures Number(Splice(mem, at, Le(v, n)), at, n) == v
    ensures OnlyChanged(mem, Splice(mem, at, Le(v, n)), at, n)
  {
    FieldOfItself(mem, at, n, v);
    DivModUnique(v, Pow256(n), 0, v);
  }

  /** How the words of a step combine with those of the rest. */
  lemma {:induction false} WordsTogether(op: AluOp, p: nat, m: nat, x: nat, y: nat, c: nat, r: nat, d: nat, xs: nat,
                                         ys: nat, rs: nat, e: nat)
    requires WordResult(op, x, y, c, r, d, p)
    requires WordResult(Later(op), xs, ys, d, rs, e, m)
    ensures WordResult(op, x + p * xs, y + p * ys, c, r + p * rs, e, p * m)
  {
    assert p * (rs + m * e) == p * rs + (p * m) * e by { MulAssoc(p, m, e); }
    assert p * (xs + m * e) == p * xs + (p * m) * e by { MulAssoc(p, m, e); }
    if op.Add? || op.Adc? {
      assert p * (rs + m * e) == p * (xs + ys + d);
      assert p * (xs + ys + d) == p * xs + p * ys + p * d;
    } else {
      assert p * (rs + ys + d) == p * (xs + m * e);
      assert p * (rs + ys + d) == p * rs + p * ys + p * d;
    }
  }

  /** Addition followed by additions with carry adds numbers of any length at the narrow
      widths, subtraction followed by subtractions with borrow subtracts them; the final carry
      is the missing digit, and nothing but the target words changes. */
  lemma {:induction false} WordsCombined(s: State, w: Width, op: AluOp, p: u64, q: u64, k: nat)
    requires w != W64 && p + k * w.Size() <= |s.mem| && q + k * w.Size() <= |s.mem|
    requires k > 0 && SameOrApart(p, q, k * w.Size())
    ensures RunWords(s, w, op, p, q, k).Some?
    ensures var (t, m) := (RunWords(s, w, op, p, q, k).value, k * w.Size());
            && OnlyChanged(s.mem, t.mem, p, m)
            && WordResult(op, Number(s.mem, p, m), Number(s.mem, q, m), CarryIn(s, op), Number(t.mem, p, m),
               CarryOf(t), Pow256(m))
    decreases k
  {
    hide Load, Store, Combine, GetVal, SetVal, Le, FromLe, Pow256, ExecuteAlu, Carry, WordResult, Number;
    hide OnlyChanged, SameOrApart;
    hide ReadWord, CarryIn, CarryOf;
    var n, rest := w.Size(), (k - 1) * w.Size();
    OneFewer(k, n);
    StepFits(s, w, op, p, q, k);
    FirstWord(s, w, op, p, q);
    var t1 := ExecuteAlu(s, w, op, MemoryWord(p, w), MemoryWord(q, w)).state;
    assert RunWords(s, w, op, p, q, k) == RunWords(t1, w, Later(op), p + n, q + n, k - 1);
    if k == 1 {
      assert RunWords(t1, w, Later(op), p + n, q + n, 0) == Some(t1);
    } else {
      RestApart(p, q, n, rest);
      WordsCombined(t1, w, Later(op), p + n, q + n, k - 1);
      var t := RunWords(t1, w, Later(op), p + n, q + n, k - 1).value;
      LaterTakesCarry(t1, op);
      BothParts(op, s, t1, t, p, q, n, rest);
    }
  }

  lemma LaterTakesCarry(s: State, op: AluOp)
    ensures CarryIn(s, Later(op)) == CarryOf(s)
  {
  }

  lemma BothParts(op: AluOp, s: State, t1: State, t: State, p: nat, q: nat, n: nat, rest: nat)
    requires OnlyChanged(s.mem, t1.mem, p, n) && OnlyChanged(t1.mem, t.mem, p + n, rest)
    requires p + n + rest <= |s.mem| && q + n + rest <= |s.mem| && SameOrApart(p, q, n + rest)
    requires WordResult(op, Number(s.mem, p, n), Number(s.mem, q, n), CarryIn(s, op), Number(t1.mem, p, n),
             CarryOf(t1), Pow256(n))
    requires WordResult(Later(op), Number(t1.mem, p + n, rest), Number(t1.mem, q + n, rest), CarryOf(t1),
                        Number(t.mem, p + n, rest), CarryOf(t), Pow256(rest))
    ensures OnlyChanged(s.mem, t.mem, p, n + rest)
    ensures WordResult(op, Number(s.mem, p, n + rest), Number(s.mem, q, n + rest), CarryIn(s, op),
                       Number(t.mem, p, n + rest), CarryOf(t), Pow256(n + rest))
  {
    hide Number, Pow256, WordResult, SameOrApart, CarryIn, CarryOf;
    RestOfNumbers(s.mem, t1.mem, t.mem, p, q, n, rest);
    WordsTogether(op, Pow256(n), Pow256(rest), Number(s.mem, p, n), Number(s.mem, q, n), CarryIn(s, op),
                  Number(t1.mem, p, n), CarryOf(t1), Number(t1.mem, p + n, rest), Number(t1.mem, q + n, rest),
                  Number(t.mem, p + n, rest), CarryOf(t));
    Pow256Add(n, rest);
  }

  lemma {:induction false} FirstWord(s: State, w: Width, op: AluOp, p: u64, q: u64)
    requires w != W64 && p + w.Size() <= |s.mem| && q + w.Size() <= |s.mem|
    ensures var (t, n) := (ExecuteAlu(s, w, op, MemoryWord(p, w), MemoryWord(q, w)).state, w.Size());
            && OnlyChanged(s.mem, t.mem, p, n)
            && WordResult(op, Number(s.mem, p, n), Number(s.mem, q, n), CarryIn(s, op), Number(t.mem, p, n),
               CarryOf(t), Pow256(n))
  {
    hide Load, Store, Combine, GetVal, SetVal, Le, FromLe, Pow256, ExecuteAlu, WordResult, OnlyChanged;
    var n := w.Size();
    MemoryStep(s, w, op, p, q);
    var x, y := ReadWord(s, p, w), ReadWord(s, q, w);
    var v := Combine(op, x, y, Carry(Load(s.file, Flags)));
    CombineNarrow(op, x, y, Carry(Load(s.file, Flags)), w);
    NumberStored(s.mem, p, v % Pow256(n), n);
  }

  lemma RestApart(p: nat, q: nat, n: nat, rest: nat)
    requires SameOrApart(p, q, n + rest)
    ensures SameOrApart(p + n, q + n, rest)
  {
  }

  /** Numbers before and after, split behind the first word. */
  lemma {:induction false} RestOfNumbers(m0: seq<byte>, m1: seq<byte>, m2: seq<byte>, p: nat, q: nat, n: nat, rest: nat)
    requires OnlyChanged(m0, m1, p, n) && OnlyChanged(m1, m2, p + n, rest)
    requires p + n + rest <= |m0| && q + n + rest <= |m0| && SameOrApart(p, q, n + rest)
    ensures OnlyChanged(m0, m2, p, n + rest)
    ensures Number(m0, p, n + rest) == Number(m0, p, n) + Pow256(n) * Number(m1, p + n, rest)
    ensures Number(m0, q, n + rest) == Number(m0, q, n) + Pow256(n) * Number(m1, q + n, rest)
    ensures Number(m2, p, n + rest) == Number(m1, p, n) + Pow256(n) * Number(m2, p + n, rest)
    ensures Number(m1, p + n, rest) == Number(m0, p + n, rest) && Number(m1, q + n, rest) == Number(m0, q + n, rest)
  {
    hide Number;
    NumberSplit(m0, p, n, rest);
    NumberSplit(m0, q, n, rest);
    NumberSplit(m2, p, n, rest);
    NumberUnchanged(m0, m1, p, n, p + n, rest);
    NumberUnchanged(m0, m1, p, n, q + n, rest);
    NumberUnchanged(m1, m2, p + n, rest, p, n);
  }

  /** Subtracting what was added gives the memory back, and the borrow is the carry. */
  lemma {:induction false} SubtractionUndoesAddition(s: State, w: Width, p: u64, q: u64, k: nat)
    requires w != W64 && p + k * w.Size() <= |s.mem| && q + k * w.Size() <= |s.mem|
    requires k > 0 && (p + k * w.Size() <= q || q + k * w.Size() <= p)
    ensures RunWords(s, w, Add, p, q, k).Some?
    ensures var t := RunWords(s, w, Add, p, q, k).value;
            && |t.mem| == |s.mem| && RunWords(t, w, Sub, p, q, k).Some?
            && RunWords(t, w, Sub, p, q, k).value.mem == s.mem
            && CarryOf(RunWords(t, w, Sub, p, q, k).value) == CarryOf(t)
  {
    hide RunWords, Number, Pow256, CarryOf, WordResult, OnlyChanged;
    WordsCombined(s, w, Add, p, q, k);
    var t := RunWords(s, w, Add, p, q, k).value;
    SameSize(s.mem, t.mem, p, k * w.Size());
    WordsCombined(t, w, Sub, p, q, k);
    var u := RunWords(t, w, Sub, p, q, k).value;
    Undone(s.mem, t.mem, u.mem, p, q, k * w.Size(), CarryOf(t), CarryOf(u));
  }

  lemma SameSize(m: seq<byte>, n: seq<byte>, at: nat, count: nat)
    requires OnlyChanged(m, n, at, count)
    ensures |m| == |n|
  {
  }

  lemma Undone(m0: seq<byte>, m1: seq<byte>, m2: seq<byte>, p: nat, q: nat, m: nat, c: nat, d: nat)
    requires p + m <= |m0| && q + m <= |m0| && (p + m <= q || q + m <= p) && c <= 1 && d <= 1
    requires OnlyChanged(m0, m1, p, m) && OnlyChanged(m1, m2, p, m)
    requires WordResult(Add, Number(m0, p, m), Number(m0, q, m), 0, Number(m1, p, m), c, Pow256(m))
    requires WordResult(Sub, Number(m1, p, m), Number(m1, q, m), 0, Number(m2, p, m), d, Pow256(m))
    ensures m2 == m0 && c == d
  {
    hide Number, Pow256;
    NumberUnchanged(m0, m1, p, m, q, m);
    NumberBound(m0, p, m);
    NumberBound(m2, p, m);
    CarriesCancel(Pow256(m), Number(m0, p, m), Number(m2, p, m), c, d);
    SameNumberSameBytes(m0, m2, p, m);
  }

  lemma NumberBound(mem: seq<byte>, at: nat, m: nat)
    requires at + m <= |mem|
    ensures Number(mem, at, m) < Pow256(m)
  {
    FromLeBound(mem[at..at + m]);
  }

  lemma {:induction false} CarriesCancel(p: nat, x: nat, y: nat, c: nat, d: nat)
    requires x < p && y < p && c <= 1 && d <= 1 && y + p * c == x + p * d
    ensures c == d && x == y
  {
    OneDigit(p, c);
    OneDigit(p, d);
  }

  lemma OneDigit(p: nat, c: nat)
    requires c <= 1
    ensures p * c == if c == 1 then p else 0
  {
  }

  lemma SameNumberSameBytes(m: seq<byte>, n: seq<byte>, at: nat, count: nat)
    requires OnlyChanged(m, n, at, count) && at + count <= |m| && Number(m, at, count) == Number(n, at, count)
    ensures m == n
  {
    LeOfFromLe(m[at..at + count]);
    LeOfFromLe(n[at..at + count]);
    assert m[at..at + count] == n[at..at + count];
    forall k | 0 <= k < |m|
      ensures m[k] == n[k]
    {
      if at <= k < at + count {
        assert m[k] == m[at..at + count][k - at];
      }
    }
  }

  /** Of the registers only the flags change, at any width. */
  lemma {:induction false} WordsKeepRegisters(s: State, w: Width, op: AluOp, p: u64, q: u64, k: nat,
                                              r: Registers.Register)
    requires p + k * w.Size() <= |s.mem| && q + k * w.Size() <= |s.mem|
    requires r.Exists() && r != Flags
    ensures RunWords(s, w, op, p, q, k).Some? && Load(RunWords(s, w, op, p, q, k).value.file, r) == Load(s.file, r)
    decreases k
  {
    hide Load, Store, ExecuteAlu, MemoryWord;
    if k > 0 {
      StepFits(s, w, op, p, q, k);
      AluKeepsRegister(s, w, op, p, q, r);
      var t := ExecuteAlu(s, w, op, MemoryWord(p, w), MemoryWord(q, w)).state;
      WordsKeepRegisters(t, w, Later(op), p + w.Size(), q + w.Size(), k - 1, r);
    }
  }

  lemma {:induction false} AluKeepsRegister(s: State, w: Width, op: AluOp, p: u64, q: u64, r: Registers.Register)
    requires p + w.Size() <= |s.mem| && q + w.Size() <= |s.mem| && r.Exists() && r != Flags
    ensures Load(ExecuteAlu(s, w, op, MemoryWord(p, w), MemoryWord(q, w)).state.file, r) == Load(s.file, r)
  {
    hide Load, Store, Le, Pow256, WithArithmeticFlags, Combine, GetVal, SetVal, ReadWord, MemoryWord, Splice;
    var v := Combine(op, ReadWord(s, p, w), ReadWord(s, q, w), Carry(Load(s.file, Flags)));
    MemoryWordAccess(s, p, w, 0);
    MemoryWordAccess(s, q, w, 0);
    var (result, file) := CheckOverflow(s.file, w, v);
    MemoryWordAccess(State(file, s.mem), p, w, result);
    OtherRegister(r, Flags);
    LoadDisjoint(s.file, Flags, WithArithmeticFlags(Load(s.file, Flags), !(v < Pow256(w.Size()))), r);
  }

  // ---- the widest words ----

  /** At 64 bits the carry is never set, whatever the operands. */
  lemma {:induction false} NoCarryAt64(s: State, op: AluOp, p: u64, q: u64)
    requires p + 8 <= |s.mem| && q + 8 <= |s.mem|
    ensures CarryOf(ExecuteAlu(s, W64, op, MemoryWord(p, W64), MemoryWord(q, W64)).state) == 0
  {
    hide ExecuteAlu, MemoryWord, Load, Combine, ReadWord;
    MemoryStep(s, W64, op, p, q);
    Pow256Values();
  }

  /** The largest word plus one is zero, and nothing is carried. */
  lemma {:induction false} WideCarryLost(s: State, p: u64, q: u64)
    requires p + 8 <= |s.mem| && q + 8 <= |s.mem|
    requires ReadWord(s, p, W64) == TWO64 - 1 && ReadWord(s, q, W64) == 1
    ensures
      var t := ExecuteAlu(s, W64, Add, MemoryWord(p, W64), MemoryWord(q, W64)).state;
      |t.mem| == |s.mem| && Number(t.mem, p, 8) == 0 && CarryOf(t) == 0
  {
    hide ExecuteAlu, MemoryWord, Load, Le, ReadWord, Number, Carry, Pow256;
    MemoryStep(s, W64, Add, p, q);
    Pow256Values();
    NumberStored(s.mem, p, 0, 8);
  }

  /** Every word of the two numbers combines without leaving 64 bits. */
  ghost predicate WordsFit(mem: seq<byte>, op: AluOp, p: nat, q: nat, carry: nat, k: nat)
    requires p + 8 * k <= |mem| && q + 8 * k <= |mem|
  {
    forall i :: 0 <= i < k ==>
      WordFits(op, Number(mem, p + 8 * i, 8), Number(mem, q + 8 * i, 8), if i == 0 then carry else 0)
  }

  predicate WordFits(op: AluOp, x: nat, y: nat, c: nat) {
    if op.Add? || op.Adc? then x + y + c < TWO64 else x >= y + c
  }

  /** By how much a result misses sum or difference. */
  function Miss(op: AluOp, x: nat, y: nat, c: nat, r: nat): int {
    if op.Add? || op.Adc? then x + y + c - r else r + y + c - x
  }

  lemma CombineWide(op: AluOp, x: u64, y: u64, carry: bool)
    ensures var (v, c) := (Combine(op, x, y, carry), if UsesCarry(op) && carry then 1 else 0);
            && (Miss(op, x, y, c, v) == 0 || Miss(op, x, y, c, v) == TWO64)
            && (Miss(op, x, y, c, v) == 0 <==> WordFits(op, x, y, c))
  {
  }

  /** At 64 bits the words come out as sum or difference exactly when no word leaves its 64
      bits: what a word loses is never carried on. */
  lemma {:induction false} WideWordsCombined(s: State, op: AluOp, p: u64, q: u64, k: nat)
    requires p + k * 8 <= |s.mem| && q + k * 8 <= |s.mem| && k > 0 && SameOrApart(p, q, k * 8)
    ensures RunWords(s, W64, op, p, q, k).Some?
    ensures var (t, m) := (RunWords(s, W64, op, p, q, k).value, k * 8);
            && OnlyChanged(s.mem, t.mem, p, m) && CarryOf(t) == 0
            && var miss := Miss(op, Number(s.mem, p, m), Number(s.mem, q, m), CarryIn(s, op), Number(t.mem, p, m));
               miss >= 0 && (miss == 0 <==> WordsFit(s.mem, op, p, q, CarryIn(s, op), k))
    decreases k
  {
    hide Load, Store, Combine, GetVal, SetVal, Le, FromLe, Pow256, ExecuteAlu, Carry, Number, OnlyChanged;
    hide SameOrApart, ReadWord;
    hide CarryIn, CarryOf, Miss, WordsFit, WordFits, MemoryWord;
    var rest := (k - 1) * 8;
    StepFits(s, W64, op, p, q, k);
    FirstWideWord(s, op, p, q);
    var t1 := ExecuteAlu(s, W64, op, MemoryWord(p, W64), MemoryWord(q, W64)).state;
    assert RunWords(s, W64, op, p, q, k) == RunWords(t1, W64, Later(op), p + 8, q + 8, k - 1);
    if k == 1 {
      assert RunWords(t1, W64, Later(op), p + 8, q + 8, 0) == Some(t1);
      OneWordFits(s.mem, op, p, q, CarryIn(s, op));
    } else {
      RestApart(p, q, 8, rest);
      WideWordsCombined(t1, Later(op), p + 8, q + 8, k - 1);
      var t := RunWords(t1, W64, Later(op), p + 8, q + 8, k - 1).value;
      LaterTakesCarry(t1, op);
      BothWideParts(op, CarryIn(s, op), s.mem, t1.mem, t.mem, p, q, k);
    }
  }

  lemma {:induction false} FirstWideWord(s: State, op: AluOp, p: u64, q: u64)
    requires p + 8 <= |s.mem| && q + 8 <= |s.mem|
    ensures var t := ExecuteAlu(s, W64, op, MemoryWord(p, W64), MemoryWord(q, W64)).state;
            && OnlyChanged(s.mem, t.mem, p, 8) && CarryOf(t) == 0
            && var miss := Miss(op, Number(s.mem, p, 8), Number(s.mem, q, 8), CarryIn(s, op), Number(t.mem, p, 8));
               && (miss == 0 || miss == TWO64)
               && (miss == 0 <==> WordFits(op, Number(s.mem, p, 8), Number(s.mem, q, 8), CarryIn(s, op)))
  {
    hide Load, Combine, Le, FromLe, Pow256, ExecuteAlu, OnlyChanged, WordFits, Miss, MemoryWord;
    MemoryStep(s, W64, op, p, q);
    Pow256Values();
    var v := Combine(op, ReadWord(s, p, W64), ReadWord(s, q, W64), Carry(Load(s.file, Flags)));
    CombineWide(op, ReadWord(s, p, W64), ReadWord(s, q, W64), Carry(Load(s.file, Flags)));
    NumberStored(s.mem, p, v, 8);
  }

  lemma OneWordFits(mem: seq<byte>, op: AluOp, p: nat, q: nat, c: nat)
    requires p + 8 <= |mem| && q + 8 <= |mem|
    ensures WordsFit(mem, op, p, q, c, 1) <==> WordFits(op, Number(mem, p, 8), Number(mem, q, 8), c)
  {
    hide WordFits, Number;
    var first := WordFits(op, Number(mem, p + 8 * 0, 8), Number(mem, q + 8 * 0, 8), c);
    assert first == WordFits(op, Number(mem, p, 8), Number(mem, q, 8), c);
  }

  lemma {:induction false} WordsFitSplit(m0: seq<byte>, m1: seq<byte>, op: AluOp, p: nat, q: nat, c: nat, k: nat)
    requires k > 1 && p + 8 * k <= |m0| && q + 8 * k <= |m0| && OnlyChanged(m0, m1, p, 8) && SameOrApart(p, q, 8 * k)
    ensures |m0| == |m1|
    ensures
      WordsFit(m0, op, p, q, c, k) <==>
      WordFits(op, Number(m0, p, 8), Number(m0, q, 8), c) && WordsFit(m1, Later(op), p + 8, q + 8, 0, k - 1)
  {
    hide Number, WordFits;
    assert |m0| == |m1|;
    forall i | 0 <= i < k - 1
      ensures
        WordFits(Later(op), Number(m1, p + 8 + 8 * i, 8), Number(m1, q + 8 + 8 * i, 8), 0) ==
        WordFits(op, Number(m0, p + 8 * (i + 1), 8), Number(m0, q + 8 * (i + 1), 8), 0)
    {
      NumberUnchanged(m0, m1, p, 8, p + 8 + 8 * i, 8);
      NumberUnchanged(m0, m1, p, 8, q + 8 + 8 * i, 8);
      SameFit(op, Number(m0, p + 8 * (i + 1), 8), Number(m0, q + 8 * (i + 1), 8));
    }
    if WordsFit(m1, Later(op), p + 8, q + 8, 0, k - 1) {
      forall j | 0 < j < k
        ensures WordFits(op, Number(m0, p + 8 * j, 8), Number(m0, q + 8 * j, 8), 0)
      {
        var i := j - 1;
        assert WordFits(Later(op), Number(m1, p + 8 + 8 * i, 8), Number(m1, q + 8 + 8 * i, 8), if i == 0 then 0 else 0);
      }
    }
    if WordsFit(m0, op, p, q, c, k) {
      var first := 0;
      assert WordFits(op, Number(m0, p + 8 * first, 8), Number(m0, q + 8 * first, 8), c);
      assert p + 8 * first == p && q + 8 * first == q;
      forall i | 0 <= i < k - 1
        ensures WordFits(Later(op), Number(m1, p + 8 + 8 * i, 8), Number(m1, q + 8 + 8 * i, 8), 0)
      {
        var j := i + 1;
        assert WordFits(op, Number(m0, p + 8 * j, 8), Number(m0, q + 8 * j, 8), 0);
      }
    }
  }

  lemma SameFit(op: AluOp, x: nat, y: nat)
    ensures WordFits(Later(op), x, y, 0) == WordFits(op, x, y, 0)
  {
  }

  lemma {:induction false} BothWideParts(op: AluOp, c: nat, m0: seq<byte>, m1: seq<byte>, m2: seq<byte>, p: nat,
                                         q: nat, k: nat)
    requires k > 1 && p + k * 8 <= |m0| && q + k * 8 <= |m0| && SameOrApart(p, q, k * 8)
    requires OnlyChanged(m0, m1, p, 8) && OnlyChanged(m1, m2, p + 8, (k - 1) * 8)
    requires var miss := Miss(op, Number(m0, p, 8), Number(m0, q, 8), c, Number(m1, p, 8));
             && (miss == 0 || miss == TWO64) && (miss == 0 <==> WordFits(op, Number(m0, p, 8), Number(m0, q, 8), c))
    requires var rest := (k - 1) * 8;
             var miss := Miss(Later(op), Number(m1, p + 8, rest), Number(m1, q + 8, rest), 0, Number(m2, p + 8, rest));
             miss >= 0 && (miss == 0 <==> WordsFit(m1, Later(op), p + 8, q + 8, 0, k - 1))
    ensures OnlyChanged(m0, m2, p, k * 8)
    ensures var miss := Miss(op, Number(m0, p, k * 8), Number(m0, q, k * 8), c, Number(m2, p, k * 8));
            miss >= 0 && (miss == 0 <==> WordsFit(m0, op, p, q, c, k))
  {
    hide Number, WordsFit, WordFits, SameOrApart, Miss;
    var rest := (k - 1) * 8;
    RestOfNumbers(m0, m1, m2, p, q, 8, rest);
    WordsFitSplit(m0, m1, op, p, q, c, k);
    Pow256Values();
    MissTogether(op, TWO64, Number(m0, p, 8), Number(m0, q, 8), c, Number(m1, p, 8),
                 Number(m1, p + 8, rest), Number(m1, q + 8, rest), Number(m2, p + 8, rest));
  }

  lemma MissTogether(op: AluOp, p: nat, x: nat, y: nat, c: nat, r: nat, xs: nat, ys: nat, rs: nat)
    ensures
      Miss(op, x + p * xs, y + p * ys, c, r + p * rs) ==
      Miss(op, x, y, c, r) + p * Miss(Later(op), xs, ys, 0, rs)
  {
  }
}
