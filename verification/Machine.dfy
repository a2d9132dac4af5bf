/** The machine state and what stack and interrupt operations do to it. */
module Machine {
  import opened Bytes
  import opened Registers
  import opened Memory
  import opened CpuDecoder

  const INTERRUPTION_VECTOR: u64 := 0xA0000
  const INTERRUPTION_VEC_ED: u64 := 0xA0FFF
  const MAX_INTERRUPTION_ENTRY: u64 := 0x100

  /** The 185 blocks up to and including video memory that construction touches. */
  const MINIMAL_MEMORY: nat := 185 * BLOCK_SIZE

  datatype RawState = State(file: RegisterFile, mem: FlatMemory)

  type State = s: RawState | |s.mem| >= MINIMAL_MEMORY witness State(seq(256, _ => 0), seq(185 * 4096, _ => 0))

  // ---- flags ----

  const MASK_BIT: nat := 32

  predicate Masked(flags: u64) {
    flags / MASK_BIT % 2 == 1
  }

  function SetMask(flags: u64): (r: u64)
    ensures Masked(r)
    ensures r == flags || r == flags + MASK_BIT
  {
    if Masked(flags) then flags else flags + MASK_BIT
  }

  function MaskInterrupts(f: RegisterFile): RegisterFile {
    Store(f, Flags, SetMask(Load(f, Flags)))
  }

  // ---- stack ----

  /** Where a push of `n` bytes stores them; the sum of base and pointer wraps. */
  function PushAddress(f: RegisterFile, n: nat): u64 {
    Wrap64(Load(f, StackPointer) - n + Load(f, StackBase))
  }

  function TopAddress(f: RegisterFile): u64 {
    Wrap64(Load(f, StackBase) + Load(f, StackPointer))
  }

  /** A push; none when it overflows, in which case nothing changes. */
  function Push(s: State, data: seq<byte>): (r: Option<State>)
    requires |data| <= 256
  {
    var n, sp := |data|, Load(s.file, StackPointer);
    if sp < n || Refuses(|s.mem|, PushAddress(s.file, n), n) then None
    else Some(State(Store(s.file, StackPointer, sp - n), Splice(s.mem, PushAddress(s.file, n), data)))
  }

  function Pop(s: State, n: nat): (r: Option<(seq<byte>, State)>)
    requires n <= 256
    ensures r.Some? ==> |r.value.0| == n && r.value.1.mem == s.mem
  {
    match ReadFlat(s.mem, TopAddress(s.file), n)
    case None => None
    case Some(data) => Some((data, State(Store(s.file, StackPointer, Wrap64(Load(s.file, StackPointer) + n)), s.mem)))
  }

  /** A push that succeeds stores just below the top of the stack, which becomes the new top. */
  lemma {:induction false} PushGoesBelowTop(s: State, data: seq<byte>)
    requires 0 < |data| <= 256 && Push(s, data).Some?
    ensures var (n, t, r) := (|data|, TopAddress(s.file), Push(s, data).value);
            && n <= t <= |s.mem| && PushAddress(s.file, n) == t - n
            && TopAddress(r.file) == t - n && r.mem == Splice(s.mem, t - n, data)
            && Load(r.file, StackPointer) == Load(s.file, StackPointer) - n
  {
    hide Load, Store, Wrap64, Refuses, Splice;
    var n, sp, sb := |data|, Load(s.file, StackPointer), Load(s.file, StackBase);
    LoadDisjoint(s.file, StackPointer, sp - n, StackBase);
    LoadStoredWide(s.file, StackPointer, sp - n);
    assert sp - n + sb == sb + sp - n && sb + (sp - n) == sb + sp - n;
    SmallAccess(|s.mem|, PushAddress(s.file, n), n);
    WrappedDifference(sb + sp, n, |s.mem|);
  }

  /** For accesses this small the range check means what it says. */
  lemma SmallAccess(total: nat, address: u64, n: nat)
    requires n <= 256 && total + 256 < TWO64
    ensures Refuses(total, address, n) <==> address + n > total
  {
  }

  lemma WrappedDifference(x: int, n: nat, total: nat)
    requires 0 <= x && n <= 256 && total + 256 < TWO64
    requires Wrap64(x - n) <= total && Wrap64(x - n) + n <= total
    ensures n <= Wrap64(x) && Wrap64(x - n) == Wrap64(x) - n
  {
  }

  /** Popping what was just pushed gives it back and restores the register file. */
  lemma {:induction false} PopUndoesPush(s: State, data: seq<byte>)
    requires 0 < |data| <= 256 && Push(s, data).Some?
    ensures Pop(Push(s, data).value, |data|) == Some((data, State(s.file, Push(s, data).value.mem)))
  {
    hide Load, Store, Refuses, Wrap64;
    var n, sp, r := |data|, Load(s.file, StackPointer), Push(s, data).value;
    PushGoesBelowTop(s, data);
    var t := TopAddress(s.file) - n;
    SmallAccess(|r.mem|, t, n);
    WrittenBack(s.mem, t, data);
    LoadStoredWide(s.file, StackPointer, sp - n);
    Unwrapped(sp);
    StoreTwice(s.file, StackPointer, sp - n, sp);
    StoreLoaded(s.file, StackPointer);
  }

  lemma WrittenBack(mem: FlatMemory, at: nat, data: seq<byte>)
    requires at + |data| <= |mem|
    ensures Splice(mem, at, data)[at..at + |data|] == data
  {
  }

  lemma Unwrapped(v: u64)
    ensures Wrap64(v) == v
  {
  }

  // ---- interrupts ----

  function VectorOffset(code: nat): nat {
    INTERRUPTION_VECTOR + code * 16
  }

  /** The target of a code: two words, code base then instruction pointer. */
  function JumpTo(f: RegisterFile, mem: FlatMemory, code: nat): RegisterFile
    requires code < 256 && |mem| >= MINIMAL_MEMORY
  {
    var o := VectorOffset(code);
    var cb, ip := Word(mem, o), Word(mem, o + 8);
    Store(Store(f, CodeBase, cb), InstructionPointer, ip)
  }

  function Word(mem: FlatMemory, at: nat): u64
    requires at + 8 <= |mem|
  {
    FromLeBound(mem[at..at + 8]);
    Pow256Values();
    FromLe(mem[at..at + 8])
  }

  /** What became of an interrupt request. */
  datatype Outcome =
    | Jumped                  // at the vector's target
    | Ignored                 // masked
    | Serviced                // answered by the screen and keyboard routines
    | BadInterruption         // code beyond the table, raised to the caller
    | OutOfRange              // vector beyond the table, raised to the caller
    | Overflowed              // stack overflow, raised to the caller
    | Aborted                 // at the stack overflow handler, current instruction abandoned

  /** Mask, then jump, without touching the stack. */
  function EnterWithoutFrame(s: State, code: nat): State
    requires code < 256
  {
    State(JumpTo(MaskInterrupts(s.file), s.mem, code), s.mem)
  }

  /** Push the whole register file, mask, jump. The target is looked up before the push, which
      may overwrite the vector table. */
  function EnterWithFrame(s: State, code: nat): Option<State>
    requires code < 256
  {
    match Push(s, s.file)
    case None => None
    case Some(t) => Some(State(JumpTo(MaskInterrupts(t.file), s.mem, code), t.mem))
  }

  /** The dispatch of a code without a handler of its own, the mask left aside. */
  function Dispatch(s: State, code: nat): (Outcome, State)
    requires code <= MAX_INTERRUPTION_ENTRY
  {
    if code == MAX_INTERRUPTION_ENTRY then (OutOfRange, s)
    else
      match EnterWithFrame(s, code)
      case Some(t) => (Jumped, t)
      case None => (Aborted, EnterWithoutFrame(s, 0x07))
  }

  predicate HasService(code: nat) {
    0x10 <= code <= 0x19
  }

  /** The handler table read as one function of the code. */
  function Interrupt(s: State, code: nat): (Outcome, State) {
    if code > MAX_INTERRUPTION_ENTRY then (BadInterruption, s)
    else if code == 0x00 || code == 0x07 then (Jumped, EnterWithoutFrame(s, code))
    else if HasService(code) then (Serviced, s)
    else if code > 0x1F && Masked(Load(s.file, Flags)) then (Ignored, s)
    else if code == 0x03 then
      match EnterWithFrame(s, code)
      case Some(t) => (Jumped, t)
      case None => (Overflowed, s)
    else Dispatch(s, code)
  }

  lemma MaskIsStore(f: RegisterFile)
    ensures MaskInterrupts(f) == Store(f, Flags, SetMask(Load(f, Flags)))
  {
  }

  lemma {:induction false} PushKeepsRegister(s: State, data: seq<byte>, r: Registers.Register)
    requires |data| <= 256 && Push(s, data).Some? && r.Exists() && r != StackPointer
    ensures Load(Push(s, data).value.file, r) == Load(s.file, r)
  {
    hide Load, Store, Refuses, Splice, PushAddress, Disjoint;
    OtherRegister(r, StackPointer);
    LoadDisjoint(s.file, StackPointer, Load(s.file, StackPointer) - |data|, r);
  }

  /** Behind the stack overflow handler the flags are masked already. */
  lemma {:induction false} FlagsAreMasked(s: State, code: nat)
    requires code < 256
    ensures var f := EnterWithoutFrame(s, code).file;
            Store(f, Flags, SetMask(Load(s.file, Flags))) == f
  {
    hide Load, Store, Word, SetMask;
    var o := VectorOffset(code);
    var m := MaskInterrupts(s.file);
    var n := Store(m, CodeBase, Word(s.mem, o));
    LoadStoredWide(s.file, Flags, SetMask(Load(s.file, Flags)));
    LoadDisjoint(m, CodeBase, Word(s.mem, o), Flags);
    LoadDisjoint(n, InstructionPointer, Word(s.mem, o + 8), Flags);
    StoreLoaded(Store(n, InstructionPointer, Word(s.mem, o + 8)), Flags);
  }

  /** Return from interrupt: the popped frame replaces the whole register file. */
  function ReturnFromInterrupt(s: State): Option<State> {
    match Pop(s, REGISTER_FILE_SIZE)
    case None => None
    case Some((frame, _)) => Some(State(frame, s.mem))
  }
}
