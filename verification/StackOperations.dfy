/** Operand access and the instructions that use the stack, one state to the next. */
module StackOperations {
  import opened Bytes
  import opened Operands
  import opened Registers
  import opened Memory
  import opened CpuDecoder
  import opened Machine

  datatype Access<+T> = Done(value: T) | Failed(fault: Fault)

  function GetVal(s: State, o: CpuOperand): Access<u64> {
    match o
    case RegisterOperand(width, index) =>
      (match SelectRegister(width, index)
       case None => Failed(IllegalInstruction)
       case Some(r) => Done(Load(s.file, r)))
    case ConstantOperand(value, _) => Done(value)
    case MemoryOperand(address, width) =>
      match WidthOf(width)
      case None => Failed(IllegalInstruction)
      case Some(w) =>
        match ReadFlat(s.mem, address, w.Size())
        case None => Failed(Fault.StackOverflow)
        case Some(bytes) =>
          FromLeBound(bytes);
          Pow256Values();
          Done(FromLe(bytes))
  }

  function SetVal(s: State, o: CpuOperand, v: u64): Access<State> {
    match o
    case RegisterOperand(width, index) =>
      (match SelectRegister(width, index)
       case None => Failed(IllegalInstruction)
       case Some(r) => Done(State(Store(s.file, r, v), s.mem)))
    case ConstantOperand(_, _) => Failed(IllegalInstruction)
    case MemoryOperand(address, width) =>
      match WidthOf(width)
      case None => Failed(IllegalInstruction)
      case Some(w) =>
        if Refuses(|s.mem|, address, w.Size()) then Failed(MemoryFault)
        else
          SmallAccess(|s.mem|, address, w.Size());
          Done(State(s.file, Splice(s.mem, address, Le(v, w.Size()))))
  }

  // ---- the frame of all registers ----

  /** The registers saved by a push of all registers, lowest address first. */
  const SAVED: seq<Registers.Register> :=
    [FER(0), FER(1), FER(2), FER(3), FER(4), FER(5), FER(6), FER(7),
     FER(8), FER(9), FER(10), FER(11), FER(12), FER(13), FER(14), FER(15),
     Flags, StackBase, StackPointer, DataBase, DataPointer, ExtendedBase, ExtendedPointer, ProcedureSpace]

  lemma SavedAreWide(k: nat)
    requires k < |SAVED|
    ensures SAVED[k].Exists() && SAVED[k].Size() == 8
  {
  }

  lemma SavedAreDisjoint(i: nat, j: nat)
    requires i < |SAVED| && j < |SAVED| && i != j
    ensures SAVED[i].Exists() && SAVED[j].Exists() && Disjoint(SAVED[i], SAVED[j])
  {
    SavedAreWide(i);
    SavedAreWide(j);
    SavedSlot(i);
    SavedSlot(j);
  }

  lemma SavedSlot(k: nat)
    requires k < |SAVED|
    ensures SAVED[k].Exists() && SAVED[k].Size() == 8 && SAVED[k].Slot() == if k < 19 then k else k + 2
  {
  }

  function SaveFrame(f: RegisterFile, k: nat): (frame: seq<byte>)
    requires k <= |SAVED|
    ensures |frame| == 8 * k
  {
    if k == 0 then []
    else
      SavedAreWide(k - 1);
      SaveFrame(f, k - 1) + Le(Load(f, SAVED[k - 1]), 8)
  }

  function FrameWord(frame: seq<byte>, k: nat): u64
    requires 8 * k + 8 <= |frame|
  {
    FromLeBound(frame[8 * k..8 * k + 8]);
    Pow256Values();
    FromLe(frame[8 * k..8 * k + 8])
  }

  function RestoreFrame(f: RegisterFile, frame: seq<byte>, k: nat): RegisterFile
    requires k <= |SAVED| && |frame| == 8 * |SAVED|
  {
    if k == 0 then f
    else
      SavedAreWide(k - 1);
      Store(RestoreFrame(f, frame, k - 1), SAVED[k - 1], FrameWord(frame, k - 1))
  }

  lemma LastEight(a: seq<byte>, b: seq<byte>)
    requires |b| == 8
    ensures (a + b)[|a|..|a| + 8] == b
  {
  }

  lemma EarlierEight(a: seq<byte>, b: seq<byte>, at: nat)
    requires at + 8 <= |a|
    ensures (a + b)[at..at + 8] == a[at..at + 8]
  {
  }

  lemma {:induction false} SavedWord(f: RegisterFile, k: nat, j: nat)
    requires j < k <= |SAVED| && SAVED[j].Exists()
    ensures FrameWord(SaveFrame(f, k), j) == Load(f, SAVED[j])
    decreases k
  {
    hide Load, Le, FromLe, FrameWord;
    SavedAreWide(k - 1);
    var rest, last := SaveFrame(f, k - 1), Le(Load(f, SAVED[k - 1]), 8);
    if j == k - 1 {
      LastWord(rest, Load(f, SAVED[j]), j);
    } else {
      SavedWord(f, k - 1, j);
      EarlierWord(rest, last, j);
    }
  }

  lemma LastWord(a: seq<byte>, v: u64, j: nat)
    requires |a| == 8 * j
    ensures FrameWord(a + Le(v, 8), j) == v
  {
    hide Le, FromLe;
    LastEight(a, Le(v, 8));
    FromLeOfLe(v, 8);
    Pow256Values();
  }

  lemma EarlierWord(a: seq<byte>, b: seq<byte>, j: nat)
    requires 8 * j + 8 <= |a|
    ensures FrameWord(a + b, j) == FrameWord(a, j)
  {
    hide FromLe;
    EarlierEight(a, b, 8 * j);
  }

  /** Every restored register holds the word of the frame that is its own. */
  lemma {:induction false} RestoredWord(f: RegisterFile, frame: seq<byte>, k: nat, j: nat)
    requires j < k <= |SAVED| && |frame| == 8 * |SAVED| && SAVED[j].Exists()
    ensures Load(RestoreFrame(f, frame, k), SAVED[j]) == FrameWord(frame, j)
    decreases k
  {
    hide Load, Store, FrameWord;
    SavedAreWide(k - 1);
    var before := RestoreFrame(f, frame, k - 1);
    if j == k - 1 {
      LoadStoredWide(before, SAVED[j], FrameWord(frame, j));
    } else {
      SavedAreDisjoint(k - 1, j);
      LoadDisjoint(before, SAVED[k - 1], FrameWord(frame, k - 1), SAVED[j]);
      RestoredWord(f, frame, k - 1, j);
    }
  }

  /** Restoring a saved frame gives every saved register its value back. */
  lemma {:induction false} RestoreUndoesSave(f: RegisterFile, g: RegisterFile, j: nat)
    requires j < |SAVED|
    ensures SAVED[j].Exists()
    ensures Load(RestoreFrame(g, SaveFrame(f, |SAVED|), |SAVED|), SAVED[j]) == Load(f, SAVED[j])
  {
    SavedAreWide(j);
    RestoredWord(g, SaveFrame(f, |SAVED|), |SAVED|, j);
    SavedWord(f, |SAVED|, j);
  }

  // ---- instructions ----

  datatype Op =
    | PushOp(width: Width, source: CpuOperand)
    | PopOp(width: Width, target: CpuOperand)
    | PushAll
    | PopAll
    | Call(base: CpuOperand, ip: CpuOperand)
    | Ret

  /** An instruction and the instruction pointer its fetch leaves behind. */
  datatype Step = Step(op: Op, next: u64)

  /** The state an instruction leaves, and the fault it raised, if any. */
  datatype Result = Result(state: State, fault: Option<Fault>)

  function PushWord(s: State, v: u64): Result {
    match Push(s, Le(v, 8))
    case None => Result(s, Some(Fault.StackOverflow))
    case Some(t) => Result(t, None)
  }

  function ExecutePush(s: State, w: Width, source: CpuOperand): Result {
    match GetVal(s, source)
    case Failed(e) => Result(s, Some(e))
    case Done(v) =>
      match Push(s, Le(v, w.Size()))
      case None => Result(s, Some(Fault.StackOverflow))
      case Some(t) => Result(t, None)
  }

  function ExecutePop(s: State, w: Width, target: CpuOperand): Result {
    match Pop(s, w.Size())
    case None => Result(s, Some(Fault.StackOverflow))
    case Some((data, t)) =>
      FromLeBound(data);
      Pow256Values();
      match SetVal(t, target, FromLe(data))
      case Failed(e) => Result(t, Some(e))
      case Done(u) => Result(u, None)
  }

  function ExecutePushAll(s: State): Result {
    match Push(s, SaveFrame(s.file, |SAVED|))
    case None => Result(s, Some(Fault.StackOverflow))
    case Some(t) => Result(t, None)
  }

  function ExecutePopAll(s: State): Result {
    match Pop(s, 8 * |SAVED|)
    case None => Result(s, Some(Fault.StackOverflow))
    case Some((data, t)) => Result(State(RestoreFrame(t.file, data, |SAVED|), t.mem), None)
  }

  function JumpFile(f: RegisterFile, cb: u64, ip: u64): RegisterFile {
    Store(Store(f, CodeBase, cb), InstructionPointer, ip)
  }

  /** The return address is pushed before the target operands are looked at. */
  function ExecuteCall(s: State, base: CpuOperand, ip: CpuOperand): Result {
    var first := PushWord(s, Load(s.file, CodeBase));
    if first.fault.Some? then first
    else
      var second := PushWord(first.state, Load(s.file, InstructionPointer));
      if second.fault.Some? then second
      else
        match GetVal(second.state, base)
        case Failed(e) => Result(second.state, Some(e))
        case Done(cb) =>
          match GetVal(second.state, ip)
          case Failed(e) => Result(second.state, Some(e))
          case Done(p) => Result(State(JumpFile(second.state.file, cb, p), second.state.mem), None)
  }

  function PopWord(s: State): (r: Option<(u64, State)>)
    ensures r.Some? ==> r.value.1.mem == s.mem
  {
    match Pop(s, 8)
    case None => None
    case Some((data, t)) =>
      FromLeBound(data);
      Pow256Values();
      Some((FromLe(data), t))
  }

  function ExecuteRet(s: State): Result {
    match PopWord(s)
    case None => Result(s, Some(Fault.StackOverflow))
    case Some((ip, t)) =>
      match PopWord(t)
      case None => Result(t, Some(Fault.StackOverflow))
      case Some((cb, u)) => Result(State(JumpFile(u.file, cb, ip), u.mem), None)
  }

  function Execute(s: State, op: Op): Result {
    match op
    case PushOp(w, source) => ExecutePush(s, w, source)
    case PopOp(w, target) => ExecutePop(s, w, target)
    case PushAll => ExecutePushAll(s)
    case PopAll => ExecutePopAll(s)
    case Call(base, ip) => ExecuteCall(s, base, ip)
    case Ret => ExecuteRet(s)
  }

  /** The state once an instruction has been fetched. */
  function Fetched(s: State, next: u64): State {
    State(Store(s.file, InstructionPointer, next), s.mem)
  }

  /** Executes instructions until one of them faults. */
  function RunSteps(s: State, steps: seq<Step>): Option<State>
    decreases |steps|
  {
    hide Execute, Store;
    if steps == [] then Some(s)
    else
      var r := Execute(Fetched(s, steps[0].next), steps[0].op);
      if r.fault.Some? then None else RunSteps(r.state, steps[1..])
  }
}
