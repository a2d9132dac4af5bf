/** Stack discipline over whole runs of balanced instruction sequences. */
module StackRuns {
  import opened Bytes
  import opened Operands
  import opened Registers
  import opened Memory
  import opened CpuDecoder
  import opened Machine
  import opened StackOperations

  // ---- balanced programs ----

  datatype Block =
    | Keep(width: Width, source: CpuOperand, pushNext: u64, body: Program, target: CpuOperand, popNext: u64)
    | Preserve(pushNext: u64, body: Program, popNext: u64)
    | Invoke(base: CpuOperand, ip: CpuOperand, callNext: u64, body: Program, retNext: u64)

  datatype Program = Empty | Then(first: Block, rest: Program)

  /** A register that overlaps neither the stack pointer nor the stack base. */
  predicate OffStack(w: Width, o: CpuOperand) {
    && o.RegisterOperand? && o.width == w.Prefix()
    && var r := SelectRegister(o.width, o.index);
       r.Some? && r.value != StackPointer && r.value != StackBase
  }

  predicate WellFormedBlock(b: Block) {
    match b
    case Keep(w, _, _, body, target, _) => OffStack(w, target) && WellFormedProgram(body)
    case Preserve(_, body, _) => WellFormedProgram(body)
    case Invoke(_, _, _, body, _) => WellFormedProgram(body)
  }

  predicate WellFormedProgram(p: Program) {
    p.Then? ==> WellFormedBlock(p.first) && WellFormedProgram(p.rest)
  }

  function Opening(b: Block): Step {
    match b
    case Keep(w, source, next, _, _, _) => Step(PushOp(w, source), next)
    case Preserve(next, _, _) => Step(PushAll, next)
    case Invoke(base, ip, next, _, _) => Step(Call(base, ip), next)
  }

  function Closing(b: Block): Step {
    match b
    case Keep(w, _, _, _, target, next) => Step(PopOp(w, target), next)
    case Preserve(_, _, next) => Step(PopAll, next)
    case Invoke(_, _, _, _, next) => Step(Ret, next)
  }

  /** The instructions of a program in the order they execute. */
  function Flatten(p: Program): seq<Step> {
    match p
    case Empty => []
    case Then(b, rest) => FlattenBlock(b) + Flatten(rest)
  }

  function FlattenBlock(b: Block): seq<Step> {
    [Opening(b)] + Flatten(b.body) + [Closing(b)]
  }

  // ---- what a balanced stretch keeps ----

  ghost predicate SameFrom(m: FlatMemory, n: FlatMemory, at: nat) {
    |m| == |n| && forall k :: at <= k < |m| ==> m[k] == n[k]
  }

  /** Stack base and pointer as before, and no byte at or above the stack top changed. */
  ghost predicate StackKept(s: State, t: State) {
    && Load(t.file, StackBase) == Load(s.file, StackBase)
    && Load(t.file, StackPointer) == Load(s.file, StackPointer)
    && SameFrom(s.mem, t.mem, TopAddress(s.file))
  }

  /** `t` is `s` with `data` pushed: it lies at the new top, and nothing above changed. */
  ghost predicate Pushed(s: State, t: State, data: seq<byte>) {
    && |data| <= TopAddress(s.file) <= |s.mem| == |t.mem|
    && TopAddress(t.file) == TopAddress(s.file) - |data|
    && Load(t.file, StackBase) == Load(s.file, StackBase)
    && Load(s.file, StackPointer) >= |data|
    && Load(t.file, StackPointer) == Load(s.file, StackPointer) - |data|
    && t.mem[TopAddress(t.file)..TopAddress(s.file)] == data
    && SameFrom(s.mem, t.mem, TopAddress(s.file))
  }

  lemma {:induction false} PushIsPushed(s: State, data: seq<byte>)
    requires 0 < |data| <= 256 && Push(s, data).Some?
    ensures Pushed(s, Push(s, data).value, data)
    ensures Load(Push(s, data).value.file, CodeBase) == Load(s.file, CodeBase)
    ensures Load(Push(s, data).value.file, InstructionPointer) == Load(s.file, InstructionPointer)
  {
    hide Load, Store, Refuses, Wrap64;
    var t, sp := Push(s, data).value, Load(s.file, StackPointer);
    PushGoesBelowTop(s, data);
    LoadDisjoint(s.file, StackPointer, sp - |data|, StackBase);
    LoadDisjoint(s.file, StackPointer, sp - |data|, CodeBase);
    LoadDisjoint(s.file, StackPointer, sp - |data|, InstructionPointer);
    SpliceBelow(s.mem, TopAddress(s.file), data);
  }

  lemma SpliceBelow(m: FlatMemory, top: nat, data: seq<byte>)
    requires |data| <= top <= |m|
    ensures var n: FlatMemory := Splice(m, top - |data|, data);
            SameFrom(m, n, top) && n[top - |data|..top] == data
  {
  }

  /** Popping in a state that kept the stack since `data` was pushed gives `data` back and
      leaves the stack as it was before the push. */
  lemma {:induction false} PopAfterKept(s: State, t: State, u: State, data: seq<byte>)
    requires 0 < |data| <= 256 && Pushed(s, t, data) && StackKept(t, u)
    ensures Pop(u, |data|).Some?
    ensures Pop(u, |data|).value.0 == data
    ensures var v := Pop(u, |data|).value.1;
            && StackKept(s, v) && v.mem == u.mem
            && v.file == Store(u.file, StackPointer, Load(s.file, StackPointer))
  {
    hide Load, Store;
    var top, n := TopAddress(t.file), |data|;
    assert TopAddress(u.file) == top;
    SmallAccess(|u.mem|, top, n);
    assert u.mem[top..top + n] == t.mem[top..top + n] == data;
    var sp: u64 := Load(s.file, StackPointer);
    LoadStoredWide(u.file, StackPointer, sp);
    LoadDisjoint(u.file, StackPointer, sp, StackBase);
  }

  lemma KeptChain(s: State, t: State, u: State)
    requires StackKept(s, t) && StackKept(t, u)
    ensures StackKept(s, u)
  {
    hide Load;
  }

  lemma {:induction false} FetchKeepsStack(s: State, next: u64)
    ensures StackKept(s, Fetched(s, next)) && Fetched(s, next).mem == s.mem
    ensures Load(Fetched(s, next).file, InstructionPointer) == next
    ensures Load(Fetched(s, next).file, CodeBase) == Load(s.file, CodeBase)
  {
    hide Load, Store;
    LoadDisjoint(s.file, InstructionPointer, next, StackBase);
    LoadDisjoint(s.file, InstructionPointer, next, StackPointer);
    LoadDisjoint(s.file, InstructionPointer, next, CodeBase);
    LoadStoredWide(s.file, InstructionPointer, next);
  }

  /** Storing to a register clear of base and pointer keeps the stack. */
  lemma {:induction false} StoreKeepsStack(s: State, r: Registers.Register, v: u64)
    requires r.Exists() && r != StackPointer && r != StackBase
    requires Disjoint(r, StackPointer) && Disjoint(r, StackBase)
    ensures StackKept(s, State(Store(s.file, r, v), s.mem))
  {
    hide Load, Store;
    LoadDisjoint(s.file, r, v, StackPointer);
    LoadDisjoint(s.file, r, v, StackBase);
  }

  lemma OffStackIsDisjoint(w: Width, o: CpuOperand)
    requires OffStack(w, o)
    ensures var r := SelectRegister(o.width, o.index).value;
            Disjoint(r, StackPointer) && Disjoint(r, StackBase) && r.Size() == w.Size()
  {
  }

  /** What a block achieves besides keeping the stack: the value pushed arrives in the popped
      register, all saved registers come back, a return lands behind its call. */
  ghost predicate Effect(b: Block, s: State, t: State)
    requires WellFormedBlock(b)
  {
    match b
    case Keep(w, source, next, _, target, _) =>
      var v := GetVal(Fetched(s, next), source);
      v.Done? && Load(t.file, SelectRegister(target.width, target.index).value) == v.value % Pow256(w.Size())
    case Preserve(_, _, _) =>
      forall j :: 0 <= j < |SAVED| && SAVED[j].Exists() ==> Load(t.file, SAVED[j]) == Load(s.file, SAVED[j])
    case Invoke(_, _, next, _, _) =>
      Load(t.file, CodeBase) == Load(s.file, CodeBase) && Load(t.file, InstructionPointer) == next
  }

  lemma {:induction false} CloseKeep(b: Block, s: State, u: State)
    requires b.Keep? && WellFormedBlock(b)
    requires ExecutePush(Fetched(s, b.pushNext), b.width, b.source).fault.None?
    requires StackKept(ExecutePush(Fetched(s, b.pushNext), b.width, b.source).state, u)
    ensures var r := ExecutePop(Fetched(u, b.popNext), b.width, b.target);
            r.fault.None? && StackKept(s, r.state) && Effect(b, s, r.state)
  {
    hide Load, Store, Push, Pop, StackKept, Pushed, SelectRegister, Fetched, Le, FromLe, WellFormedProgram;
    var f, n := Fetched(s, b.pushNext), b.width.Size();
    var v := GetVal(f, b.source).value;
    var data := Le(v, n);
    var o := Push(f, data).value;
    FetchKeepsStack(s, b.pushNext);
    PushIsPushed(f, data);
    FetchKeepsStack(u, b.popNext);
    var g := Fetched(u, b.popNext);
    KeptChain(o, u, g);
    PopAfterKept(f, o, g, data);
    var p, r := Pop(g, n).value.1, SelectRegister(b.target.width, b.target.index).value;
    OffStackIsDisjoint(b.width, b.target);
    FromLeOfLe(v, n);
    ModTwice(v, n);
    StoreKeepsStack(p, r, FromLe(data));
    LoadStored(p.file, r, FromLe(data));
    var t := State(Store(p.file, r, FromLe(data)), p.mem);
    KeptChain(f, p, t);
    KeptChain(s, f, t);
  }

  lemma ModTwice(v: nat, n: nat)
    ensures v % Pow256(n) % Pow256(n) == v % Pow256(n)
  {
    var d: nat := Pow256(n);
    DivModUnique(v % d, d, 0, v % d);
  }

  lemma {:induction false} SaveIgnoresIp(s: State, next: u64, j: nat)
    requires j < |SAVED| && SAVED[j].Exists()
    ensures Load(Fetched(s, next).file, SAVED[j]) == Load(s.file, SAVED[j])
  {
    hide Load, Store;
    SavedAreWide(j);
    SavedIsNotIp(j);
    LoadDisjoint(s.file, InstructionPointer, next, SAVED[j]);
  }

  lemma SavedIsNotIp(j: nat)
    requires j < |SAVED|
    ensures SAVED[j].Exists() && Disjoint(InstructionPointer, SAVED[j])
  {
    SavedSlot(j);
  }

  lemma {:induction false} ClosePreserve(b: Block, s: State, u: State)
    requires b.Preserve? && WellFormedBlock(b)
    requires ExecutePushAll(Fetched(s, b.pushNext)).fault.None?
    requires StackKept(ExecutePushAll(Fetched(s, b.pushNext)).state, u)
    ensures var r := ExecutePopAll(Fetched(u, b.popNext));
            r.fault.None? && StackKept(s, r.state) && Effect(b, s, r.state)
  {
    hide Load, Store, Push, Pop, StackKept, Pushed, Fetched, SaveFrame, RestoreFrame, WellFormedProgram;
    var f := Fetched(s, b.pushNext);
    var data := SaveFrame(f.file, |SAVED|);
    var o := Push(f, data).value;
    FetchKeepsStack(s, b.pushNext);
    PushIsPushed(f, data);
    FetchKeepsStack(u, b.popNext);
    var g := Fetched(u, b.popNext);
    KeptChain(o, u, g);
    PopAfterKept(f, o, g, data);
    var p := Pop(g, 8 * |SAVED|).value.1;
    var t := State(RestoreFrame(p.file, data, |SAVED|), p.mem);
    forall j | 0 <= j < |SAVED| && SAVED[j].Exists()
      ensures Load(t.file, SAVED[j]) == Load(s.file, SAVED[j])
    {
      RestoreUndoesSave(f.file, p.file, j);
      SaveIgnoresIp(s, b.pushNext, j);
    }
    KeptChain(s, f, p);
    SameRegisters(s, p, t);
  }

  lemma SameRegisters(s: State, p: State, t: State)
    requires StackKept(s, p) && t.mem == p.mem
    requires Load(t.file, SAVED[17]) == Load(s.file, SAVED[17]) && Load(t.file, SAVED[18]) == Load(s.file, SAVED[18])
    ensures StackKept(s, t)
  {
    hide Load;
  }

  lemma {:induction false} JumpKeepsStack(s: State, cb: u64, ip: u64)
    ensures StackKept(s, State(JumpFile(s.file, cb, ip), s.mem))
    ensures Load(JumpFile(s.file, cb, ip), CodeBase) == cb && Load(JumpFile(s.file, cb, ip), InstructionPointer) == ip
  {
    hide Load, Store, StackKept;
    var f := Store(s.file, CodeBase, cb);
    StoreKeepsStack(s, CodeBase, cb);
    StoreKeepsStack(State(f, s.mem), InstructionPointer, ip);
    KeptChain(s, State(f, s.mem), State(Store(f, InstructionPointer, ip), s.mem));
    LoadStoredWide(s.file, CodeBase, cb);
    LoadStoredWide(f, InstructionPointer, ip);
    LoadDisjoint(f, InstructionPointer, ip, CodeBase);
  }

  lemma {:induction false} PoppedWord(s: State, t: State, u: State, v: u64)
    requires Pushed(s, t, Le(v, 8)) && StackKept(t, u)
    ensures PopWord(u).Some? && PopWord(u).value.0 == v && StackKept(s, PopWord(u).value.1)
  {
    hide Load, Store, Pop, StackKept, Pushed, Le, FromLe;
    PopAfterKept(s, t, u, Le(v, 8));
    FromLeOfLe(v, 8);
    Pow256Values();
  }

  lemma {:induction false} CloseInvoke(b: Block, s: State, u: State)
    requires b.Invoke? && WellFormedBlock(b)
    requires ExecuteCall(Fetched(s, b.callNext), b.base, b.ip).fault.None?
    requires StackKept(ExecuteCall(Fetched(s, b.callNext), b.base, b.ip).state, u)
    ensures var r := ExecuteRet(Fetched(u, b.retNext));
            r.fault.None? && StackKept(s, r.state) && Effect(b, s, r.state)
  {
    hide Load, Store, Push, PopWord, StackKept, Pushed, Fetched, Le, WellFormedProgram, GetVal, JumpFile;
    var f, called := Fetched(s, b.callNext), ExecuteCall(Fetched(s, b.callNext), b.base, b.ip).state;
    FetchKeepsStack(s, b.callNext);
    var cb, ip := Load(f.file, CodeBase), Load(f.file, InstructionPointer);
    var o1 := Push(f, Le(cb, 8)).value;
    PushIsPushed(f, Le(cb, 8));
    var o2 := Push(o1, Le(ip, 8)).value;
    PushIsPushed(o1, Le(ip, 8));
    JumpKeepsStack(o2, GetVal(o2, b.base).value, GetVal(o2, b.ip).value);
    FetchKeepsStack(u, b.retNext);
    var g := Fetched(u, b.retNext);
    KeptChain(o2, called, u);
    KeptChain(o2, u, g);
    PoppedWord(o1, o2, g, ip);
    PoppedWord(f, o1, PopWord(g).value.1, cb);
    var v := PopWord(PopWord(g).value.1).value.1;
    JumpKeepsStack(v, cb, ip);
    KeptChain(s, f, v);
    KeptChain(s, v, ExecuteRet(g).state);
  }

  // ---- whole runs ----

  lemma {:induction false} RunAppend(s: State, a: seq<Step>, b: seq<Step>)
    ensures
      RunSteps(s, a + b) ==
      match RunSteps(s, a)
      case None => None
      case Some(t) => RunSteps(t, b)
    decreases |a|
  {
    hide Execute, Fetched;
    if a == [] {
      assert a + b == b;
    } else {
      assert (a + b)[0] == a[0] && (a + b)[1..] == a[1..] + b;
      var r := Execute(Fetched(s, a[0].next), a[0].op);
      if r.fault.None? {
        RunAppend(r.state, a[1..], b);
      }
    }
  }

  lemma RunOne(s: State, step: Step)
    ensures
      RunSteps(s, [step]) ==
      var r := Execute(Fetched(s, step.next), step.op);
      if r.fault.Some? then None else Some(r.state)
  {
    hide Execute, Fetched;
  }

  lemma CloseBlock(b: Block, s: State, u: State)
    requires WellFormedBlock(b)
    requires Execute(Fetched(s, Opening(b).next), Opening(b).op).fault.None?
    requires StackKept(Execute(Fetched(s, Opening(b).next), Opening(b).op).state, u)
    ensures var r := Execute(Fetched(u, Closing(b).next), Closing(b).op);
            r.fault.None? && StackKept(s, r.state) && Effect(b, s, r.state)
  {
    hide ExecutePush, ExecutePop, ExecutePushAll, ExecutePopAll, ExecuteCall, ExecuteRet, Fetched, StackKept, Effect;
    match b {
      case Keep(_, _, _, _, _, _) => CloseKeep(b, s, u);
      case Preserve(_, _, _) => ClosePreserve(b, s, u);
      case Invoke(_, _, _, _, _) => CloseInvoke(b, s, u);
    }
  }

  /** A balanced block keeps the stack and has its effect. It faults only where its opening
      instruction or its body does. */
  lemma {:induction false} BlockRun(s: State, b: Block)
    requires WellFormedBlock(b)
    ensures RunSteps(s, FlattenBlock(b)) == None <==> RunSteps(s, [Opening(b)] + Flatten(b.body)) == None
    ensures
      RunSteps(s, FlattenBlock(b)).Some? ==>
        StackKept(s, RunSteps(s, FlattenBlock(b)).value) && Effect(b, s, RunSteps(s, FlattenBlock(b)).value)
    decreases b
  {
    hide Execute, Fetched, StackKept, Effect, RunSteps;
    var begin := [Opening(b)] + Flatten(b.body);
    RunAppend(s, begin, [Closing(b)]);
    RunAppend(s, [Opening(b)], Flatten(b.body));
    RunOne(s, Opening(b));
    var entered := Execute(Fetched(s, Opening(b).next), Opening(b).op);
    if entered.fault.None? {
      BalancedRun(entered.state, b.body);
      var inside := RunSteps(entered.state, Flatten(b.body));
      if inside.Some? {
        CloseBlock(b, s, inside.value);
        RunOne(inside.value, Closing(b));
      }
    }
  }

  /** Any balanced program that runs without a fault leaves stack base and pointer as they
      were and every byte at or above the stack top unchanged. */
  lemma {:induction false} BalancedRun(s: State, p: Program)
    requires WellFormedProgram(p)
    ensures RunSteps(s, Flatten(p)).Some? ==> StackKept(s, RunSteps(s, Flatten(p)).value)
    decreases p
  {
    hide StackKept, Effect, FlattenBlock;
    match p {
      case Empty => KeptByNothing(s);
      case Then(b, rest) =>
        hide RunSteps;
        RunAppend(s, FlattenBlock(b), Flatten(rest));
        BlockRun(s, b);
        var after := RunSteps(s, FlattenBlock(b));
        if after.Some? {
          BalancedRun(after.value, rest);
          if RunSteps(after.value, Flatten(rest)).Some? {
            KeptChain(s, after.value, RunSteps(after.value, Flatten(rest)).value);
          }
        }
    }
  }

  lemma KeptByNothing(s: State)
    ensures StackKept(s, s)
  {
  }

  // ---- overflow ----

  /** A push overflows exactly when the pointer is too small or the bytes would not lie in
      memory, and then nothing has changed. */
  lemma {:induction false} PushOverflows(s: State, w: Width, source: CpuOperand)
    requires GetVal(s, source).Done?
    ensures var (r, n) := (Execute(s, PushOp(w, source)), w.Size());
            && (r.fault.Some? <==> Load(s.file, StackPointer) < n || PushAddress(s.file, n) + n > |s.mem|)
            && (r.fault.Some? ==> r == Result(s, Some(Fault.StackOverflow)))
  {
    hide Load, Store;
    SmallAccess(|s.mem|, PushAddress(s.file, w.Size()), w.Size());
  }

  /** The first thing the instruction does to the stack is refused. */
  predicate FirstAccessFails(s: State, op: Op) {
    match op
    case PopOp(w, _) => Pop(s, w.Size()) == None
    case Call(_, _) => Push(s, Le(Load(s.file, CodeBase), 8)) == None
    case Ret => PopWord(s) == None
    case _ => true
  }

  /** An instruction that faults is undone exactly when its first stack access is what failed:
      pushes, and pops of all registers, always; a pop whose target cannot be written, a call
      that cannot push its second word or read its operands, and a return that cannot pop its
      second word, never. */
  lemma {:induction false} FaultUndoneExactly(s: State, op: Op)
    requires Execute(s, op).fault.Some?
    ensures Execute(s, op).state == s <==> FirstAccessFails(s, op)
  {
    hide Load, Store, Push, Pop, GetVal, SetVal, Le, FromLe, SaveFrame, RestoreFrame, JumpFile;
    match op {
      case PopOp(w, target) =>
        if Pop(s, w.Size()).Some? {
          PopMoves(s, w.Size());
        }
      case Call(base, ip) =>
        if Push(s, Le(Load(s.file, CodeBase), 8)).Some? {
          CallMoves(s, base, ip);
        }
      case Ret =>
        if Pop(s, 8).Some? {
          PopMoves(s, 8);
        }
      case _ =>
    }
  }

  lemma PopMoves(s: State, n: nat)
    requires 0 < n <= 256 && Pop(s, n).Some?
    ensures Load(Pop(s, n).value.1.file, StackPointer) != Load(s.file, StackPointer)
  {
    hide Load, Store, Refuses;
    var sp := Load(s.file, StackPointer);
    WrapMoves(sp, n);
    LoadStoredWide(s.file, StackPointer, Wrap64(sp + n));
  }

  lemma WrapMoves(sp: u64, n: nat)
    requires 0 < n <= 256
    ensures Wrap64(sp + n) != sp
  {
  }

  lemma CallMoves(s: State, base: CpuOperand, ip: CpuOperand)
    requires ExecuteCall(s, base, ip).fault.Some? && Push(s, Le(Load(s.file, CodeBase), 8)).Some?
    ensures Load(ExecuteCall(s, base, ip).state.file, StackPointer) < Load(s.file, StackPointer)
  {
    hide Load, Store, Push, GetVal, Le, JumpFile, TopAddress, PushAddress;
    PushGoesBelowTop(s, Le(Load(s.file, CodeBase), 8));
    var t := Push(s, Le(Load(s.file, CodeBase), 8)).value;
    var word := Le(Load(s.file, InstructionPointer), 8);
    if Push(t, word).Some? {
      PushGoesBelowTop(t, word);
    }
  }

  /** A call whose second push overflows has already moved the stack pointer and stored the
      code base: a failing instruction, unlike a failing push, is not undone. */
  lemma {:induction false} CallOverflowIsNotUndone(s: State, base: CpuOperand, ip: CpuOperand)
    requires 8 <= Load(s.file, StackPointer) < 16 && Push(s, Le(Load(s.file, CodeBase), 8)).Some?
    ensures var (r, t) := (Execute(s, Call(base, ip)), TopAddress(s.file));
            && r.fault == Some(Fault.StackOverflow) && 8 <= t <= |s.mem|
            && Load(r.state.file, StackPointer) == Load(s.file, StackPointer) - 8
            && r.state.mem == Splice(s.mem, t - 8, Le(Load(s.file, CodeBase), 8))
  {
    hide Load, Store, GetVal, Refuses, Push, Le, TopAddress;
    var data := Le(Load(s.file, CodeBase), 8);
    PushGoesBelowTop(s, data);
    var t := Push(s, data).value;
    TooSmallToPush(t, Le(Load(s.file, InstructionPointer), 8));
    TooSmallToPush(t, Le(Load(t.file, InstructionPointer), 8));
  }

  lemma TooSmallToPush(s: State, data: seq<byte>)
    requires |data| == 8 && Load(s.file, StackPointer) < 8
    ensures Push(s, data) == None
  {
    hide Load, Store, Refuses;
  }

  // ---- what stack instructions leave alone ----

  predicate NotSaved(r: Registers.Register) {
    r == CodeBase || r == InstructionPointer || r == SelectorStart || r == SelectorSize
  }

  /** The registers an instruction has no business with. */
  ghost predicate Untouched(op: Op, r: Registers.Register)
    requires r.Exists()
  {
    match op
    case PushOp(_, _) => r != StackPointer
    case PopOp(_, RegisterOperand(width, index)) =>
      r != StackPointer && var q := SelectRegister(width, index); q.Some? && Disjoint(q.value, r)
    case PopOp(_, _) => r != StackPointer
    case PushAll => r != StackPointer
    case PopAll => NotSaved(r)
    case _ => r != StackPointer && r != CodeBase && r != InstructionPointer
  }

  lemma {:induction false} StoreElsewhere(f: RegisterFile, q: Registers.Register, v: u64, r: Registers.Register)
    requires r.Exists() && q.Exists() && q.Size() == 8 && q.Slot() >= 16 && r != q
    ensures Load(Store(f, q, v), r) == Load(f, r)
  {
    OtherRegister(r, q);
    LoadDisjoint(f, q, v, r);
  }

  lemma SavedIsApart(k: nat, r: Registers.Register)
    requires k < |SAVED| && NotSaved(r)
    ensures SAVED[k].Exists() && Disjoint(SAVED[k], r)
  {
    SavedAreWide(k);
    OtherRegister(SAVED[k], r);
  }

  lemma {:induction false} RestoreElsewhere(f: RegisterFile, frame: seq<byte>, k: nat, r: Registers.Register)
    requires k <= |SAVED| && |frame| == 8 * |SAVED| && NotSaved(r)
    ensures Load(RestoreFrame(f, frame, k), r) == Load(f, r)
    decreases k
  {
    hide Load, Store, FrameWord, Disjoint;
    if k > 0 {
      SavedIsApart(k - 1, r);
      RestoreElsewhere(f, frame, k - 1, r);
      LoadDisjoint(RestoreFrame(f, frame, k - 1), SAVED[k - 1], FrameWord(frame, k - 1), r);
    }
  }

  lemma {:induction false} JumpElsewhere(f: RegisterFile, cb: u64, ip: u64, r: Registers.Register)
    requires r.Exists() && r != CodeBase && r != InstructionPointer
    ensures Load(JumpFile(f, cb, ip), r) == Load(f, r)
  {
    hide Load, Store;
    StoreElsewhere(f, CodeBase, cb, r);
    StoreElsewhere(Store(f, CodeBase, cb), InstructionPointer, ip, r);
  }

  lemma {:induction false} PopElsewhere(s: State, n: nat, r: Registers.Register)
    requires n <= 256 && Pop(s, n).Some? && r.Exists() && r != StackPointer
    ensures Load(Pop(s, n).value.1.file, r) == Load(s.file, r)
  {
    hide Load, Store, Refuses;
    StoreElsewhere(s.file, StackPointer, Wrap64(Load(s.file, StackPointer) + n), r);
  }

  /** Every stack instruction leaves all registers alone but those it is about. */
  lemma {:induction false} OtherRegistersKept(s: State, op: Op, r: Registers.Register)
    requires r.Exists() && Untouched(op, r) && Execute(s, op).fault.None?
    ensures Load(Execute(s, op).state.file, r) == Load(s.file, r)
  {
    hide Load, Store, Push, Pop, JumpFile, RestoreFrame, SaveFrame, GetVal, Le, FromLe, SelectRegister, Refuses;
    match op {
      case PushOp(w, source) => PushKeepsRegister(s, Le(GetVal(s, source).value, w.Size()), r);
      case PushAll => PushKeepsRegister(s, SaveFrame(s.file, |SAVED|), r);
      case PopOp(w, target) =>
        PopElsewhere(s, w.Size(), r);
        var (data, t) := Pop(s, w.Size()).value;
        PoppedFits(data, w.Size());
        if target.RegisterOperand? {
          LoadDisjoint(t.file, SelectRegister(target.width, target.index).value, FromLe(data), r);
        }
      case PopAll =>
        PopElsewhere(s, 8 * |SAVED|, r);
        var (data, t) := Pop(s, 8 * |SAVED|).value;
        RestoreElsewhere(t.file, data, |SAVED|, r);
      case Call(base, ip) => CallElsewhere(s, base, ip, r);
      case Ret => RetElsewhere(s, r);
    }
  }

  lemma PoppedFits(data: seq<byte>, n: nat)
    requires |data| == n && n in {1, 2, 4, 8}
    ensures FromLe(data) < TWO64
  {
    FromLeBound(data);
    Pow256Values();
  }

  lemma CallElsewhere(s: State, base: CpuOperand, ip: CpuOperand, r: Registers.Register)
    requires r.Exists() && r != StackPointer && r != CodeBase && r != InstructionPointer
             && ExecuteCall(s, base, ip).fault.None?
    ensures Load(ExecuteCall(s, base, ip).state.file, r) == Load(s.file, r)
  {
    hide Load, Store, Push, JumpFile, GetVal, Le;
    var cb := Le(Load(s.file, CodeBase), 8);
    PushKeepsRegister(s, cb, r);
    var t := Push(s, cb).value;
    PushKeepsRegister(t, Le(Load(s.file, InstructionPointer), 8), r);
    var u := Push(t, Le(Load(s.file, InstructionPointer), 8)).value;
    JumpElsewhere(u.file, GetVal(u, base).value, GetVal(u, ip).value, r);
  }

  lemma RetElsewhere(s: State, r: Registers.Register)
    requires r.Exists() && r != StackPointer && r != CodeBase && r != InstructionPointer && ExecuteRet(s).fault.None?
    ensures Load(ExecuteRet(s).state.file, r) == Load(s.file, r)
  {
    hide Load, Store, Pop, JumpFile, FromLe;
    PopElsewhere(s, 8, r);
    var (ip, t) := PopWord(s).value;
    PopElsewhere(t, 8, r);
    var (cb, u) := PopWord(t).value;
    JumpElsewhere(u.file, cb, ip, r);
  }
}
