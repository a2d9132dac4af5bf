/** Interrupt handlers as programs: what an interrupted program finds when they have run. */
module Handlers {
  import opened Bytes
  import opened Registers
  import opened Machine
  import opened StackOperations
  import opened StackRuns
  import opened Interrupts

  /** A handler's body: stretches of balanced stack programs, pairs of opening and closing stack
      instructions around more of it, and interrupts taken anywhere in between, each with the body
      of its own handler and the fetch of the `iret` that ends it. */
  datatype Handler =
    | Done
    | Stretch(program: Program, rest: Handler)
    | Around(pair: Block, inner: Handler, rest: Handler)
    | Interrupted(code: nat, inner: Handler, iretNext: u64, rest: Handler)

  predicate WellFormedHandler(h: Handler) {
    match h
    case Done => true
    case Stretch(p, rest) => WellFormedProgram(p) && WellFormedHandler(rest)
    case Around(b, inner, rest) =>
      b.body == Empty && WellFormedBlock(b) && WellFormedHandler(inner) && WellFormedHandler(rest)
    case Interrupted(_, inner, _, rest) => WellFormedHandler(inner) && WellFormedHandler(rest)
  }

  /** The codes whose handlers are entered with a frame on the stack. */
  predicate PushesFrame(code: nat) {
    code != 0x00 && code != 0x07
  }

  /** One interrupt: entry, handler, return; none when something in it faults. One that is
      masked or answered by a service runs no handler. */
  function Serve(s: State, code: nat, inner: Handler, iretNext: u64): Option<State>
    decreases inner, 1
  {
    var (outcome, t) := Interrupt(s, code);
    if outcome == Ignored || outcome == Serviced then Some(t)
    else if outcome != Jumped || !PushesFrame(code) then None
    else
      match RunHandler(t, inner)
      case None => None
      case Some(u) => ReturnFromInterrupt(Fetched(u, iretNext))
  }

  function RunHandler(s: State, h: Handler): Option<State>
    decreases h, 0
  {
    match h
    case Done => Some(s)
    case Stretch(p, rest) =>
      (match RunSteps(s, Flatten(p))
       case None => None
       case Some(t) => RunHandler(t, rest))
    case Around(b, inner, rest) =>
      (match RunPair(s, b, inner)
       case None => None
       case Some(t) => RunHandler(t, rest))
    case Interrupted(code, inner, iretNext, rest) =>
      match Serve(s, code, inner, iretNext)
      case None => None
      case Some(t) => RunHandler(t, rest)
  }

  function RunPair(s: State, b: Block, inner: Handler): Option<State>
    decreases inner, 1
  {
    match RunSteps(s, [Opening(b)])
    case None => None
    case Some(t) =>
      match RunHandler(t, inner)
      case None => None
      case Some(u) => RunSteps(u, [Closing(b)])
  }

  lemma {:induction false} EntryPushed(s: State, code: nat)
    requires Interrupt(s, code).0 == Jumped && PushesFrame(code)
    ensures Push(s, s.file).Some?
    ensures Pushed(s, Push(s, s.file).value, s.file)
    ensures StackKept(Push(s, s.file).value, Interrupt(s, code).1)
  {
    hide Load, Store, JumpTo, MaskInterrupts, Push, Pushed, Masked;
    assert Push(s, s.file).Some?;
    var t := Push(s, s.file).value;
    PushIsPushed(s, s.file);
    JumpFacts(t.file, s.mem, code);
  }

  /** A return finds the frame of its entry when the handler kept the stack, and with it the
      whole register file; memory from the old stack top up is as it was. */
  lemma {:induction false} ReturnAfterKept(s: State, code: nat, u: State, iretNext: u64)
    requires Interrupt(s, code).0 == Jumped && PushesFrame(code) && StackKept(Interrupt(s, code).1, u)
    ensures var r := ReturnFromInterrupt(Fetched(u, iretNext));
            r.Some? && r.value.file == s.file && SameFrom(s.mem, r.value.mem, TopAddress(s.file))
  {
    hide Load, Store, Interrupt, Push, Pop, Pushed, StackKept, Fetched;
    EntryPushed(s, code);
    var pushed, v := Push(s, s.file).value, Fetched(u, iretNext);
    FetchKeepsStack(u, iretNext);
    KeptChain(pushed, Interrupt(s, code).1, u);
    KeptChain(pushed, u, v);
    PopAfterKept(s, pushed, v, s.file);
    KeptFrom(s, Pop(v, REGISTER_FILE_SIZE).value.1);
  }

  lemma KeptFrom(s: State, t: State)
    requires StackKept(s, t)
    ensures SameFrom(s.mem, t.mem, TopAddress(s.file))
  {
  }

  lemma FileKept(s: State, t: State)
    requires t.file == s.file && SameFrom(s.mem, t.mem, TopAddress(s.file))
    ensures StackKept(s, t)
  {
  }

  /** Whatever a handler does in balanced stretches and nested interrupts, the interrupted
      program gets its whole register file back, and memory from its stack top up. */
  lemma {:induction false} InterruptRestores(s: State, code: nat, inner: Handler, iretNext: u64)
    requires WellFormedHandler(inner) && Serve(s, code, inner, iretNext).Some?
    ensures var t := Serve(s, code, inner, iretNext).value;
            t.file == s.file && SameFrom(s.mem, t.mem, TopAddress(s.file))
    decreases inner, 1
  {
    hide Interrupt, ReturnFromInterrupt, Fetched, StackKept, TopAddress;
    var (o, t) := Interrupt(s, code);
    if o == Jumped {
      HandlerKeepsStack(t, inner);
      ReturnAfterKept(s, code, RunHandler(t, inner).value, iretNext);
    } else {
      NotDispatched(s, code);
    }
  }

  lemma NotDispatched(s: State, code: nat)
    requires Interrupt(s, code).0 == Ignored || Interrupt(s, code).0 == Serviced
    ensures Interrupt(s, code).1 == s
  {
    hide Push, JumpTo, MaskInterrupts;
  }

  lemma {:induction false} HandlerKeepsStack(s: State, h: Handler)
    requires WellFormedHandler(h) && RunHandler(s, h).Some?
    ensures StackKept(s, RunHandler(s, h).value)
    decreases h, 0
  {
    hide StackKept, Serve, RunPair, RunSteps, SameFrom, TopAddress;
    match h {
      case Done => KeptByNothing(s);
      case Stretch(p, rest) =>
        BalancedRun(s, p);
        var t := RunSteps(s, Flatten(p)).value;
        HandlerKeepsStack(t, rest);
        KeptChain(s, t, RunHandler(t, rest).value);
      case Around(b, inner, rest) =>
        PairKeepsStack(s, b, inner);
        var t := RunPair(s, b, inner).value;
        HandlerKeepsStack(t, rest);
        KeptChain(s, t, RunHandler(t, rest).value);
      case Interrupted(code, inner, iretNext, rest) =>
        InterruptRestores(s, code, inner, iretNext);
        var t := Serve(s, code, inner, iretNext).value;
        FileKept(s, t);
        HandlerKeepsStack(t, rest);
        KeptChain(s, t, RunHandler(t, rest).value);
    }
  }

  lemma {:induction false} PairKeepsStack(s: State, b: Block, inner: Handler)
    requires WellFormedBlock(b) && WellFormedHandler(inner) && RunPair(s, b, inner).Some?
    ensures StackKept(s, RunPair(s, b, inner).value)
    decreases inner, 1
  {
    hide StackKept, RunSteps, Execute, Fetched, Effect;
    RunOne(s, Opening(b));
    var t := RunSteps(s, [Opening(b)]).value;
    HandlerKeepsStack(t, inner);
    var u := RunHandler(t, inner).value;
    CloseBlock(b, s, u);
    RunOne(u, Closing(b));
  }

  /** An interrupt that is entered and whose handler runs through does return. */
  lemma {:induction false} InterruptReturns(s: State, code: nat, inner: Handler, iretNext: u64)
    requires WellFormedHandler(inner) && Interrupt(s, code).0 == Jumped && PushesFrame(code)
    ensures Serve(s, code, inner, iretNext).Some? <==> RunHandler(Interrupt(s, code).1, inner).Some?
  {
    hide Interrupt, ReturnFromInterrupt, Fetched, StackKept, RunHandler;
    var t := Interrupt(s, code).1;
    if RunHandler(t, inner).Some? {
      HandlerKeepsStack(t, inner);
      ReturnAfterKept(s, code, RunHandler(t, inner).value, iretNext);
    }
  }
}
