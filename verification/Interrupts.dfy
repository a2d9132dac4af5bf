/** Interrupt dispatch and nesting over whole runs. */
module Interrupts {
  import opened Bytes
  import opened Registers
  import opened CpuDecoder
  import opened Machine

  lemma {:induction false} JumpFacts(f: RegisterFile, mem: FlatMemory, code: nat)
    requires code < 256 && |mem| >= MINIMAL_MEMORY
    ensures var g := JumpTo(MaskInterrupts(f), mem, code);
            && Masked(Load(g, Flags))
            && Load(g, CodeBase) == Word(mem, VectorOffset(code))
            && Load(g, InstructionPointer) == Word(mem, VectorOffset(code) + 8)
            && Load(g, StackPointer) == Load(f, StackPointer) && Load(g, StackBase) == Load(f, StackBase)
  {
    hide Load, Store, Word, SetMask, Masked;
    var o := VectorOffset(code);
    var m := MaskInterrupts(f);
    var n := Store(m, CodeBase, Word(mem, o));
    var mask := SetMask(Load(f, Flags));
    assert Masked(mask);
    LoadStoredWide(f, Flags, mask);
    LoadDisjoint(f, Flags, mask, StackPointer);
    LoadDisjoint(f, Flags, mask, StackBase);
    LoadStoredWide(m, CodeBase, Word(mem, o));
    LoadDisjoint(m, CodeBase, Word(mem, o), Flags);
    LoadDisjoint(m, CodeBase, Word(mem, o), StackPointer);
    LoadDisjoint(m, CodeBase, Word(mem, o), StackBase);
    LoadStoredWide(n, InstructionPointer, Word(mem, o + 8));
    LoadDisjoint(n, InstructionPointer, Word(mem, o + 8), Flags);
    LoadDisjoint(n, InstructionPointer, Word(mem, o + 8), CodeBase);
    LoadDisjoint(n, InstructionPointer, Word(mem, o + 8), StackPointer);
    LoadDisjoint(n, InstructionPointer, Word(mem, o + 8), StackBase);
  }

  /** Flags differ by the mask at most, and only CB, IP and SP otherwise. */
  ghost predicate OnlyControlChanged(f: RegisterFile, g: RegisterFile) {
    && Load(g, Flags) == SetMask(Load(f, Flags))
    && forall r: Registers.Register ::
         r.Exists() && r != Flags && r != CodeBase && r != InstructionPointer && r != StackPointer ==>
           Load(g, r) == Load(f, r)
  }

  lemma {:induction false} JumpKeepsRegisters(f: RegisterFile, mem: FlatMemory, code: nat, r: Registers.Register)
    requires code < 256 && |mem| >= MINIMAL_MEMORY
    requires r.Exists() && r != Flags && r != CodeBase && r != InstructionPointer
    ensures Load(JumpTo(MaskInterrupts(f), mem, code), r) == Load(f, r)
    ensures Load(JumpTo(MaskInterrupts(f), mem, code), Flags) == SetMask(Load(f, Flags))
  {
    hide Load, Store, Word, SetMask;
    var o, mask := VectorOffset(code), SetMask(Load(f, Flags));
    var m := MaskInterrupts(f);
    var n := Store(m, CodeBase, Word(mem, o));
    OtherRegister(r, Flags);
    OtherRegister(r, CodeBase);
    OtherRegister(r, InstructionPointer);
    LoadDisjoint(f, Flags, mask, r);
    LoadDisjoint(m, CodeBase, Word(mem, o), r);
    LoadDisjoint(n, InstructionPointer, Word(mem, o + 8), r);
    LoadStoredWide(f, Flags, mask);
    LoadDisjoint(m, CodeBase, Word(mem, o), Flags);
    LoadDisjoint(n, InstructionPointer, Word(mem, o + 8), Flags);
  }

  /** An interrupt that is dispatched changes the control registers and nothing else. */
  lemma {:induction false} DispatchKeepsRegisters(s: State, code: nat)
    requires Interrupt(s, code).0 == Jumped || Interrupt(s, code).0 == Aborted
    ensures OnlyControlChanged(s.file, Interrupt(s, code).1.file)
  {
    hide Load, Store, JumpTo, MaskInterrupts, Push, Masked, SetMask;
    var (o, t) := Interrupt(s, code);
    var vector := if o == Aborted then 0x07 else code;
    var f := if o == Jumped && code != 0x00 && code != 0x07 then Push(s, s.file).value.file else s.file;
    assert t.file == JumpTo(MaskInterrupts(f), s.mem, vector);
    forall r: Registers.Register | r.Exists() && r != CodeBase && r != InstructionPointer && r != StackPointer
      ensures Load(f, r) == Load(s.file, r)
    {
      if f != s.file {
        PushKeepsRegister(s, s.file, r);
      }
    }
    JumpKeepsRegisters(f, s.mem, vector, StackBase);
    forall r: Registers.Register | r.Exists() && r != Flags && r != CodeBase && r != InstructionPointer
      && r != StackPointer
      ensures Load(t.file, r) == Load(s.file, r)
    {
      JumpKeepsRegisters(f, s.mem, vector, r);
    }
  }

  /** Exactly one frame was pushed: the old register file, just below the old stack top. */
  ghost predicate OneFramePushed(s: State, t: State) {
    var top := Wrap64(Load(s.file, StackBase) + Load(s.file, StackPointer));
    && REGISTER_FILE_SIZE <= top <= |s.mem|
    && t.mem == Splice(s.mem, top - REGISTER_FILE_SIZE, s.file)
    && Load(t.file, StackPointer) == Load(s.file, StackPointer) - REGISTER_FILE_SIZE
  }

  /** Masked, and at the target the vector table in memory gives for the code: 16 bytes each,
      code base before instruction pointer, lowest byte first. */
  ghost predicate AtVector(t: State, mem: FlatMemory, code: nat)
    requires code < 256 && |mem| >= MINIMAL_MEMORY
  {
    var entry := 0xA0000 + 16 * code;
    && Load(t.file, CodeBase) == FromLe(mem[entry..entry + 8])
    && Load(t.file, InstructionPointer) == FromLe(mem[entry + 8..entry + 16])
    && Masked(Load(t.file, Flags))
  }

  lemma VectorWords(mem: FlatMemory, code: nat)
    requires code < 256 && |mem| >= MINIMAL_MEMORY
    ensures var entry := 0xA0000 + 16 * code;
            && Word(mem, VectorOffset(code)) == FromLe(mem[entry..entry + 8])
            && Word(mem, VectorOffset(code) + 8) == FromLe(mem[entry + 8..entry + 16])
  {
    hide FromLe;
  }

  /** Masking and jumping, from whatever register file. */
  lemma {:induction false} LandsAtVector(f: RegisterFile, s: State, code: nat)
    requires code < 256
    ensures var g := JumpTo(MaskInterrupts(f), s.mem, code);
            && (forall mem | |mem| >= MINIMAL_MEMORY :: AtVector(State(g, mem), s.mem, code))
            && Load(g, StackPointer) == Load(f, StackPointer)
  {
    hide Load, JumpTo, MaskInterrupts, Masked, Word, FromLe;
    VectorWords(s.mem, code);
    JumpFacts(f, s.mem, code);
  }

  /** An entry with a frame. */
  lemma {:induction false} LandsWithFrame(s: State, code: nat)
    requires code < 256 && Push(s, s.file).Some?
    ensures var t := EnterWithFrame(s, code);
            t.Some? && OneFramePushed(s, t.value) && AtVector(t.value, s.mem, code)
  {
    hide Load, Store, JumpTo, MaskInterrupts, Push, AtVector, Splice;
    PushGoesBelowTop(s, s.file);
    LandsAtVector(Push(s, s.file).value.file, s, code);
  }

  /** An entry without one. */
  lemma {:induction false} LandsWithoutFrame(s: State, code: nat)
    requires code < 256
    ensures var t := EnterWithoutFrame(s, code);
            t.mem == s.mem && Load(t.file, StackPointer) == Load(s.file, StackPointer) && AtVector(t, s.mem, code)
  {
    hide Load, JumpTo, MaskInterrupts, AtVector;
    LandsAtVector(s.file, s, code);
  }

  /** The codes 0x10 to 0x19 and no others go to the screen and keyboard services. */
  lemma {:induction false} ServicesExactly(s: State, code: nat)
    ensures Interrupt(s, code).0 == Serviced <==> 0x10 <= code <= 0x19
    ensures 0x10 <= code <= 0x19 ==> Interrupt(s, code).1 == s
  {
    hide Load, JumpTo, MaskInterrupts, Push, Masked;
  }

  /** A code without a handler of its own is dispatched at most once: always for the low
      codes, only unmasked for the others, and with nothing but the mask and the jump to
      the stack overflow vector when the frame does not fit. */
  lemma {:induction false} DispatchOnce(s: State, code: nat)
    requires code != 0x00 && code != 0x03 && code != 0x07 && !(0x10 <= code <= 0x19)
    ensures var (o, t) := Interrupt(s, code);
            && (code > 0x100 <==> o == BadInterruption)
            && (o == Ignored <==> 0x1F < code <= 0x100 && Masked(Load(s.file, Flags)))
            && (o == OutOfRange <==> code == 0x100 && !Masked(Load(s.file, Flags)))
            && (o == Jumped || o == Aborted || t == s)
            && (o == Jumped ==> code < 256 && OneFramePushed(s, t) && AtVector(t, s.mem, code))
            && (o == Aborted ==>
                  && t.mem == s.mem && Load(t.file, StackPointer) == Load(s.file, StackPointer)
                  && AtVector(t, s.mem, 0x07) && Push(s, s.file) == None)
            && (code < 0x100 && (code <= 0x1F || !Masked(Load(s.file, Flags))) ==>
                  o == if Push(s, s.file).Some? then Jumped else Aborted)
  {
    hide Load, EnterWithoutFrame, OneFramePushed, AtVector, JumpTo, MaskInterrupts, Push, Masked;
    if code < 256 {
      LandsWithoutFrame(s, 0x07);
      if Push(s, s.file).Some? {
        LandsWithFrame(s, code);
      }
    }
  }

  /** The handlers of their own: fatal error and stack overflow never use the stack, the
      debugger's pushes one frame or reports that there is no room and changes nothing. */
  lemma {:induction false} DedicatedHandlers(s: State, code: nat)
    requires code == 0x00 || code == 0x03 || code == 0x07
    ensures var (o, t) := Interrupt(s, code);
            && (o == Overflowed <==> code == 0x03 && Push(s, s.file) == None)
            && (o == Overflowed ==> t == s)
            && (o != Overflowed ==> o == Jumped && AtVector(t, s.mem, code))
            && (o == Jumped && code == 0x03 ==> OneFramePushed(s, t))
            && (code != 0x03 ==> t.mem == s.mem && Load(t.file, StackPointer) == Load(s.file, StackPointer))
  {
    hide Load, EnterWithoutFrame, OneFramePushed, AtVector, JumpTo, MaskInterrupts, Push, Masked;
    LandsWithoutFrame(s, code);
    if code == 0x03 && Push(s, s.file).Some? {
      LandsWithFrame(s, code);
    }
  }

  /** The lookup of every code that reaches it stays inside the vector table. */
  lemma LookupStaysInTable(code: nat)
    ensures VectorOffset(code) < INTERRUPTION_VEC_ED <==> code < 256
    ensures code < 256 ==> INTERRUPTION_VECTOR <= VectorOffset(code)
    ensures code < 256 ==> VectorOffset(code) + 16 <= INTERRUPTION_VEC_ED + 1
  {
  }

  // ---- runs ----

  datatype Event = Enter(code: nat) | Return | Local

  datatype Frame = Frame(at: nat, file: RegisterFile)

  ghost predicate IsRun(states: seq<State>, events: seq<Event>) {
    |states| == |events| + 1
  }

  ghost function LiveAfter(s: State, e: Event, live: seq<Frame>): seq<Frame> {
    match e
    case Enter(_) => [Frame(Wrap64(TopAddress(s.file) - REGISTER_FILE_SIZE), s.file)] + live
    case Return => if live == [] then [] else live[1..]
    case Local => live
  }

  /** The frames pushed and not yet returned from before step `k`, innermost first. */
  ghost function Live(states: seq<State>, events: seq<Event>, k: nat): (frames: seq<Frame>)
    requires IsRun(states, events) && k <= |events|
  {
    if k == 0 then [] else LiveAfter(states[k - 1], events[k - 1], Live(states, events, k - 1))
  }

  ghost predicate Holds(mem: FlatMemory, f: Frame) {
    f.at + REGISTER_FILE_SIZE <= |mem| && mem[f.at..f.at + REGISTER_FILE_SIZE] == f.file
  }

  ghost predicate Apart(a: nat, b: nat) {
    a + REGISTER_FILE_SIZE <= b || b + REGISTER_FILE_SIZE <= a
  }

  /** Entries push a frame clear of the live ones, returns find the stack where the matching
      entry left it, and everything else leaves the live frames' bytes alone. */
  ghost predicate StepAllowed(s: State, e: Event, t: State, live: seq<Frame>) {
    match e
    case Enter(code) =>
      && Interrupt(s, code) == (Jumped, t) && code != 0x00 && code != 0x07
      && forall f :: f in live ==> Apart(f.at, Wrap64(TopAddress(s.file) - REGISTER_FILE_SIZE))
    case Return =>
      live != [] && TopAddress(s.file) == live[0].at && ReturnFromInterrupt(s) == Some(t)
    case Local =>
      |t.mem| == |s.mem| && forall f :: f in live && Holds(s.mem, f) ==> Holds(t.mem, f)
  }

  ghost predicate WellBehaved(states: seq<State>, events: seq<Event>) {
    && IsRun(states, events)
    && forall k :: 0 <= k < |events| ==> StepAllowed(states[k], events[k], states[k + 1], Live(states, events, k))
  }

  lemma {:induction false} EntryKeepsFrames(s: State, code: nat, t: State, live: seq<Frame>)
    requires StepAllowed(s, Enter(code), t, live)
    requires forall f :: f in live ==> Holds(s.mem, f)
    ensures Holds(t.mem, Frame(Wrap64(TopAddress(s.file) - REGISTER_FILE_SIZE), s.file))
    ensures forall f :: f in live ==> Holds(t.mem, f)
  {
    hide Load, Store, JumpTo, MaskInterrupts, Push, Holds, Apart, TopAddress;
    PushGoesBelowTop(s, s.file);
    var at := TopAddress(s.file) - REGISTER_FILE_SIZE;
    assert Wrap64(at) == at && t.mem == Splice(s.mem, at, s.file);
    PushedFrameHolds(s.mem, at, s.file);
    forall f | f in live
      ensures Holds(t.mem, f)
    {
      OtherFramesHold(s.mem, at, s.file, f);
    }
  }

  lemma PushedFrameHolds(mem: FlatMemory, at: nat, file: RegisterFile)
    requires at + REGISTER_FILE_SIZE <= |mem|
    ensures Holds(Splice(mem, at, file), Frame(at, file))
  {
  }

  lemma OtherFramesHold(mem: FlatMemory, at: nat, file: RegisterFile, f: Frame)
    requires at + REGISTER_FILE_SIZE <= |mem| && Holds(mem, f) && Apart(f.at, at)
    ensures Holds(Splice(mem, at, file), f)
  {
    WindowAvoidsSplice(mem, f.at, f.at + REGISTER_FILE_SIZE, at, file);
  }

  lemma {:induction false} StepKeepsFrames(s: State, e: Event, t: State, live: seq<Frame>)
    requires StepAllowed(s, e, t, live)
    requires forall f :: f in live ==> Holds(s.mem, f)
    ensures forall f :: f in LiveAfter(s, e, live) ==> Holds(t.mem, f)
  {
    hide Holds, TopAddress, Wrap64, Interrupt;
    match e {
      case Enter(code) => EntryKeepsFrames(s, code, t, live);
      case Return => assert t.mem == s.mem;
      case Local =>
    }
  }

  /** Every live frame still holds the register file it saved, at every point of the run. */
  lemma {:induction false} FramesSurvive(states: seq<State>, events: seq<Event>, k: nat)
    requires WellBehaved(states, events) && k <= |events|
    ensures forall f :: f in Live(states, events, k) ==> Holds(states[k].mem, f)
  {
    hide Holds, StepAllowed, LiveAfter;
    if k > 0 {
      FramesSurvive(states, events, k - 1);
      StepKeepsFrames(states[k - 1], events[k - 1], states[k], Live(states, events, k - 1));
    }
  }

  /** `outer` are the outermost of the live frames. */
  ghost predicate Outermost(outer: seq<Frame>, live: seq<Frame>) {
    |outer| <= |live| && live[|live| - |outer|..] == outer
  }

  /** Outermost frames survive any step that keeps at least as many. */
  lemma OuterFramesKept(s: State, e: Event, live: seq<Frame>, outer: seq<Frame>)
    requires Outermost(outer, live) && |outer| <= |LiveAfter(s, e, live)|
    ensures Outermost(outer, LiveAfter(s, e, live))
  {
    hide TopAddress, Wrap64;
    var after := LiveAfter(s, e, live);
    if e.Enter? {
      assert after[1..] == live;
      assert after[|after| - |outer|..] == live[|live| - |outer|..];
    } else if e.Return? {
      assert after[|after| - |outer|..] == live[|live| - |outer|..];
    }
  }

  /** While the depth stays above an entry's, the frames up to that entry's stay put. */
  lemma {:induction false} OuterFramesStay(states: seq<State>, events: seq<Event>, i: nat, k: nat)
    requires IsRun(states, events) && i < k <= |events|
    requires forall n :: i < n <= k ==> |Live(states, events, n)| > |Live(states, events, i)|
    requires events[i].Enter?
    ensures Outermost(Live(states, events, i + 1), Live(states, events, k))
    decreases k
  {
    hide Outermost, LiveAfter;
    var outer := Live(states, events, i + 1);
    EntryDeepens(states[i], events[i], Live(states, events, i));
    if k == i + 1 {
      assert Outermost(outer, outer) by { OutermostItself(outer); }
    } else {
      OuterFramesStay(states, events, i, k - 1);
      assert |Live(states, events, k)| > |Live(states, events, i)|;
      OuterFramesKept(states[k - 1], events[k - 1], Live(states, events, k - 1), outer);
    }
  }

  lemma EntryDeepens(s: State, e: Event, live: seq<Frame>)
    requires e.Enter?
    ensures |LiveAfter(s, e, live)| == |live| + 1
    ensures LiveAfter(s, e, live)[0].file == s.file
  {
  }

  lemma OutermostItself(live: seq<Frame>)
    ensures Outermost(live, live)
  {
  }

  /** At any depth, a return restores the register file its matching entry saved: flags and
      mask, stack and code registers and all general registers. */
  lemma {:induction false} ReturnRestoresEntry(states: seq<State>, events: seq<Event>, i: nat, j: nat)
    requires WellBehaved(states, events) && i < j < |events|
    requires events[i].Enter? && events[j].Return?
    requires forall n :: i < n <= j ==> |Live(states, events, n)| > |Live(states, events, i)|
    requires |Live(states, events, j + 1)| == |Live(states, events, i)|
    ensures states[j + 1].file == states[i].file
  {
    hide TopAddress, Interrupt;
    OuterFramesStay(states, events, i, j);
    FramesSurvive(states, events, j);
    var live := Live(states, events, j);
    assert StepAllowed(states[j], events[j], states[j + 1], live);
    EntryDeepens(states[i], events[i], Live(states, events, i));
    assert live == Live(states, events, i + 1);
    assert Holds(states[j].mem, live[0]);
  }
}
