/** The locked sections of the interleaved system against what they do as a whole. */
module DrainRefinement {
  import opened Bytes
  import opened Registers
  import opened Memory
  import opened Machine
  import opened ExternalInterrupts

  // ---- the CPU's drain ----

  /** A drain under way, begun in `start`: what is left of it ends where the whole ends. */
  ghost predicate OnCourse(w: World, start: World) {
    var d := Drain(start.machine, start.queue, start.flag);
    match w.holder
    case Draining(n) => w.queue == start.queue && n <= |w.queue| && Drain(w.machine, w.queue[n..], w.flag) == d
    case Offered(n) => w.queue == start.queue && n < |w.queue| && Drain(w.machine, w.queue[n + 1..], false) == d
    case Recovering => d == Drained(Interrupt(w.machine, 0x07).1, w.flag, true)
    case DrainOver => d.state == w.machine && d.flag == w.flag
    case Cleared => d.state == w.machine && d.flag == w.flag && w.queue == []
    case _ => false
  }

  lemma {:induction false} OfferStaysOnCourse(w: World, start: World)
    requires OnCourse(w, start) && Next(w, Offer).Some?
    ensures OnCourse(Next(w, Offer).value, start)
  {
    hide Interrupt;
    var n := w.holder.next;
    assert w.queue[n..][1..] == w.queue[n + 1..];
  }

  lemma {:induction false} StaysOnCourse(w: World, start: World, a: Action)
    requires OnCourse(w, start) && Next(w, a).Some? && CpuHolds(Next(w, a).value.holder)
    ensures OnCourse(Next(w, a).value, start)
  {
    hide Interrupt, DeviceCode;
    match a {
      case Offer => OfferStaysOnCourse(w, start);
      case Clear => assert w.queue[|w.queue|..] == [];
      case _ =>
    }
  }

  lemma LockStarts(w: World)
    requires Next(w, CpuLock).Some?
    ensures OnCourse(Next(w, CpuLock).value, w)
  {
    hide Drain, DeviceCode, Interrupt;
    assert w.queue[0..] == w.queue;
  }

  lemma {:induction false} OnCourseUntil(worlds: seq<World>, actions: seq<Action>, i: nat, j: nat)
    requires IsRunOf(worlds, actions) && i < j <= |actions| && actions[i] == CpuLock
    requires forall k :: i < k <= j ==> CpuHolds(worlds[k].holder)
    ensures OnCourse(worlds[j], worlds[i])
    decreases j
  {
    hide OnCourse, Initial, Next, CpuHolds;
    assert Next(worlds[j - 1], actions[j - 1]) == Some(worlds[j - 1 + 1]);
    if j == i + 1 {
      LockStarts(worlds[i]);
    } else {
      OnCourseUntil(worlds, actions, i, j - 1);
      StaysOnCourse(worlds[j - 1], worlds[i], actions[j - 1]);
    }
  }

  /** Whatever devices do in between, from the CPU's lock to its unlock the machine and the
      flag go through exactly the drain of the queue found at the lock. */
  lemma {:induction false} DrainIsAtomic(worlds: seq<World>, actions: seq<Action>, i: nat, j: nat)
    requires IsRunOf(worlds, actions) && i < j < |actions| && actions[i] == CpuLock
    requires (forall k :: i < k <= j ==> CpuHolds(worlds[k].holder)) && !CpuHolds(worlds[j + 1].holder)
    ensures var (d, v) := (Drain(worlds[i].machine, worlds[i].queue, worlds[i].flag), worlds[j + 1]);
            v.machine == d.state && v.flag == d.flag && v.queue == [] && v.holder.Free?
  {
    hide OnCourse, Initial, Next, CpuHolds;
    OnCourseUntil(worlds, actions, i, j);
    assert Next(worlds[j], actions[j]) == Some(worlds[j + 1]);
    DrainEnds(worlds[j], worlds[i], actions[j]);
  }

  lemma DrainEnds(w: World, start: World, a: Action)
    requires OnCourse(w, start) && Next(w, a).Some? && !CpuHolds(Next(w, a).value.holder)
    ensures var (d, v) := (Drain(start.machine, start.queue, start.flag), Next(w, a).value);
            v.machine == d.state && v.flag == d.flag && v.queue == [] && v.holder.Free?
  {
    hide Drain, DeviceCode, Interrupt;
  }

  // ---- a drain can always be run to its end ----

  function RunActions(w: World, actions: seq<Action>): Option<World>
    decreases |actions|
  {
    if actions == [] then Some(w)
    else
      match Next(w, actions[0])
      case None => None
      case Some(v) => RunActions(v, actions[1..])
  }

  /** The CPU's steps from its lock on, up to the clearing of the queue. */
  function DrainActions(s: State, requests: seq<nat>): seq<Action>
    decreases |requests|
  {
    if requests == [] then [Clear, CpuUnlock]
    else
      var (o, t) := Interrupt(s, requests[0]);
      if o == Aborted then [Offer, Recover, Clear, CpuUnlock] else [Offer, ClearFlag] + DrainActions(t, requests[1..])
  }

  ghost predicate DrainedWorld(w: World, r: Option<World>, d: Drained) {
    r.Some? && r.value.machine == d.state && r.value.flag == d.flag && r.value.queue == [] && r.value.holder.Free?
  }

  lemma TwoActions(w: World, a: Action, b: Action, rest: seq<Action>)
    requires Next(w, a).Some? && Next(Next(w, a).value, b).Some?
    ensures RunActions(w, [a, b] + rest) == RunActions(Next(Next(w, a).value, b).value, rest)
  {
    hide Next;
    var all := [a, b] + rest;
    assert all[1..][1..] == rest && all[1..][0] == b;
  }

  lemma {:induction false} DrainRuns(w: World)
    requires w.holder.Draining? && w.holder.next <= |w.queue|
    ensures
      var requests := w.queue[w.holder.next..];
      DrainedWorld(w, RunActions(w, DrainActions(w.machine, requests)), Drain(w.machine, requests, w.flag))
    decreases |w.queue| - w.holder.next
  {
    hide Interrupt, DeviceCode, RunActions;
    var n := w.holder.next;
    var requests := w.queue[n..];
    if requests == [] {
      TwoActions(w, Clear, CpuUnlock, []);
      NoActions(Next(Next(w, Clear).value, CpuUnlock).value);
      assert [Clear, CpuUnlock] + [] == [Clear, CpuUnlock];
    } else {
      assert requests[1..] == w.queue[n + 1..] && requests[0] == w.queue[n];
      if Interrupt(w.machine, requests[0]).0 == Aborted {
        AbortedRuns(w);
      } else {
        var v := Next(Next(w, Offer).value, ClearFlag).value;
        DrainRuns(v);
        TwoActions(w, Offer, ClearFlag, DrainActions(v.machine, requests[1..]));
      }
    }
  }

  lemma NoActions(w: World)
    ensures RunActions(w, []) == Some(w)
  {
  }

  lemma AbortedRuns(w: World)
    requires w.holder.Draining? && w.holder.next < |w.queue|
             && Interrupt(w.machine, w.queue[w.holder.next]).0 == Aborted
    ensures
      var requests := w.queue[w.holder.next..];
      DrainedWorld(w, RunActions(w, DrainActions(w.machine, requests)), Drain(w.machine, requests, w.flag))
  {
    hide Interrupt, DeviceCode, RunActions;
    var v := Next(Next(w, Offer).value, Recover).value;
    TwoActions(w, Offer, Recover, [Clear, CpuUnlock]);
    TwoActions(v, Clear, CpuUnlock, []);
    NoActions(Next(Next(v, Clear).value, CpuUnlock).value);
    assert [Offer, Recover] + [Clear, CpuUnlock] == [Offer, Recover, Clear, CpuUnlock];
    assert [Clear, CpuUnlock] + [] == [Clear, CpuUnlock];
  }

  /** From a free lock the CPU's own steps carry out the whole drain. */
  lemma {:induction false} DrainCompletes(w: World)
    requires w.holder.Free?
    ensures
      DrainedWorld(w, RunActions(w, [CpuLock] + DrainActions(w.machine, w.queue)), Drain(w.machine, w.queue, w.flag))
  {
    hide Drain, DrainActions, Interrupt;
    var v, actions := Next(w, CpuLock).value, DrainActions(w.machine, w.queue);
    assert v.queue[0..] == w.queue;
    assert ([CpuLock] + actions)[1..] == actions;
    DrainRuns(v);
  }

  // ---- a device's request ----

  predicate DeviceHolds(h: Holder) {
    h.DeviceLocked? || h.DeviceQueued? || h.DeviceFlagged?
  }

  ghost predicate RequestUnderWay(w: World, start: World, code: nat) {
    match w.holder
    case DeviceLocked(c) => c == code && w.queue == start.queue
    case DeviceQueued => w.queue == start.queue + [code]
    case DeviceFlagged => w.queue == start.queue + [code] && w.flag
    case _ => false
  }

  lemma {:induction false} RequestUntil(worlds: seq<World>, actions: seq<Action>, i: nat, j: nat)
    requires IsRunOf(worlds, actions) && i < j <= |actions| && actions[i].Request? && worlds[i].holder.Free?
    requires forall k :: i < k <= j ==> DeviceHolds(worlds[k].holder)
    ensures RequestUnderWay(worlds[j], worlds[i], actions[i].code)
    decreases j
  {
    hide Interrupt, DeviceCode, Initial;
    assert Next(worlds[j - 1], actions[j - 1]) == Some(worlds[j]);
    if j > i + 1 {
      RequestUntil(worlds, actions, i, j - 1);
    }
  }

  /** Whatever else happens in between, from a device's lock to its unlock its one request joins
      the queue and the flag is raised. */
  lemma {:induction false} RequestIsAtomic(worlds: seq<World>, actions: seq<Action>, i: nat, j: nat)
    requires IsRunOf(worlds, actions) && i < j < |actions| && actions[i].Request? && worlds[i].holder.Free?
    requires (forall k :: i < k <= j ==> DeviceHolds(worlds[k].holder)) && !DeviceHolds(worlds[j + 1].holder)
    ensures var v := worlds[j + 1];
            v.queue == worlds[i].queue + [actions[i].code] && v.flag && v.holder.Free?
  {
    hide Interrupt, DeviceCode, Initial;
    RequestUntil(worlds, actions, i, j);
    assert Next(worlds[j], actions[j]) == Some(worlds[j + 1]);
  }

  /** From a free lock a device's own steps queue its request and raise the flag, when the code
      is one devices may use; otherwise, or with the lock taken, a request changes nothing. */
  lemma {:induction false} RequestCompletes(w: World, code: nat)
    ensures
      w.holder.Free? && 0x1F < code < 0x100 ==>
        RunActions(w, [Request(code), Enqueue, RaiseFlag, DeviceUnlock]) ==
        Some(w.(queue := w.queue + [code], accepted := w.accepted + [code], flag := true))
    ensures !w.holder.Free? || !(0x1F < code < 0x100) ==> Next(w, Request(code)) == Some(w)
  {
    hide RunActions, Interrupt;
    if w.holder.Free? && 0x1F < code < 0x100 {
      var v := Next(Next(w, Request(code)).value, Enqueue).value;
      TwoActions(w, Request(code), Enqueue, [RaiseFlag, DeviceUnlock]);
      TwoActions(v, RaiseFlag, DeviceUnlock, []);
      NoActions(Next(Next(v, RaiseFlag).value, DeviceUnlock).value);
      assert [Request(code), Enqueue] + [RaiseFlag, DeviceUnlock] == [Request(code), Enqueue, RaiseFlag, DeviceUnlock];
      assert [RaiseFlag, DeviceUnlock] + [] == [RaiseFlag, DeviceUnlock];
    }
  }

  // ---- an aborted drain ----

  lemma EmptyStackIsFull(s: State)
    requires Load(s.file, StackPointer) < REGISTER_FILE_SIZE
    ensures Push(s, s.file) == None
  {
    hide Load, Store, Refuses;
  }

  /** A machine with nothing in its registers: the drain of one request aborts, and leaves the
      flag up though no request is queued. */
  lemma AbortedDrainKeepsFlag(s: State)
    requires s.file == seq(REGISTER_FILE_SIZE, _ => 0)
    ensures var d := Drain(s, [0x20], true); d.aborted && d.flag
  {
    hide Drain, Push, FromLe;
    ZeroRegister(s.file, StackPointer);
    ZeroRegister(s.file, Flags);
    EmptyStackIsFull(s);
    DrainDispatchesOnce(s, [0x20], true);
  }
}
