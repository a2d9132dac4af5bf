/** External interrupts: device threads queue requests that the CPU loop drains under a lock. */
module ExternalInterrupts {
  import opened Bytes
  import opened Registers
  import opened Machine
  import opened Interrupts
  import opened Cpu

  /** The codes devices may request. */
  predicate DeviceCode(code: nat) {
    0x1F < code < MAX_INTERRUPTION_ENTRY
  }

  datatype Drained = Drained(state: State, flag: bool, aborted: bool)

  /** What draining the requests does to the machine and to the request flag. A dispatch that
      aborts skips the clearing of the flag and abandons the remaining requests. */
  function Drain(s: State, requests: seq<nat>, flag: bool): Drained
    decreases |requests|
  {
    if requests == [] then Drained(s, flag, false)
    else
      var (o, t) := Interrupt(s, requests[0]);
      if o == Aborted then Drained(Interrupt(t, 0x07).1, flag, true)
      else Drain(t, requests[1..], false)
  }

  lemma {:induction false} MaskedDrain(s: State, requests: seq<nat>, flag: bool)
    requires (forall c :: c in requests ==> DeviceCode(c)) && Masked(Load(s.file, Flags))
    ensures Drain(s, requests, flag) == Drained(s, flag && requests == [], false)
    decreases |requests|
  {
    hide Load, Masked, Dispatch;
    if requests != [] {
      assert DeviceCode(requests[0]);
      MaskedDrain(s, requests[1..], false);
    }
  }

  /** A device code is ignored when masked; otherwise it masks, one way or the other. */
  lemma OfferFacts(s: State, code: nat)
    requires DeviceCode(code)
    ensures var ((o, t), masked) := (Interrupt(s, code), Masked(Load(s.file, Flags)));
            && (o == Ignored <==> masked) && (o == Ignored ==> t == s)
            && (o == Jumped || o == Aborted ==> Masked(Load(t.file, Flags)))
            && (o == Ignored || o == Jumped || o == Aborted)
            && (o == Aborted <==> !masked && Push(s, s.file) == None)
  {
    hide Load, Masked, Push, Interrupt, OneFramePushed;
    DispatchOnce(s, code);
  }

  ghost predicate DispatchedOnce(s: State, first: nat, flag: bool, d: Drained)
    requires DeviceCode(first)
  {
    var masked := Masked(Load(s.file, Flags));
    && (d.aborted <==> !masked && Push(s, s.file) == None)
    && (masked ==> d.state == s)
    && (!masked && !d.aborted ==> OneFramePushed(s, d.state) && AtVector(d.state, s.mem, first))
    && (d.aborted ==>
          && d.state.mem == s.mem && Load(d.state.file, StackPointer) == Load(s.file, StackPointer)
          && AtVector(d.state, s.mem, 0x07))
    && d.flag == (d.aborted && flag)
  }

  /** A drain dispatches its first request at most, with one frame, and only unmasked; the rest
      find the mask set. It aborts exactly when that frame does not fit, and only then does
      the flag survive. */
  lemma {:induction false} DrainDispatchesOnce(s: State, requests: seq<nat>, flag: bool)
    requires (forall c :: c in requests ==> DeviceCode(c)) && requests != []
    ensures DispatchedOnce(s, requests[0], flag, Drain(s, requests, flag))
  {
    hide Load, Masked, OneFramePushed, AtVector, Push, EnterWithFrame, EnterWithoutFrame, JumpTo, Interrupt;
    assert DeviceCode(requests[0]);
    OfferFacts(s, requests[0]);
    if Masked(Load(s.file, Flags)) {
      MaskedDrain(s, requests, flag);
    } else {
      DispatchOnce(s, requests[0]);
      var (o, t) := Interrupt(s, requests[0]);
      if o == Jumped {
        MaskedDrain(t, requests[1..], false);
      } else {
        DedicatedHandlers(t, 0x07);
      }
    }
  }

  // ---- the shared object ----

  datatype Answer = Queued | IgnoredRequest | InvalidCode

  class InterruptBus {
    const cpu: SysdarftCPU
    var locked: bool
    var requests: seq<nat>
    var externalDeviceRequested: bool

    ghost predicate Valid()
      reads this
    {
      cpu.Valid() && forall c :: c in requests ==> DeviceCode(c)
    }

    constructor (cpu: SysdarftCPU)
      requires cpu.Valid()
      ensures this.cpu == cpu && Valid() && !locked && requests == [] && !externalDeviceRequested
    {
      this.cpu := cpu;
      locked := false;
      requests := [];
      externalDeviceRequested := false;
    }

    /** A device asks for an interrupt; a busy lock drops the request. */
    method DoExtDevInterruption(code: nat) returns (a: Answer)
      requires Valid()
      modifies this
      ensures Valid() && locked == old(locked)
      ensures a == if !(0x1F < code < 0x100) then InvalidCode else if old(locked) then IgnoredRequest else Queued
      ensures requests == if a == Queued then old(requests) + [code] else old(requests)
      ensures externalDeviceRequested == (old(externalDeviceRequested) || a == Queued)
    {
      if code > 0x1F && code < MAX_INTERRUPTION_ENTRY {
        if locked {
          return IgnoredRequest;
        }
        locked := true;
        requests := requests + [code];
        externalDeviceRequested := true;
        locked := false;
        return Queued;
      }
      return InvalidCode;
    }

    /** The drain at the head of the CPU loop. */
    method DrainRequests()
      requires Valid() && !locked
      modifies this, cpu, cpu.registers, cpu.memory.blocks
      ensures Valid() && !locked && requests == []
      ensures var d := Drain(old(cpu.Current()), old(requests), old(externalDeviceRequested));
              cpu.Current() == d.state && externalDeviceRequested == d.flag
    {
      hide Interrupt, DeviceCode;
      locked := true;
      var aborted := false;
      var k := 0;
      while k < |requests| && !aborted
        invariant k <= |requests| && requests == old(requests) && locked
        invariant !aborted ==>
          Drain(cpu.Current(), requests[k..], externalDeviceRequested) ==
          Drain(old(cpu.Current()), old(requests), old(externalDeviceRequested))
        invariant aborted ==>
          var d := Drain(old(cpu.Current()), old(requests), old(externalDeviceRequested));
          d.state == Interrupt(cpu.Current(), 0x07).1 && d.flag == externalDeviceRequested
        decreases |requests| - k, !aborted
      {
        assert requests[k..][1..] == requests[k + 1..];
        var o := cpu.DoInterruption(requests[k]);
        if o == Aborted {
          aborted := true;
        } else {
          externalDeviceRequested := false;
          k := k + 1;
        }
      }
      if aborted {
        var o := cpu.DoInterruption(0x07);
      }
      requests := [];
      locked := false;
    }
  }

  // ---- interleavings of device and CPU steps ----

  /** Who holds the lock, and how far the holder has come. */
  datatype Holder =
    | Free
    | DeviceLocked(code: nat) | DeviceQueued | DeviceFlagged
    | Draining(next: nat) | Offered(done: nat) | Recovering | DrainOver | Cleared

  /** The shared state with its history: all requests accepted, all requests offered to the
      CPU, all requests removed, the frames pushed by the current drain, and whether some
      dispatch has aborted so far or a drain left the flag behind. */
  datatype World = World(
    holder: Holder, queue: seq<nat>, flag: bool, machine: State,
    accepted: seq<nat>, offers: seq<nat>, removed: seq<nat>, frames: nat, everAborted: bool, stale: bool)

  datatype Action =
    | Request(code: nat) | Enqueue | RaiseFlag | DeviceUnlock
    | CpuLock | Offer | ClearFlag | Recover | Clear | CpuUnlock
    | CpuWork(machine: State)

  predicate CpuHolds(h: Holder) {
    h.Draining? || h.Offered? || h.Recovering? || h.DrainOver? || h.Cleared?
  }

  /** One step; none when it is not possible. A request that finds the lock taken, or whose
      code is out of range, changes nothing. */
  function Next(w: World, a: Action): Option<World> {
    match a
    case Request(code) =>
      Some(if DeviceCode(code) && w.holder.Free? then w.(holder := DeviceLocked(code)) else w)
    case Enqueue =>
      if !w.holder.DeviceLocked? then None
      else
        var code := [w.holder.code];
        Some(w.(holder := DeviceQueued, queue := w.queue + code, accepted := w.accepted + code))
    case RaiseFlag => if !w.holder.DeviceQueued? then None else Some(w.(holder := DeviceFlagged, flag := true))
    case DeviceUnlock => if !w.holder.DeviceFlagged? then None else Some(w.(holder := Free))
    case CpuLock => if !w.holder.Free? then None else Some(w.(holder := Draining(0), frames := 0))
    case Offer =>
      if !w.holder.Draining? || w.holder.next >= |w.queue| then None
      else
        var (o, t) := Interrupt(w.machine, w.queue[w.holder.next]);
        var pushed := if o == Jumped then 1 else 0;
        var v := w.(machine := t, offers := w.offers + [w.queue[w.holder.next]], frames := w.frames + pushed);
        Some(if o == Aborted then v.(holder := Recovering, everAborted := true, stale := v.flag)
             else v.(holder := Offered(w.holder.next)))
    case ClearFlag =>
      if !w.holder.Offered? then None
      else Some(w.(holder := Draining(w.holder.done + 1), flag := false, stale := false))
    case Recover =>
      if !w.holder.Recovering? then None
      else Some(w.(holder := DrainOver, machine := Interrupt(w.machine, 0x07).1))
    case Clear =>
      if w.holder.DrainOver? || (w.holder.Draining? && w.holder.next == |w.queue|) then
        Some(w.(holder := Cleared, removed := w.removed + w.queue, queue := []))
      else None
    case CpuUnlock => if !w.holder.Cleared? then None else Some(w.(holder := Free))
    case CpuWork(machine) => if CpuHolds(w.holder) then None else Some(w.(machine := machine))
  }

  ghost predicate Initial(w: World) {
    && w.holder.Free? && w.queue == w.accepted == w.offers == w.removed == [] && !w.flag
    && w.frames == 0 && !w.everAborted && !w.stale
  }

  /** How many requests of the queue the current drain has offered. */
  function OfferedNow(h: Holder): nat {
    match h
    case Draining(n) => n
    case Offered(n) => n + 1
    case _ => 0
  }

  ghost predicate QueueKept(w: World) {
    && (forall c :: c in w.queue ==> DeviceCode(c))
    && (w.holder.DeviceLocked? ==> DeviceCode(w.holder.code))
    && w.accepted == w.removed + w.queue
    && OfferedNow(w.holder) <= |w.queue|
    && (w.holder.Cleared? ==> w.queue == [])
    && (!w.everAborted ==> w.offers == w.removed + w.queue[..OfferedNow(w.holder)])
    && (!w.everAborted ==> !w.holder.Recovering? && !w.holder.DrainOver?)
  }

  ghost predicate FlagKept(w: World) {
    && (w.stale ==> w.everAborted)
    && (w.holder.Free? || w.holder.DeviceLocked? ==> w.flag == (w.queue != [] || w.stale))
    && (w.holder.DeviceQueued? ==> w.queue != [])
    && (w.holder.DeviceFlagged? ==> w.queue != [] && w.flag)
    && (w.holder.Draining? ==>
          if w.holder.next == 0 then w.flag == (w.queue != [] || w.stale) else !w.flag && !w.stale)
    && (w.holder.Offered? ==>
          if w.holder.done == 0 then w.flag == (w.queue != [] || w.stale) else !w.flag && !w.stale)
    && (w.holder.Recovering? || w.holder.DrainOver? || w.holder.Cleared? ==> w.flag == w.stale)
  }

  ghost predicate FramesKept(w: World) {
    && w.frames <= 1
    && (w.holder.Draining? || w.holder.Offered? ==>
          && (OfferedNow(w.holder) > 0 ==> Masked(Load(w.machine.file, Flags)))
          && (OfferedNow(w.holder) == 0 ==> w.frames == 0))
  }

  ghost predicate Invariant(w: World) {
    QueueKept(w) && FlagKept(w) && FramesKept(w)
  }

  lemma TakeOneMore(a: seq<nat>, n: nat)
    requires n < |a|
    ensures a[..n] + [a[n]] == a[..n + 1]
  {
  }

  lemma {:induction false} QueueStep(w: World, a: Action)
    requires Invariant(w) && Next(w, a).Some?
    ensures QueueKept(Next(w, a).value)
  {
    hide Interrupt, DeviceCode, FramesKept, FlagKept;
    match a {
      case Enqueue => Associate(w.removed, w.queue, [w.holder.code]);
      case Offer => QueueOffer(w);
      case Clear =>
        WholeQueue(w.removed, w.queue);
      case CpuLock => WholeQueue(w.removed, w.queue);
      case _ =>
    }
  }

  lemma WholeQueue(removed: seq<nat>, queue: seq<nat>)
    ensures queue[..|queue|] == queue && queue[..0] == []
    ensures (removed + queue) + [] == removed + queue && removed + [] == removed
  {
  }

  lemma QueueOffer(w: World)
    requires Invariant(w) && Next(w, Offer).Some?
    ensures QueueKept(Next(w, Offer).value)
  {
    hide Interrupt, DeviceCode, FramesKept, FlagKept;
    TakeOneMore(w.queue, w.holder.next);
    Associate(w.removed, w.queue[..w.holder.next], [w.queue[w.holder.next]]);
  }

  lemma {:induction false} FlagStep(w: World, a: Action)
    requires Invariant(w) && Next(w, a).Some?
    ensures FlagKept(Next(w, a).value)
  {
    hide Interrupt, DeviceCode, Masked, Load;
    if a.Offer? {
      OfferFacts(w.machine, w.queue[w.holder.next]);
    }
  }

  lemma {:induction false} FramesStep(w: World, a: Action)
    requires Invariant(w) && Next(w, a).Some?
    ensures FramesKept(Next(w, a).value)
  {
    hide Interrupt, DeviceCode, Masked, Load, FlagKept;
    if a.Offer? {
      OfferFacts(w.machine, w.queue[w.holder.next]);
    }
  }

  // ---- runs ----

  ghost predicate IsRunOf(worlds: seq<World>, actions: seq<Action>) {
    && |worlds| == |actions| + 1 && Initial(worlds[0])
    && forall i :: 0 <= i < |actions| ==> Next(worlds[i], actions[i]) == Some(worlds[i + 1])
  }

  lemma {:induction false} AlwaysInvariant(worlds: seq<World>, actions: seq<Action>, i: nat)
    requires IsRunOf(worlds, actions) && i <= |actions|
    ensures Invariant(worlds[i])
  {
    hide Next, Invariant;
    if i == 0 {
      StartsInvariant(worlds[0]);
    } else {
      AlwaysInvariant(worlds, actions, i - 1);
      assert Next(worlds[i - 1], actions[i - 1]) == Some(worlds[i - 1 + 1]);
      InvariantStep(worlds[i - 1], actions[i - 1]);
    }
  }

  lemma StartsInvariant(w: World)
    requires Initial(w)
    ensures Invariant(w)
  {
  }

  lemma InvariantStep(w: World, a: Action)
    requires Invariant(w) && Next(w, a).Some?
    ensures Invariant(Next(w, a).value)
  {
    hide Next, QueueKept, FlagKept, FramesKept;
    QueueStep(w, a);
    FlagStep(w, a);
    FramesStep(w, a);
  }

  /** In every interleaving: no drain pushes more than one frame, and while no dispatch has
      aborted, requests are offered exactly once, in the order they were accepted, and removed
      after that. With the lock free, everything accepted has been offered or is queued, and
      the flag is up exactly when the queue is not empty. */
  lemma {:induction false} RequestsOfferedOnce(worlds: seq<World>, actions: seq<Action>, i: nat)
    requires IsRunOf(worlds, actions) && i <= |actions|
    ensures var w := worlds[i];
            && w.frames <= 1
            && (!w.everAborted ==> w.offers <= w.accepted && w.removed <= w.offers)
            && (!w.everAborted && w.holder.Free? ==>
                  && w.accepted == w.offers + w.queue && w.removed == w.offers
                  && (w.flag <==> w.queue != []))
  {
    AlwaysInvariant(worlds, actions, i);
    var w := worlds[i];
    if !w.everAborted {
      assert w.accepted == w.removed + w.queue && w.offers == w.removed + w.queue[..OfferedNow(w.holder)];
    }
  }

  /** With aborts, a free lock has the flag up exactly when requests wait or the last drain to
      find any was aborted. */
  lemma {:induction false} FlagOnFreeLock(worlds: seq<World>, actions: seq<Action>, i: nat)
    requires IsRunOf(worlds, actions) && i <= |actions| && worlds[i].holder.Free?
    ensures worlds[i].flag <==> worlds[i].queue != [] || worlds[i].stale
  {
    AlwaysInvariant(worlds, actions, i);
  }

  /** Nothing joins or leaves the queue between the CPU's lock and its clearing of the queue. */
  lemma {:induction false} QueueFrozenDuringDrain(worlds: seq<World>, actions: seq<Action>, i: nat, j: nat)
    requires IsRunOf(worlds, actions) && i <= j <= |actions|
    requires forall k :: i <= k <= j ==> CpuHolds(worlds[k].holder) && !worlds[k].holder.Cleared?
    ensures worlds[j].queue == worlds[i].queue && worlds[j].accepted == worlds[i].accepted
    decreases j
  {
    hide Interrupt, DeviceCode, Initial;
    if i < j {
      QueueFrozenDuringDrain(worlds, actions, i, j - 1);
      assert Next(worlds[j - 1], actions[j - 1]) == Some(worlds[j]);
    }
  }

  /** A dispatch aborts exactly when it is the first of its drain, unmasked, and its frame does
      not fit; the requests behind it are then never offered, and the flag stays up over an
      empty queue. */
  lemma {:induction false} AbortCondition(worlds: seq<World>, actions: seq<Action>, i: nat)
    requires IsRunOf(worlds, actions) && i < |actions| && actions[i].Offer?
    ensures var (w, v) := (worlds[i], worlds[i + 1]);
            var fits := Push(w.machine, w.machine.file).Some?;
            && (v.holder.Recovering? <==> w.holder == Draining(0) && !Masked(Load(w.machine.file, Flags)) && !fits)
            && (v.holder.Recovering? ==> v.flag && v.stale)
  {
    hide Interrupt, DeviceCode, Masked, Load, Push, Initial;
    AlwaysInvariant(worlds, actions, i);
    assert Next(worlds[i], actions[i]) == Some(worlds[i + 1]);
    OfferFacts(worlds[i].machine, worlds[i].queue[worlds[i].holder.next]);
  }
}
