/** What every step of the protocol keeps, one predicate and one preservation lemma per property. */
module ProtocolInvariants {
  import opened Members
  import opened Protocol

  // ---- The properties ----

  predicate HoldsMutex(pc: ThreadPc) {
    pc.SetRaised? || pc.SetReleased? || pc.SetSeen? || pc.SetDone?
  }

  /** A thread inside ofc_event_set_impl is the recorded owner of its event's mutex. */
  ghost predicate OwnerRecorded(s: State, t: nat)
    requires t < |s.threads|
  {
    HoldsMutex(s.threads[t]) ==> s.threads[t].e in s.held && s.held[s.threads[t].e] == t
  }

  /** The recorded owner of a mutex is inside ofc_event_set_impl on that event. */
  ghost predicate OwnerInside(s: State, e: Handle) {
    e in s.held ==>
      s.held[e] < |s.threads| && HoldsMutex(s.threads[s.held[e]]) && s.threads[s.held[e]].e == e
  }

  /** Mutual exclusion: the threads inside ofc_event_set_impl are exactly the recorded owners. */
  ghost predicate MutexInv(s: State) {
    && (forall t | 0 <= t < |s.threads| :: OwnerRecorded(s, t))
    && (forall e | e in s.held :: OwnerInside(s, e))
  }

  /** A thread blocked on a raised event is about to be released by the setter that raised it. */
  ghost predicate ReleaseDue(s: State, t: nat)
    requires t < |s.threads|
  {
    s.threads[t].Blocked? && s.threads[t].e in s.up ==>
      s.threads[t].e in s.held && At(s, s.held[s.threads[t].e], SetRaised(s.threads[t].e))
  }

  ghost predicate BlockedInv(s: State) {
    forall t | 0 <= t < |s.threads| :: ReleaseDue(s, t)
  }

  /** A thread that still owes the set a look at e, or a write of e. */
  predicate InFlight(pc: ThreadPc, e: Handle) {
    pc == SetRaised(e) || pc == SetReleased(e) || pc == SetSeen(e) ||
    pc == Published(e) || pc == PublishedUp(e)
  }

  ghost predicate SomeoneInFlight(s: State, e: Handle) {
    exists t :: 0 <= t < |s.threads| && InFlight(s.threads[t], e)
  }

  /** The waiter will learn of e: its token is in the pipe, the pipe is full, or a write is coming. */
  ghost predicate Covered(cfg: Config, s: State, e: Handle) {
    e in s.pipe || |s.pipe| == cfg.capacity || SomeoneInFlight(s, e)
  }

  /** How many members this call has passed over as not ready, until the drain starts. */
  function Passed(cfg: Config, w: WaiterPc): nat {
    if w.Scanning? then (if w.next <= |cfg.members| then w.next else |cfg.members|)
    else if w.Polling? then |cfg.members|
    else 0
  }

  /** No lost wake-up: every passed-over, associated event that is up is covered. */
  ghost predicate WakeInv(cfg: Config, s: State) {
    forall j | 0 <= j < Passed(cfg, s.waiter) && cfg.members[j].FlagTested() ::
      var e := cfg.members[j].Signal();
      e in s.up && e in s.assoc ==> Covered(cfg, s, e)
  }

  /** r is the handle to return for event e. */
  ghost predicate Serves(cfg: Config, r: Handle, e: Handle) {
    exists m :: m in cfg.members && m.EventLike() && m.Signal() == e && m.h == r
  }

  predicate TimerOk(cfg: Config, timer: Handle) {
    timer == NULL_HANDLE || Timer(timer) in cfg.members
  }

  /** What the waiter holds is what its members gave it. */
  ghost predicate WaiterInv(cfg: Config, s: State) {
    match s.waiter
    case Scanning(i, timer) => i <= |cfg.members| && TimerOk(cfg, timer)
    case Polling(timer) => TimerOk(cfg, timer)
    case DrainTesting(e) => AssocOf(EventList(cfg.members), e) != NULL_HANDLE
    case Lowering(r, e) => Serves(cfg, r, e)
    case Got(r) => r == NULL_HANDLE || exists m :: m in cfg.members && m.h == r
    case _ => true
  }

  ghost predicate Inv(cfg: Config, s: State) {
    |s.pipe| <= cfg.capacity && MutexInv(s) && BlockedInv(s) && WakeInv(cfg, s) && WaiterInv(cfg, s)
  }

  // ---- Preservation ----

  /** A thread moves by its own steps, and otherwise only out of the condition wait at a broadcast. */
  lemma ThreadMoves(cfg: Config, s: State, step: Step, t: nat)
    requires OthersEnabled(s, step) && t < |s.threads|
    ensures var pc' := OthersApply(cfg, s, step).threads[t];
            if OfThread(step) && step.t == t then pc' == PcAfter(s, step)
            else if step.SetRelease? && s.threads[t] == Blocked(step.e) then pc' == Woken(step.e)
            else pc' == s.threads[t]
  {
  }

  /** A thread inside ofc_event_set_impl moves only by its own steps, all of them on its event. */
  lemma HolderMoves(cfg: Config, s: State, step: Step, t: nat)
    requires OthersEnabled(s, step) && t < |s.threads| && HoldsMutex(s.threads[t])
    ensures var pc, pc' := s.threads[t], OthersApply(cfg, s, step).threads[t];
            if OfThread(step) && step.t == t then
              (step == SetUnlock(t, pc.e) && pc' == Free) ||
              (!step.SetRaise? && !step.SetUnlock? && HoldsMutex(pc') && pc'.e == pc.e)
            else pc' == pc
  {
  }

  /** A thread enters ofc_event_set_impl only by a raise. */
  lemma HolderEnters(cfg: Config, s: State, step: Step, t: nat)
    requires OthersEnabled(s, step) && t < |s.threads| && !HoldsMutex(s.threads[t])
    ensures HoldsMutex(OthersApply(cfg, s, step).threads[t]) ==>
              step.SetRaise? && step.t == t && OthersApply(cfg, s, step).threads[t].e == step.e
  {
  }

  lemma OthersKeepRecord(cfg: Config, s: State, step: Step, t: nat)
    requires OthersEnabled(s, step) && MutexInv(s) && t < |s.threads|
    ensures OwnerRecorded(OthersApply(cfg, s, step), t)
  {
    assert OwnerRecorded(s, t);
    if HoldsMutex(s.threads[t]) {
      HolderMoves(cfg, s, step, t);
      if step.SetUnlock? {
        assert OwnerRecorded(s, step.t);
      }
    } else {
      HolderEnters(cfg, s, step, t);
    }
  }

  lemma OthersKeepInside(cfg: Config, s: State, step: Step, e: Handle)
    requires OthersEnabled(s, step) && MutexInv(s)
    ensures OwnerInside(OthersApply(cfg, s, step), e)
  {
    assert OwnerInside(s, e);
    if e in s.held {
      HolderMoves(cfg, s, step, s.held[e]);
    }
  }

  lemma StepKeepsMutex(cfg: Config, s: State, step: Step)
    requires Enabled(cfg, s, step) && MutexInv(s)
    ensures MutexInv(Apply(cfg, s, step))
  {
    var s' := Apply(cfg, s, step);
    if OthersEnabled(s, step) {
      forall t | 0 <= t < |s'.threads| ensures OwnerRecorded(s', t) {
        OthersKeepRecord(cfg, s, step, t);
      }
      forall e | e in s'.held ensures OwnerInside(s', e) {
        OthersKeepInside(cfg, s, step, e);
      }
    } else {
      forall t | 0 <= t < |s'.threads| ensures OwnerRecorded(s', t) {
        assert OwnerRecorded(s, t);
      }
      forall e | e in s'.held ensures OwnerInside(s', e) {
        assert OwnerInside(s, e);
      }
    }
  }

  /** The owner of a mutex that is about to broadcast stays there until it does. */
  lemma RaiserStays(cfg: Config, s: State, step: Step, e: Handle)
    requires OthersEnabled(s, step) && MutexInv(s)
    requires e in s.held && At(s, s.held[e], SetRaised(e)) && step != SetRelease(s.held[e], e)
    ensures var s' := OthersApply(cfg, s, step);
            e in s'.held && At(s', s'.held[e], SetRaised(e))
  {
    HolderMoves(cfg, s, step, s.held[e]);
    if step.SetUnlock? {
      assert OwnerRecorded(s, step.t);
    }
  }

  /** A thread blocked on a raised event was already blocked, and this step was not its release. */
  lemma BlockedBefore(cfg: Config, s: State, step: Step, t: nat)
    requires OthersEnabled(s, step) && t < |s.threads|
    requires OthersApply(cfg, s, step).threads[t].Blocked?
    requires OthersApply(cfg, s, step).threads[t].e in OthersApply(cfg, s, step).up
    ensures s.threads[t] == OthersApply(cfg, s, step).threads[t]
    ensures !(step.SetRelease? && step.e == s.threads[t].e)
    ensures s.threads[t].e !in s.up ==> step == SetRaise(step.t, s.threads[t].e)
  {
  }

  lemma OthersKeepReleaseDue(cfg: Config, s: State, step: Step, t: nat)
    requires OthersEnabled(s, step) && MutexInv(s) && BlockedInv(s) && t < |s.threads|
    ensures ReleaseDue(OthersApply(cfg, s, step), t)
  {
    var s' := OthersApply(cfg, s, step);
    if s'.threads[t].Blocked? && s'.threads[t].e in s'.up {
      BlockedBefore(cfg, s, step, t);
      if s'.threads[t].e in s.up {
        assert ReleaseDue(s, t);
        RaiserStays(cfg, s, step, s'.threads[t].e);
      }
    }
  }

  lemma StepKeepsBlocked(cfg: Config, s: State, step: Step)
    requires Enabled(cfg, s, step) && MutexInv(s) && BlockedInv(s)
    ensures BlockedInv(Apply(cfg, s, step))
  {
    var s' := Apply(cfg, s, step);
    forall t | 0 <= t < |s'.threads| ensures ReleaseDue(s', t) {
      if OthersEnabled(s, step) {
        OthersKeepReleaseDue(cfg, s, step, t);
      } else {
        assert ReleaseDue(s, t);
        assert s'.up <= s.up;
      }
    }
  }

  /** Only a write attempt or a test that finds the flag down ends a thread's debt to e. */
  lemma FlightGoesOn(cfg: Config, s: State, step: Step, e: Handle, t: nat)
    requires OthersEnabled(s, step) && t < |s.threads| && InFlight(s.threads[t], e)
    ensures var s' := OthersApply(cfg, s, step);
            InFlight(s'.threads[t], e) || e !in s'.assoc || e !in s'.up ||
            ((step == SetWrite(t, e) || step == PublishWrite(t, e)) && s'.pipe == Written(cfg.capacity, s.pipe, e))
  {
  }

  /** A raise or a publication puts its thread in flight, and nothing else raises or associates e. */
  lemma NewsIsInFlight(cfg: Config, s: State, step: Step, e: Handle)
    requires OthersEnabled(s, step)
    ensures (step.SetRaise? || step.Publish?) && step.e == e ==>
              step.t < |s.threads| && InFlight(OthersApply(cfg, s, step).threads[step.t], e)
    ensures e !in s.up && e in OthersApply(cfg, s, step).up ==> step.SetRaise? && step.e == e
    ensures e !in s.assoc && e in OthersApply(cfg, s, step).assoc ==> step.Publish? && step.e == e
  {
  }

  /** Other threads only add to the pipe, and a full pipe stays full. */
  lemma OthersOnlyAdd(cfg: Config, s: State, step: Step, e: Handle)
    requires OthersEnabled(s, step)
    ensures s.pipe <= OthersApply(cfg, s, step).pipe
    ensures e in s.pipe ==> e in OthersApply(cfg, s, step).pipe
    ensures |s.pipe| <= cfg.capacity ==> |OthersApply(cfg, s, step).pipe| <= cfg.capacity
    ensures Attempt(step) && cfg.capacity > 0 ==> OthersApply(cfg, s, step).pipe != []
  {
  }

  lemma OthersKeepCovered(cfg: Config, s: State, step: Step, e: Handle)
    requires OthersEnabled(s, step) && |s.pipe| <= cfg.capacity
    requires e in s.up && e in s.assoc ==> Covered(cfg, s, e)
    requires e in OthersApply(cfg, s, step).up && e in OthersApply(cfg, s, step).assoc
    ensures Covered(cfg, OthersApply(cfg, s, step), e)
  {
    var s' := OthersApply(cfg, s, step);
    NewsIsInFlight(cfg, s, step, e);
    OthersOnlyAdd(cfg, s, step, e);
    if e in s.up && e in s.assoc && SomeoneInFlight(s, e) {
      var t :| 0 <= t < |s.threads| && InFlight(s.threads[t], e);
      FlightGoesOn(cfg, s, step, e, t);
    }
  }

  /** The waiter's steps up to the drain take nothing from the pipe, and it passes over a member only
      with the flag down. */
  lemma WaiterPassesDownFlags(cfg: Config, s: State, step: Step, j: nat)
    requires WaiterEnabled(cfg, s, step)
    requires j < Passed(cfg, WaiterApply(cfg, s, step).waiter) && cfg.members[j].FlagTested()
    requires cfg.members[j].Signal() in WaiterApply(cfg, s, step).up
    ensures j < Passed(cfg, s.waiter) && WaiterApply(cfg, s, step).pipe == s.pipe
    ensures cfg.members[j].Signal() in s.up
  {
  }

  lemma StepKeepsWake(cfg: Config, s: State, step: Step)
    requires ValidConfig(cfg) && Enabled(cfg, s, step)
    requires |s.pipe| <= cfg.capacity && WakeInv(cfg, s)
    ensures WakeInv(cfg, Apply(cfg, s, step))
  {
    var s' := Apply(cfg, s, step);
    forall j | 0 <= j < Passed(cfg, s'.waiter) && cfg.members[j].FlagTested() &&
               cfg.members[j].Signal() in s'.up && cfg.members[j].Signal() in s'.assoc
      ensures Covered(cfg, s', cfg.members[j].Signal())
    {
      var e := cfg.members[j].Signal();
      if OthersEnabled(s, step) {
        OthersKeepCovered(cfg, s, step, e);
      } else {
        WaiterPassesDownFlags(cfg, s, step, j);
        assert SomeoneInFlight(s, e) ==> SomeoneInFlight(s', e);
      }
    }
  }

  lemma WaiterKeepsWaiter(cfg: Config, s: State, step: Step)
    requires ValidConfig(cfg) && WaiterEnabled(cfg, s, step) && WaiterInv(cfg, s)
    ensures WaiterInv(cfg, WaiterApply(cfg, s, step))
  {
    match step
    case Scan(sooner) =>
      assert cfg.members[s.waiter.next] in cfg.members;
    case DrainTest =>
      LookupFindsMember(cfg.members, s.waiter.token);
    case PollDescriptor =>
      FirstDescriptorIsMember(cfg.members, s.ready);
    case _ =>
  }

  lemma InitHasInv(cfg: Config, s: State)
    requires Init(s)
    ensures Inv(cfg, s)
  {
  }

  lemma StepKeepsInv(cfg: Config, s: State, step: Step)
    requires ValidConfig(cfg) && Enabled(cfg, s, step) && Inv(cfg, s)
    ensures Inv(cfg, Apply(cfg, s, step))
  {
    StepKeepsMutex(cfg, s, step);
    StepKeepsBlocked(cfg, s, step);
    StepKeepsWake(cfg, s, step);
    if OthersEnabled(s, step) {
      OthersOnlyAdd(cfg, s, step, NULL_HANDLE);
    } else {
      WaiterKeepsWaiter(cfg, s, step);
    }
  }

  /** Every state of every run has all of the properties. */
  lemma {:induction false} RunKeepsInv(cfg: Config, r: Run, n: nat)
    requires IsRun(cfg, r) && n < |r.states|
    ensures Inv(cfg, r.states[n])
  {
    if n == 0 {
      InitHasInv(cfg, r.states[0]);
    } else {
      RunKeepsInv(cfg, r, n - 1);
      assert StepAt(cfg, r, n - 1);
      StepKeepsInv(cfg, r.states[n - 1], r.steps[n - 1]);
    }
  }
}
