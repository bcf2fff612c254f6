/** Theorems about whole runs of the wake-up protocol. */
module ProtocolRuns {
  import opened Members
  import opened Protocol
  import opened ProtocolInvariants
  import opened Scanning

  /** The waiter stays inside one wait call from state j up to and including state n. */
  ghost predicate SameCall(r: Run, j: nat, n: nat) {
    j <= n < |r.states| && forall l | j <= l <= n :: !r.states[l].waiter.Idle?
  }

  // ---- No lost wake-up ----

  /** The waiter never sleeps on an empty pipe while a set or a publication of one of its events is
      complete: poll then reports the pipe, and can neither time out nor report anything else. The pipe
      is bounded and a write to a full pipe is dropped without a trace. */
  lemma NoLostWakeUp(cfg: Config, r: Run, n: nat, m: Member)
    requires IsRun(cfg, r) && n < |r.states| && r.states[n].waiter.Polling?
    requires m in cfg.members && m.FlagTested()
    requires m.Signal() in r.states[n].up && m.Signal() in r.states[n].assoc
    requires !SomeoneInFlight(r.states[n], m.Signal())
    ensures Enabled(cfg, r.states[n], PollPipe)
    ensures !Enabled(cfg, r.states[n], PollTimeout) && !Enabled(cfg, r.states[n], PollDescriptor)
  {
    RunKeepsInv(cfg, r, n);
    var j :| 0 <= j < |cfg.members| && cfg.members[j] == m;
    assert Covered(cfg, r.states[n], m.Signal());
  }

  /** From the test that passes a member over until the drain starts, a raised event of that member has
      its token in the pipe, or the pipe is full, or a thread still owes the write. */
  lemma PassedOverIsCovered(cfg: Config, r: Run, n: nat, j: nat)
    requires IsRun(cfg, r) && n < |r.states|
    requires j < Passed(cfg, r.states[n].waiter) && cfg.members[j].FlagTested()
    requires cfg.members[j].Signal() in r.states[n].up && cfg.members[j].Signal() in r.states[n].assoc
    ensures Covered(cfg, r.states[n], cfg.members[j].Signal())
  {
    RunKeepsInv(cfg, r, n);
  }

  // ---- No thread waits for ever on a mutex ----

  /** The next step of a thread inside ofc_event_set_impl, which needs nothing from anybody. */
  function HolderStep(s: State, t: nat): Step
    requires t < |s.threads| && HoldsMutex(s.threads[t])
  {
    match s.threads[t]
    case SetRaised(e) => SetRelease(t, e)
    case SetReleased(e) => SetLook(t, e)
    case SetSeen(e) => SetWrite(t, e)
    case SetDone(e) => SetUnlock(t, e)
  }

  /** How many of its own steps a mutex holder is from unlocking. */
  function StepsToUnlock(pc: ThreadPc): nat {
    match pc
    case SetRaised(_) => 4
    case SetReleased(_) => 3
    case SetSeen(_) => 2
    case SetDone(_) => 1
    case _ => 0
  }

  /** The mutex that the waiter's next step has to take, or null when it takes none. */
  function NeededMutex(cfg: Config, s: State): Handle {
    match s.waiter
    case Scanning(next, _) =>
      if next < |cfg.members| && cfg.members[next].FlagTested() then cfg.members[next].Signal() else NULL_HANDLE
    case DrainTesting(token) => token
    case Lowering(_, e) => e
    case _ => NULL_HANDLE
  }

  /** The waiter can take its next step, or the mutex that this step needs is held by a thread that can
      move and is then nearer to unlocking it. In particular the write to a full pipe holds nobody up. */
  lemma WaiterNeverStuck(cfg: Config, r: Run, n: nat)
    requires IsRun(cfg, r) && n < |r.states|
    ensures var s, e := r.states[n], NeededMutex(cfg, r.states[n]);
            WaiterEnabled(cfg, s, WaiterStep(cfg, s)) ||
            (e in s.held && HolderNearsUnlock(cfg, s, s.held[e]) && s.threads[s.held[e]].e == e)
  {
    RunKeepsInv(cfg, r, n);
    var s, e := r.states[n], NeededMutex(cfg, r.states[n]);
    if e in s.held {
      assert OwnerInside(s, e);
    }
  }

  ghost predicate HolderNearsUnlock(cfg: Config, s: State, t: nat) {
    t < |s.threads| && HoldsMutex(s.threads[t]) && OthersEnabled(s, HolderStep(s, t)) &&
    StepsToUnlock(OthersApply(cfg, s, HolderStep(s, t)).threads[t]) < StepsToUnlock(s.threads[t])
  }

  /** A step that the waiter takes next when no mutex is in its way. */
  function WaiterStep(cfg: Config, s: State): Step {
    match s.waiter
    case Idle => Begin
    case Purging => if s.pipe != [] then PurgeRead else PurgeEnd
    case Scanning(next, _) => if next < |cfg.members| then Scan(false) else ScanEnd
    case Polling(_) => PollError
    case Draining => DrainRead
    case DrainTesting(_) => DrainTest
    case Lowering(_, _) => Lower
    case Got(h) => Return(h)
  }

  /** The next step of a thread that is inside an operation and not blocked. */
  function NextStep(s: State, t: nat): Step
    requires t < |s.threads| && !s.threads[t].Free? && !s.threads[t].Blocked?
  {
    match s.threads[t]
    case Woken(e) => WaitFinish(t, e)
    case Published(e) => PublishTest(t, e)
    case PublishedUp(e) => PublishWrite(t, e)
    case DeleteRaised => DeleteLook(t)
    case DeleteSeen => DeleteWake(t)
    case SetRaised(_) => HolderStep(s, t)
    case SetReleased(_) => HolderStep(s, t)
    case SetSeen(_) => HolderStep(s, t)
    case SetDone(_) => HolderStep(s, t)
  }

  /** So it is with every other thread: inside an operation and not in the condition wait it can move, or the
      one mutex it needs has a holder that comes nearer to unlocking it. */
  lemma ThreadNeverStuck(cfg: Config, r: Run, n: nat, t: nat)
    requires IsRun(cfg, r) && n < |r.states| && t < |r.states[n].threads|
    requires !r.states[n].threads[t].Free? && !r.states[n].threads[t].Blocked?
    ensures var s := r.states[n];
            OthersEnabled(s, NextStep(s, t)) ||
            ((s.threads[t].Woken? || s.threads[t].Published?) && s.threads[t].e in s.held &&
             HolderNearsUnlock(cfg, s, s.held[s.threads[t].e]))
  {
    RunKeepsInv(cfg, r, n);
    var s := r.states[n];
    if (s.threads[t].Woken? || s.threads[t].Published?) && s.threads[t].e in s.held {
      assert OwnerInside(s, s.threads[t].e);
    }
  }

  /** A free thread can start any operation whose mutex is free. */
  lemma FreeThreadMayStart(s: State, t: nat, e: Handle)
    requires At(s, t, Free) && e != NULL_HANDLE && Unlocked(s, e)
    ensures OthersEnabled(s, SetRaise(t, e)) && OthersEnabled(s, Reset(t, e)) && OthersEnabled(s, WaitTest(t, e))
    ensures OthersEnabled(s, Publish(t, e)) && OthersEnabled(s, Wake(t)) && OthersEnabled(s, DeleteRaise(t))
  {
  }

  // ---- Wake and delete ----

  /** The waiter comes to the drain through purge and scan, and takes nothing out before it. */
  lemma WaiterKeepsPipe(cfg: Config, s: State, step: Step)
    requires WaiterEnabled(cfg, s, step)
    ensures var s' := WaiterApply(cfg, s, step);
            && (s'.waiter.Idle? ==> step.Return?)
            && (s'.waiter.Purging? ==> s.waiter.Purging? || s.waiter.Idle?)
            && (BeforeDrain(s'.waiter) ==> BeforeDrain(s.waiter) || s.waiter.Purging?)
            && (BeforeDrain(s'.waiter) && s.waiter.Purging? ==> s.pipe == [])
            && (BeforeDrain(s'.waiter) ==> s'.pipe == s.pipe)
  {
  }

  /** Once a write is attempted after the purge and before the drain, that call neither times out nor
      overlooks the pipe, whether or not the write fitted. */
  lemma {:induction false} AttemptKeepsPipe(cfg: Config, r: Run, k: nat, n: nat)
    requires IsRun(cfg, r) && k < n < |r.states|
    requires Attempt(r.steps[k]) && BeforeDrain(r.states[k].waiter) && SameCall(r, k, n)
    ensures !r.states[n].waiter.Purging?
    ensures BeforeDrain(r.states[n].waiter) ==> r.states[n].pipe != []
  {
    if n > k + 1 {
      AttemptKeepsPipe(cfg, r, k, n - 1);
    }
    assert StepAt(cfg, r, n - 1);
    var s, step := r.states[n - 1], r.steps[n - 1];
    if OthersEnabled(s, step) {
      OthersOnlyAdd(cfg, s, step, NULL_HANDLE);
    } else {
      WaiterKeepsPipe(cfg, s, step);
    }
  }

  lemma AttemptPreventsTimeout(cfg: Config, r: Run, k: nat, n: nat)
    requires IsRun(cfg, r) && k < n < |r.steps|
    requires Attempt(r.steps[k]) && BeforeDrain(r.states[k].waiter) && SameCall(r, k, n)
    ensures r.steps[n] != PollTimeout && r.steps[n] != PollDescriptor
  {
    AttemptKeepsPipe(cfg, r, k, n);
    assert StepAt(cfg, r, n);
  }

  /** The delete flag is never lowered. */
  lemma {:induction false} DeleteIsForGood(cfg: Config, r: Run, k: nat, n: nat)
    requires IsRun(cfg, r) && k <= n < |r.states| && r.states[k].deleteMe
    ensures r.states[n].deleteMe
  {
    if k < n {
      DeleteIsForGood(cfg, r, k, n - 1);
      assert StepAt(cfg, r, n - 1);
    }
  }

  /** A delete that has started has raised the flag. */
  lemma {:induction false} DeleteRaisesFirst(cfg: Config, r: Run, n: nat, t: nat)
    requires IsRun(cfg, r) && n < |r.states|
    requires At(r.states[n], t, DeleteRaised) || At(r.states[n], t, DeleteSeen)
    ensures r.states[n].deleteMe
  {
    if n > 0 {
      var s, step := r.states[n - 1], r.steps[n - 1];
      assert StepAt(cfg, r, n - 1);
      if OthersEnabled(s, step) {
        DebtBegins(cfg, s, step, t);
      }
      if At(s, t, DeleteRaised) || At(s, t, DeleteSeen) {
        DeleteRaisesFirst(cfg, r, n - 1, t);
      }
    }
  }

  lemma DebtBegins(cfg: Config, s: State, step: Step, t: nat)
    requires OthersEnabled(s, step)
    requires At(OthersApply(cfg, s, step), t, DeleteRaised) || At(OthersApply(cfg, s, step), t, DeleteSeen)
    ensures step == DeleteRaise(t) || At(s, t, DeleteRaised) || At(s, t, DeleteSeen)
  {
    ThreadMoves(cfg, s, step, t);
  }

  lemma DebtGoesOn(cfg: Config, s: State, step: Step, t: nat)
    requires OthersEnabled(s, step) && s.registered && step != DeleteWake(t)
    requires At(s, t, DeleteRaised) || At(s, t, DeleteSeen)
    ensures At(OthersApply(cfg, s, step), t, DeleteRaised) || At(OthersApply(cfg, s, step), t, DeleteSeen)
  {
    ThreadMoves(cfg, s, step, t);
  }

  /** A delete does not finish without its wake while the wait set stays registered. */
  lemma {:induction false} DeleteOwesWake(cfg: Config, r: Run, k: nat, n: nat, t: nat)
    requires IsRun(cfg, r) && k < n < |r.states| && r.steps[k] == DeleteRaise(t)
    requires forall l | k <= l < n :: r.states[l].registered && r.steps[l] != DeleteWake(t)
    ensures At(r.states[n], t, DeleteRaised) || At(r.states[n], t, DeleteSeen)
  {
    assert StepAt(cfg, r, n - 1);
    if n > k + 1 {
      DeleteOwesWake(cfg, r, k, n - 1, t);
      if OthersEnabled(r.states[n - 1], r.steps[n - 1]) {
        DebtGoesOn(cfg, r.states[n - 1], r.steps[n - 1], t);
      }
    }
  }

  /** The delete handshake: a wake from a delete that lands after the purge and before the drain ends
      the sleep, and is_deleting is true from the wake on. */
  lemma DeleteHandshake(cfg: Config, r: Run, k: nat, n: nat, t: nat)
    requires IsRun(cfg, r) && k < n < |r.steps|
    requires r.steps[k] == DeleteWake(t) && BeforeDrain(r.states[k].waiter) && SameCall(r, k, n)
    ensures r.steps[n] != PollTimeout
    ensures r.states[k].deleteMe && r.states[n + 1].deleteMe
  {
    AttemptPreventsTimeout(cfg, r, k, n);
    assert StepAt(cfg, r, k);
    DeleteRaisesFirst(cfg, r, k, t);
    DeleteIsForGood(cfg, r, k, n + 1);
  }

  // ---- Publication race ----

  /** Step k writes, or tries to write, the token of e, and no later step before n raises e. */
  ghost predicate ToldSinceRaise(r: Run, e: Handle, k: nat, n: nat)
    requires |r.steps| >= n
  {
    k < n && (exists t :: r.steps[k] == SetWrite(t, e) || r.steps[k] == PublishWrite(t, e)) &&
    forall l | k < l < n :: !(r.steps[l].SetRaise? && r.steps[l].e == e)
  }

  /** Publishing an event (associate, test, write) and setting it (raise, look, write) cannot miss each
      other: when the event ends up raised and associated with nobody left to write, its token has been
      attempted after the last raise. */
  lemma {:induction false} PublicationRace(cfg: Config, r: Run, n: nat, e: Handle)
    requires IsRun(cfg, r) && n < |r.states|
    requires e in r.states[n].up && e in r.states[n].assoc && !SomeoneInFlight(r.states[n], e)
    ensures exists k :: ToldSinceRaise(r, e, k, n)
  {
    if n > 0 {
      var s, step := r.states[n - 1], r.steps[n - 1];
      assert StepAt(cfg, r, n - 1);
      if OthersEnabled(s, step) {
        NewsIsInFlight(cfg, s, step, e);
        if SomeoneInFlight(s, e) {
          var t :| 0 <= t < |s.threads| && InFlight(s.threads[t], e);
          FlightGoesOn(cfg, s, step, e, t);
          assert ToldSinceRaise(r, e, n - 1, n);
          return;
        }
      } else {
        assert r.states[n].threads == s.threads;
      }
      PublicationRace(cfg, r, n - 1, e);
      var k :| ToldSinceRaise(r, e, k, n - 1);
      assert ToldSinceRaise(r, e, k, n);
    }
  }

  // ---- Condition waits ----

  /** Whenever the mutex is free and the flag is up, no thread is blocked in the condition wait. */
  lemma NobodyBlockedOnRaised(cfg: Config, r: Run, n: nat, e: Handle, t: nat)
    requires IsRun(cfg, r) && n < |r.states|
    requires e in r.states[n].up && Unlocked(r.states[n], e)
    ensures !At(r.states[n], t, Blocked(e))
  {
    RunKeepsInv(cfg, r, n);
    if t < |r.states[n].threads| {
      assert ReleaseDue(r.states[n], t);
    }
  }

  /** A set releases every thread blocked at its broadcast, for good: only the thread's own exit moves
      it on, whatever resets come first, and the exit waits for nothing but the mutex. */
  lemma {:induction false} BroadcastReleases(cfg: Config, r: Run, k: nat, n: nat, t0: nat, t: nat, e: Handle)
    requires IsRun(cfg, r) && k < n < |r.states|
    requires r.steps[k] == SetRelease(t0, e) && At(r.states[k], t, Blocked(e))
    requires forall l | k < l < n :: r.steps[l] != WaitFinish(t, e)
    ensures At(r.states[n], t, Woken(e))
    ensures Enabled(cfg, r.states[n], WaitFinish(t, e)) <==> Unlocked(r.states[n], e)
  {
    assert StepAt(cfg, r, n - 1);
    if n > k + 1 {
      BroadcastReleases(cfg, r, k, n - 1, t0, t, e);
    }
  }

  /** A wait on an event goes through at once exactly when the event is up, and blocks otherwise. */
  lemma WaitBlocksIffDown(cfg: Config, r: Run, k: nat, t: nat, e: Handle)
    requires IsRun(cfg, r) && k < |r.steps| && r.steps[k] == WaitTest(t, e)
    ensures At(r.states[k + 1], t, Free) <==> e in r.states[k].up
    ensures At(r.states[k + 1], t, Blocked(e)) <==> e !in r.states[k].up
  {
    assert StepAt(cfg, r, k);
  }

  /** A broadcast on e, or a spurious wake-up of t, at step l. */
  predicate WakesWaiter(step: Step, t: nat, e: Handle) {
    (step.SetRelease? && step.e == e) || step == SpuriousWake(t, e)
  }

  /** A thread that blocked does not come free again before it finishes its wait, and it is released first. */
  lemma {:induction false} BlockedUntilReleased(cfg: Config, r: Run, k: nat, n: nat, t: nat, e: Handle)
    requires IsRun(cfg, r) && k < n < |r.states|
    requires r.steps[k] == WaitTest(t, e) && e !in r.states[k].up
    requires forall l | k < l < n :: r.steps[l] != WaitFinish(t, e)
    ensures At(r.states[n], t, Blocked(e)) ||
            (At(r.states[n], t, Woken(e)) && exists l :: k < l < n && WakesWaiter(r.steps[l], t, e))
  {
    assert StepAt(cfg, r, n - 1);
    if n > k + 1 {
      BlockedUntilReleased(cfg, r, k, n - 1, t, e);
      if OthersEnabled(r.states[n - 1], r.steps[n - 1]) {
        BlockedMoves(cfg, r.states[n - 1], r.steps[n - 1], t, e);
      }
      if At(r.states[n - 1], t, Blocked(e)) && !At(r.states[n], t, Blocked(e)) {
        assert WakesWaiter(r.steps[n - 1], t, e);
      }
    }
  }

  lemma BlockedMoves(cfg: Config, s: State, step: Step, t: nat, e: Handle)
    requires OthersEnabled(s, step) && step != WaitFinish(t, e)
    requires At(s, t, Blocked(e)) || At(s, t, Woken(e))
    ensures var s' := OthersApply(cfg, s, step);
            if At(s, t, Blocked(e)) && WakesWaiter(step, t, e) then At(s', t, Woken(e))
            else At(s', t, s.threads[t])
  {
    ThreadMoves(cfg, s, step, t);
  }

  /** No wait that blocked is over without a broadcast of its event or a spurious wake-up. */
  lemma WaitEndsByRelease(cfg: Config, r: Run, k: nat, n: nat, t: nat, e: Handle)
    requires IsRun(cfg, r) && k < n < |r.steps|
    requires r.steps[k] == WaitTest(t, e) && e !in r.states[k].up && r.steps[n] == WaitFinish(t, e)
    requires forall l | k < l < n :: r.steps[l] != WaitFinish(t, e)
    ensures exists l :: k < l < n && WakesWaiter(r.steps[l], t, e)
    ensures At(r.states[n + 1], t, Free)
  {
    BlockedUntilReleased(cfg, r, k, n, t, e);
    assert StepAt(cfg, r, n);
  }

  /** Both ways out of a wait leave an automatic event down and a manual one as it was; a reset leaves any
      event down; and none of them touches another event. */
  lemma WaitConsumesAuto(cfg: Config, r: Run, k: nat, t: nat, e: Handle)
    requires IsRun(cfg, r) && k < |r.steps|
    requires r.steps[k] == WaitTest(t, e) || r.steps[k] == WaitFinish(t, e) || r.steps[k] == Reset(t, e)
    ensures e in r.states[k + 1].up <==> e in r.states[k].up && e !in cfg.auto && !r.steps[k].Reset?
    ensures r.states[k + 1].up - {e} == r.states[k].up - {e}
  {
    assert StepAt(cfg, r, k);
  }

  // ---- A set of an associated event tells the set ----

  /** An association stays. */
  lemma {:induction false} PublishedForGood(cfg: Config, r: Run, k: nat, n: nat, t: nat, e: Handle)
    requires IsRun(cfg, r) && k < n < |r.states| && r.steps[k] == Publish(t, e)
    ensures e in r.states[n].assoc
  {
    assert StepAt(cfg, r, n - 1);
    if n > k + 1 {
      PublishedForGood(cfg, r, k, n - 1, t, e);
    }
  }

  /** Step l offers the token of e to the pipe, which takes it unless it is full. */
  ghost predicate OffersToken(cfg: Config, r: Run, l: nat, t: nat, e: Handle)
    requires l < |r.steps| && |r.states| == |r.steps| + 1
  {
    r.steps[l] == SetWrite(t, e) &&
    r.states[l + 1].pipe ==
      if |r.states[l].pipe| < cfg.capacity then r.states[l].pipe + [e] else r.states[l].pipe
  }

  /** The thread has raised e and still owes its token. */
  predicate OwesToken(s: State, t: nat, e: Handle) {
    At(s, t, SetRaised(e)) || At(s, t, SetReleased(e)) || At(s, t, SetSeen(e))
  }

  lemma SetterMoves(cfg: Config, s: State, step: Step, t: nat, e: Handle)
    requires OthersEnabled(s, step) && e in s.assoc && step != SetUnlock(t, e)
    requires OwesToken(s, t, e) || At(s, t, SetDone(e))
    ensures var s' := OthersApply(cfg, s, step);
            e in s'.assoc &&
            if step == SetWrite(t, e) || At(s, t, SetDone(e)) then At(s', t, SetDone(e)) else OwesToken(s', t, e)
  {
    ThreadMoves(cfg, s, step, t);
  }

  lemma {:induction false} SetterOwesToken(cfg: Config, r: Run, k: nat, n: nat, t: nat, e: Handle)
    requires IsRun(cfg, r) && k < n < |r.states|
    requires r.steps[k] == SetRaise(t, e) && e in r.states[k].assoc
    requires forall l | k < l < n :: r.steps[l] != SetUnlock(t, e)
    ensures e in r.states[n].assoc
    ensures OwesToken(r.states[n], t, e) ||
            (At(r.states[n], t, SetDone(e)) && exists l: nat :: k < l < n && OffersToken(cfg, r, l, t, e))
  {
    assert StepAt(cfg, r, n - 1);
    if n > k + 1 {
      SetterOwesToken(cfg, r, k, n - 1, t, e);
      if OthersEnabled(r.states[n - 1], r.steps[n - 1]) {
        SetterMoves(cfg, r.states[n - 1], r.steps[n - 1], t, e);
      }
      if r.steps[n - 1] == SetWrite(t, e) {
        assert OffersToken(cfg, r, n - 1, t, e);
      }
    }
  }

  /** A set of an associated event does not finish without offering the event's token to the pipe. */
  lemma SetOffersToken(cfg: Config, r: Run, k: nat, n: nat, t: nat, e: Handle)
    requires IsRun(cfg, r) && k < n < |r.steps|
    requires r.steps[k] == SetRaise(t, e) && e in r.states[k].assoc && r.steps[n] == SetUnlock(t, e)
    requires forall l | k < l < n :: r.steps[l] != SetUnlock(t, e)
    ensures exists l: nat :: k < l < n && OffersToken(cfg, r, l, t, e)
  {
    SetterOwesToken(cfg, r, k, n, t, e);
    assert StepAt(cfg, r, n);
  }

  // ---- Soundness of the result ----

  /** At state j the member behind h is ready, or the poll of that state times out with its timer kept. */
  ghost predicate SeenReady(cfg: Config, r: Run, j: nat, h: Handle)
    requires j < |r.steps| && j < |r.states|
  {
    exists m :: m in cfg.members && m.h == h &&
      ((m.EventLike() && m.Signal() in r.states[j].up) ||
       (!m.FlagTested() && h in r.states[j].ready) ||
       (m.Timer? && r.steps[j] == PollTimeout && r.states[j].waiter == Polling(h)))
  }

  /** The waiter is about to return h. */
  predicate HoldsHandle(w: WaiterPc, h: Handle) {
    w == Got(h) || (w.Lowering? && w.r == h)
  }

  /** A handle that the waiter is about to return was ready at some instant inside this call. */
  lemma {:induction false} HeldWasReady(cfg: Config, r: Run, n: nat, h: Handle) returns (j: nat)
    requires IsRun(cfg, r) && n < |r.states| && h != NULL_HANDLE
    requires HoldsHandle(r.states[n].waiter, h)
    ensures j < n && SameCall(r, j, n) && SeenReady(cfg, r, j, h)
  {
    var s, step := r.states[n - 1], r.steps[n - 1];
    assert StepAt(cfg, r, n - 1);
    if HoldsHandle(s.waiter, h) {
      j := HeldWasReady(cfg, r, n - 1, h);
    } else {
      j := n - 1;
      RunKeepsInv(cfg, r, n - 1);
      WaiterTakesReady(cfg, s, step, h);
    }
  }

  /** The step by which the waiter takes a handle finds that handle ready. */
  lemma WaiterTakesReady(cfg: Config, s: State, step: Step, h: Handle)
    requires ValidConfig(cfg) && WaiterEnabled(cfg, s, step) && WaiterInv(cfg, s) && h != NULL_HANDLE
    requires !HoldsHandle(s.waiter, h) && HoldsHandle(WaiterApply(cfg, s, step).waiter, h)
    ensures !s.waiter.Idle?
    ensures exists m :: m in cfg.members && m.h == h &&
              ((m.EventLike() && m.Signal() in s.up) ||
               (!m.FlagTested() && h in s.ready) ||
               (m.Timer? && step == PollTimeout && s.waiter == Polling(h)))
  {
    match step
    case Scan(_) => assert cfg.members[s.waiter.next] in cfg.members;
    case DrainTest => LookupFindsMember(cfg.members, s.waiter.token);
    case PollDescriptor => FirstDescriptorIsMember(cfg.members, s.ready);
    case PollTimeout => assert Timer(h) in cfg.members;
    case _ =>
  }

  lemma ReturnedWasReady(cfg: Config, r: Run, n: nat, h: Handle)
    requires IsRun(cfg, r) && n < |r.steps| && r.steps[n] == Return(h) && h != NULL_HANDLE
    ensures exists j: nat :: j < n && SameCall(r, j, n) && SeenReady(cfg, r, j, h)
  {
    assert StepAt(cfg, r, n);
    var j := HeldWasReady(cfg, r, n, h);
  }

  lemma OthersAddToken(cfg: Config, s: State, step: Step, h: Handle)
    requires OthersEnabled(s, step) && h in OthersApply(cfg, s, step).pipe && h !in s.pipe
    ensures Attempt(step) && TokenOf(step) == h
  {
  }

  /** The scan's choice between two timers follows their waits. */
  ghost predicate FollowsWaits(cfg: Config, s: State, step: Step, a: Answers, cap: nat) {
    step.Scan? && s.waiter.Scanning? && s.waiter.next < |cfg.members| && cfg.members[s.waiter.next].Timer? ==>
      (step.sooner <==> a.waitTime(cfg.members[s.waiter.next].h) < LeastWait(cfg.members[..s.waiter.next], cap, a))
  }

  /** The timer that the waiter keeps is the first least one of those it has passed over. */
  ghost predicate KeepsLeast(cfg: Config, w: WaiterPc, a: Answers, cap: nat) {
    match w
    case Scanning(next, timer) =>
      next <= |cfg.members| && timer == LeastTimer(cfg.members[..next], cap, a)
    case Polling(timer) => timer == LeastTimer(cfg.members, cap, a)
    case _ => true
  }

  /** A scan that goes on changes its timer only for a sooner one. */
  lemma ScanGoesOn(cfg: Config, s: State, sooner: bool)
    requires ScanEnabled(cfg, s)
    ensures var m, w := cfg.members[s.waiter.next], ScanStep(cfg, s, sooner);
            !w.Polling? &&
            (w.Scanning? ==> w == Scanning(s.waiter.next + 1, if m.Timer? && sooner then m.h else s.waiter.timer))
  {
  }

  lemma NextLeast(members: seq<Member>, i: nat, sooner: bool, a: Answers, cap: nat)
    requires i < |members|
    requires members[i].Timer? ==> (sooner <==> a.waitTime(members[i].h) < LeastWait(members[..i], cap, a))
    ensures LeastTimer(members[..i + 1], cap, a) ==
            if members[i].Timer? && sooner then members[i].h else LeastTimer(members[..i], cap, a)
  {
    LeastNext(members, i, cap, a);
  }

  lemma ScanKeepsLeast(cfg: Config, s: State, sooner: bool, a: Answers, cap: nat)
    requires ScanEnabled(cfg, s) && KeepsLeast(cfg, s.waiter, a, cap) && FollowsWaits(cfg, s, Scan(sooner), a, cap)
    ensures KeepsLeast(cfg, ScanStep(cfg, s, sooner), a, cap)
  {
    ScanGoesOn(cfg, s, sooner);
    NextLeast(cfg.members, s.waiter.next, sooner, a, cap);
  }

  lemma WaiterKeepsLeast(cfg: Config, s: State, step: Step, a: Answers, cap: nat)
    requires WaiterEnabled(cfg, s, step) && KeepsLeast(cfg, s.waiter, a, cap) && FollowsWaits(cfg, s, step, a, cap)
    ensures KeepsLeast(cfg, WaiterApply(cfg, s, step).waiter, a, cap)
  {
    if step.Scan? {
      ScanKeepsLeast(cfg, s, step.sooner, a, cap);
    } else if step.ScanEnd? {
      assert cfg.members[..|cfg.members|] == cfg.members;
    }
  }

  lemma {:induction false} CallKeepsLeast(cfg: Config, r: Run, j: nat, n: nat, a: Answers, cap: nat)
    requires IsRun(cfg, r) && j <= n < |r.states| && r.states[j].waiter.Purging?
    requires forall l | j <= l < n :: FollowsWaits(cfg, r.states[l], r.steps[l], a, cap)
    ensures KeepsLeast(cfg, r.states[n].waiter, a, cap)
  {
    if j < n {
      CallKeepsLeast(cfg, r, j, n - 1, a, cap);
      assert StepAt(cfg, r, n - 1);
      if !OthersEnabled(r.states[n - 1], r.steps[n - 1]) {
        WaiterKeepsLeast(cfg, r.states[n - 1], r.steps[n - 1], a, cap);
      }
    }
  }

  /** A call whose scan compares the timers by their waits, and whose poll times out, takes the first timer
      with the least wait below the cap, or nothing when no wait is below the cap. */
  lemma TimeoutTakesLeastTimer(cfg: Config, r: Run, j: nat, n: nat, a: Answers, cap: nat)
    requires IsRun(cfg, r) && j <= n < |r.steps| && r.states[j].waiter.Purging? && r.steps[n] == PollTimeout
    requires forall l | j <= l < n :: FollowsWaits(cfg, r.states[l], r.steps[l], a, cap)
    ensures r.states[n + 1].waiter == Got(LeastTimer(cfg.members, cap, a))
    ensures var h := LeastTimer(cfg.members, cap, a);
            h != NULL_HANDLE ==>
              exists i :: 0 <= i < |cfg.members| && cfg.members[i] == Timer(h) &&
                a.waitTime(h) == LeastWait(cfg.members, cap, a) < cap &&
                forall l | 0 <= l < i && cfg.members[l].Timer? :: a.waitTime(cfg.members[l].h) > a.waitTime(h)
  {
    CallKeepsLeast(cfg, r, j, n, a, cap);
    assert StepAt(cfg, r, n);
    var i := LeastTimerIsFirst(cfg.members, cap, a);
  }

  /** Between the purge and the drain the pipe holds only tokens written in this very call. */
  lemma {:induction false} TokensAreFresh(cfg: Config, r: Run, n: nat, h: Handle) returns (k: nat)
    requires IsRun(cfg, r) && n < |r.states|
    requires BeforeDrain(r.states[n].waiter) && h in r.states[n].pipe
    ensures k < n && Attempt(r.steps[k]) && TokenOf(r.steps[k]) == h
    ensures forall l | k <= l <= n :: BeforeDrain(r.states[l].waiter)
  {
    var s, step := r.states[n - 1], r.steps[n - 1];
    assert StepAt(cfg, r, n - 1);
    if OthersEnabled(s, step) {
      if h !in s.pipe {
        OthersAddToken(cfg, s, step, h);
      }
    } else {
      WaiterKeepsPipe(cfg, s, step);
    }
    if h in s.pipe {
      k := TokensAreFresh(cfg, r, n - 1, h);
    } else {
      k := n - 1;
    }
  }

  /** A call that goes on to drain was signalled after its own purge, by somebody else. */
  lemma DrainWasSignalled(cfg: Config, r: Run, n: nat) returns (k: nat)
    requires IsRun(cfg, r) && n < |r.steps| && r.steps[n] == PollPipe && r.states[n].pipe != []
    ensures k < n && Attempt(r.steps[k]) && TokenOf(r.steps[k]) == r.states[n].pipe[0]
    ensures forall l | k <= l <= n :: BeforeDrain(r.states[l].waiter)
  {
    assert StepAt(cfg, r, n);
    k := TokensAreFresh(cfg, r, n, r.states[n].pipe[0]);
  }

  // ---- A drain delivers ----

  /** The drain is at the p-th of the given tokens with the rest of them next in the pipe, or it has
      taken a handle that one of them up to there stands for. */
  ghost predicate DrainAt(cfg: Config, s: State, tokens: seq<Handle>, p: nat) {
    p < |tokens| &&
    match s.waiter
    case Draining => tokens[p..] <= s.pipe
    case DrainTesting(token) => token == tokens[p] && tokens[p + 1..] <= s.pipe
    case Lowering(h, _) => Serves(cfg, h, tokens[p])
    case Got(h) => Serves(cfg, h, tokens[p])
    case _ => false
  }

  /** No wake among the tokens, and the last one names a listed event. */
  ghost predicate Delivering(cfg: Config, tokens: seq<Handle>) {
    tokens != [] && NULL_HANDLE !in tokens &&
    AssocOf(EventList(cfg.members), tokens[|tokens| - 1]) != NULL_HANDLE
  }

  lemma TestedIsServed(cfg: Config, token: Handle)
    requires ValidConfig(cfg) && AssocOf(EventList(cfg.members), token) != NULL_HANDLE
    ensures Serves(cfg, AssocOf(EventList(cfg.members), token), token)
  {
    LookupFindsMember(cfg.members, token);
  }

  lemma FirstOfRest(tokens: seq<Handle>, p: nat, pipe: seq<Handle>)
    requires p < |tokens| && tokens[p..] <= pipe
    ensures pipe != [] && pipe[0] == tokens[p] && tokens[p + 1..] <= pipe[1..]
  {
    assert tokens[p..][0] == tokens[p];
    assert tokens[p..][1..] == tokens[p + 1..];
    assert pipe[..|tokens[p..]|] == tokens[p..];
  }

  lemma DrainGoesOn(cfg: Config, s: State, step: Step, tokens: seq<Handle>, p: nat) returns (p': nat)
    requires ValidConfig(cfg) && WaiterEnabled(cfg, s, step) && !step.Return?
    requires Delivering(cfg, tokens) && DrainAt(cfg, s, tokens, p)
    requires s.waiter.DrainTesting? ==> AssocOf(EventList(cfg.members), tokens[p]) != NULL_HANDLE
    requires s.waiter.DrainTesting? ==> tokens[|tokens| - 1] in s.up
    ensures DrainAt(cfg, WaiterApply(cfg, s, step), tokens, p')
  {
    p' := p;
    if step.DrainRead? {
      FirstOfRest(tokens, p, s.pipe);
      assert tokens[p] in tokens;
      if AssocOf(EventList(cfg.members), tokens[p]) == NULL_HANDLE {
        p' := p + 1;
      }
    } else if step.DrainTest? {
      TestedIsServed(cfg, tokens[p]);
      if tokens[p] !in s.up {
        p' := p + 1;
      }
    }
  }

  lemma {:induction false} DrainStaysOn(cfg: Config, r: Run, k: nat, n: nat, tokens: seq<Handle>) returns (p: nat)
    requires IsRun(cfg, r) && k < n && SameCall(r, k, n) && r.steps[k] == PollPipe
    requires tokens <= r.states[k].pipe && Delivering(cfg, tokens)
    requires forall l | k < l < n && r.states[l].waiter.DrainTesting? :: tokens[|tokens| - 1] in r.states[l].up
    ensures DrainAt(cfg, r.states[n], tokens, p)
  {
    assert StepAt(cfg, r, n - 1);
    if n == k + 1 {
      p := 0;
    } else {
      p := DrainStaysOn(cfg, r, k, n - 1, tokens);
      if OthersEnabled(r.states[n - 1], r.steps[n - 1]) {
        OthersOnlyAdd(cfg, r.states[n - 1], r.steps[n - 1], NULL_HANDLE);
      } else {
        RunKeepsInv(cfg, r, n - 1);
        p := DrainGoesOn(cfg, r.states[n - 1], r.steps[n - 1], tokens, p);
      }
    }
  }

  /** A drain that starts with the token of a listed event in the pipe and no wake before it returns the
      member of that token or of one before it, provided the event is up whenever a token is tested. */
  lemma DrainDelivers(cfg: Config, r: Run, k: nat, n: nat, i: nat)
    requires IsRun(cfg, r) && k < n < |r.steps| && SameCall(r, k, n)
    requires r.steps[k] == PollPipe && r.steps[n].Return?
    requires i < |r.states[k].pipe| && NULL_HANDLE !in r.states[k].pipe[..i + 1]
    requires exists m :: m in cfg.members && m.EventLike() && m.Signal() == r.states[k].pipe[i]
    requires forall l | k < l < n && r.states[l].waiter.DrainTesting? :: r.states[k].pipe[i] in r.states[l].up
    ensures r.steps[n].r != NULL_HANDLE
    ensures exists p :: 0 <= p <= i && Serves(cfg, r.steps[n].r, r.states[k].pipe[p])
  {
    var tokens := r.states[k].pipe[..i + 1];
    LookupFindsMember(cfg.members, tokens[i]);
    var p := DrainStaysOn(cfg, r, k, n, tokens);
    assert StepAt(cfg, r, n);
    assert Serves(cfg, r.steps[n].r, r.states[k].pipe[p]);
  }

  // ---- A standing member is found by the scan ----

  /** The member has something for the caller: its event is up, its queue holds a message, its time is up. */
  predicate Stands(s: State, m: Member) {
    match m
    case Event(h) => h in s.up
    case ResolverOverlapped(_, e) => e in s.up
    case AndroidOverlapped(_, e) => e in s.up
    case WaitQueue(h, _) => h in s.ready
    case SmbOverlapped(h, _) => h in s.ready
    case Timer(h) => h in s.ready
    case Socket(_) => false
    case AndroidFile(_) => false
    case Unsynchronized(_) => false
  }

  /** The waiter has not got past member i, or holds a member at or before it. */
  ghost predicate AtOrBefore(cfg: Config, w: WaiterPc, i: nat)
    requires i < |cfg.members|
  {
    match w
    case Purging => true
    case Scanning(next, _) => next <= i
    case Lowering(h, _) => exists j :: 0 <= j <= i && cfg.members[j].h == h
    case Got(h) => exists j :: 0 <= j <= i && cfg.members[j].h == h
    case _ => false
  }

  lemma WaiterFindsMember(cfg: Config, s: State, step: Step, i: nat)
    requires WaiterEnabled(cfg, s, step) && i < |cfg.members|
    requires AtOrBefore(cfg, s.waiter, i) && !WaiterApply(cfg, s, step).waiter.Idle?
    requires s.waiter.Purging? || s.waiter.Scanning? ==> Stands(s, cfg.members[i])
    ensures AtOrBefore(cfg, WaiterApply(cfg, s, step).waiter, i)
  {
    if step.Scan? {
      assert cfg.members[s.waiter.next].h == cfg.members[s.waiter.next].h;
    }
  }

  /** The member stands ready in every state of the call, up to n, in which the waiter purges or scans. */
  ghost predicate StandsThroughout(cfg: Config, r: Run, k: nat, n: nat, i: nat)
    requires n < |r.states| && i < |cfg.members|
  {
    forall l | k <= l <= n && (r.states[l].waiter.Purging? || r.states[l].waiter.Scanning?) ::
      Stands(r.states[l], cfg.members[i])
  }

  lemma {:induction false} StandingMemberIsFound(cfg: Config, r: Run, k: nat, n: nat, i: nat)
    requires IsRun(cfg, r) && k <= n && i < |cfg.members| && SameCall(r, k, n)
    requires r.states[k].waiter.Purging? && StandsThroughout(cfg, r, k, n, i)
    ensures AtOrBefore(cfg, r.states[n].waiter, i)
  {
    if k < n {
      StandingMemberIsFound(cfg, r, k, n - 1, i);
      assert StepAt(cfg, r, n - 1);
      if !OthersEnabled(r.states[n - 1], r.steps[n - 1]) {
        WaiterFindsMember(cfg, r.states[n - 1], r.steps[n - 1], i);
      }
    }
  }

  /** A member that stands ready while the call purges and scans, be it by a flag, a queue or a timer, makes
      the call return it or an earlier one without polling, whatever became of its tokens. */
  lemma StandingMemberIsReturned(cfg: Config, r: Run, k: nat, n: nat, i: nat)
    requires IsRun(cfg, r) && k <= n < |r.steps| && i < |cfg.members| && SameCall(r, k, n)
    requires r.states[k].waiter.Purging? && StandsThroughout(cfg, r, k, n, i) && r.steps[n].Return?
    ensures exists j :: 0 <= j <= i && cfg.members[j].h == r.steps[n].r
    ensures forall l | k <= l < n :: !r.states[l].waiter.Polling? && !r.states[l].waiter.Draining?
  {
    StandingMemberIsFound(cfg, r, k, n, i);
    assert StepAt(cfg, r, n);
    forall l | k <= l < n ensures !r.states[l].waiter.Polling? && !r.states[l].waiter.Draining? {
      StandingMemberIsFound(cfg, r, k, l, i);
    }
  }

  // ---- Conservation of sets ----

  /** How many of the first n steps raise e. */
  ghost function Sets(r: Run, e: Handle, n: nat): nat
    requires n <= |r.steps|
  {
    if n == 0 then 0
    else Sets(r, e, n - 1) + (if r.steps[n - 1].SetRaise? && r.steps[n - 1].e == e then 1 else 0)
  }

  /** How many of the first n steps return e to the caller of the wait. */
  ghost function Returns(r: Run, e: Handle, n: nat): nat
    requires n <= |r.steps|
  {
    if n == 0 then 0
    else Returns(r, e, n - 1) + (if r.steps[n - 1] == Return(e) then 1 else 0)
  }

  /** e is in the set as an event and as nothing else. */
  ghost predicate OnlyAsEvent(cfg: Config, e: Handle) {
    forall m | m in cfg.members && (m.h == e || (m.EventLike() && m.Signal() == e)) :: m == Event(e)
  }

  function FlagCount(s: State, e: Handle): nat {
    if e in s.up then 1 else 0
  }

  /** Sets not yet returned: one for a raised flag, and one for a return under way. A set that lands
      between the test and the reset merges with the one being returned. */
  function Outstanding(s: State, e: Handle): nat {
    if s.waiter == Got(e) then 1 + FlagCount(s, e)
    else if s.waiter.Lowering? && s.waiter.r == e then 1
    else FlagCount(s, e)
  }

  /** An automatic event is never returned more often than it was set, whoever else resets it. */
  lemma {:induction false} ReturnsNeverExceedSets(cfg: Config, r: Run, n: nat, e: Handle)
    requires IsRun(cfg, r) && n < |r.states|
    requires e in cfg.auto && e != NULL_HANDLE && OnlyAsEvent(cfg, e)
    ensures Returns(r, e, n) + Outstanding(r.states[n], e) <= Sets(r, e, n)
    ensures Returns(r, e, n) + FlagCount(r.states[n], e) <= Sets(r, e, n)
  {
    if n > 0 {
      var s, step := r.states[n - 1], r.steps[n - 1];
      assert StepAt(cfg, r, n - 1);
      ReturnsNeverExceedSets(cfg, r, n - 1, e);
      RunKeepsInv(cfg, r, n - 1);
      StepConservesSets(cfg, s, step, e);
    }
  }

  lemma StepConservesSets(cfg: Config, s: State, step: Step, e: Handle)
    requires ValidConfig(cfg) && Enabled(cfg, s, step) && WaiterInv(cfg, s)
    requires e in cfg.auto && e != NULL_HANDLE && OnlyAsEvent(cfg, e)
    ensures Outstanding(Apply(cfg, s, step), e) + (if step == Return(e) then 1 else 0) <=
            Outstanding(s, e) + (if step.SetRaise? && step.e == e then 1 else 0)
  {
    if !OthersEnabled(s, step) {
      WaiterConservesSets(cfg, s, step, e);
    }
  }

  lemma WaiterConservesSets(cfg: Config, s: State, step: Step, e: Handle)
    requires ValidConfig(cfg) && WaiterEnabled(cfg, s, step) && WaiterInv(cfg, s)
    requires e in cfg.auto && e != NULL_HANDLE && OnlyAsEvent(cfg, e)
    ensures Outstanding(WaiterApply(cfg, s, step), e) + (if step == Return(e) then 1 else 0) <= Outstanding(s, e)
  {
    if s.waiter.Lowering? {
      assert Serves(cfg, s.waiter.r, s.waiter.e);
    } else if !s.waiter.Got? && HoldsHandle(WaiterApply(cfg, s, step).waiter, e) {
      AutoIsTakenByLowering(cfg, s, step, e);
    }
  }

  /** The waiter takes an automatic event only with the flag up, and lowers it before returning it. */
  lemma AutoIsTakenByLowering(cfg: Config, s: State, step: Step, e: Handle)
    requires ValidConfig(cfg) && WaiterEnabled(cfg, s, step) && WaiterInv(cfg, s)
    requires e in cfg.auto && e != NULL_HANDLE && OnlyAsEvent(cfg, e)
    requires !HoldsHandle(s.waiter, e) && HoldsHandle(WaiterApply(cfg, s, step).waiter, e)
    ensures e in s.up && (WaiterApply(cfg, s, step).waiter.Lowering? || s.waiter.Lowering?)
  {
    WaiterTakesReady(cfg, s, step, e);
    match step
    case Scan(_) => assert cfg.members[s.waiter.next] in cfg.members;
    case DrainTest => LookupFindsMember(cfg.members, s.waiter.token);
    case PollDescriptor => FirstDescriptorIsMember(cfg.members, s.ready);
    case _ =>
  }

  /** A step outside the wait set that can lower e. */
  predicate OutsideLower(step: Step, e: Handle) {
    (step.Reset? || step.WaitTest? || step.WaitFinish?) && step.e == e
  }

  /** The waiter is returning a member whose event is e. */
  ghost predicate Returning(cfg: Config, w: WaiterPc, e: Handle) {
    (w.Lowering? && w.e == e) || (w.Got? && Serves(cfg, w.r, e))
  }

  lemma WaiterDelivers(cfg: Config, s: State, step: Step, e: Handle)
    requires WaiterEnabled(cfg, s, step) && WaiterInv(cfg, s)
    requires e in s.up || Returning(cfg, s.waiter, e)
    ensures e in WaiterApply(cfg, s, step).up || Returning(cfg, WaiterApply(cfg, s, step).waiter, e) ||
            (step.Return? && Serves(cfg, step.r, e))
  {
  }

  /** With the wait set as the only consumer no set is forgotten: the flag is still up, or a return of
      its member is under way, or such a return completed after the set, even when the set landed
      between the waiter's test and its reset. */
  lemma {:induction false} EverySetIsDelivered(cfg: Config, r: Run, k: nat, n: nat, e: Handle)
    requires IsRun(cfg, r) && k < n < |r.states|
    requires r.steps[k].SetRaise? && r.steps[k].e == e
    requires forall l | k < l < n :: !OutsideLower(r.steps[l], e)
    ensures e in r.states[n].up || Returning(cfg, r.states[n].waiter, e) ||
            exists l :: k < l < n && r.steps[l].Return? && Serves(cfg, r.steps[l].r, e)
  {
    assert StepAt(cfg, r, n - 1);
    if n > k + 1 {
      EverySetIsDelivered(cfg, r, k, n - 1, e);
      RunKeepsInv(cfg, r, n - 1);
      if !OthersEnabled(r.states[n - 1], r.steps[n - 1]) &&
         (e in r.states[n - 1].up || Returning(cfg, r.states[n - 1].waiter, e)) {
        WaiterDelivers(cfg, r.states[n - 1], r.steps[n - 1], e);
      }
    }
  }
}
