/** The simple machine that the pipe implements: a level-triggered wait with no pipe and no tokens. The
    protocol refines it step by step. */
module LevelWait {
  import opened Members
  import opened Protocol
  import opened ProtocolInvariants
  import opened ProtocolRuns

  datatype Caller = Away | Entering | Waiting | Taking(h: Handle, e: Handle) | Done(h: Handle)

  /** What others have signalled since the call settled down to wait: how often, and whether as a wake. */
  datatype Heard = Heard(signals: nat, wake: bool)

  /** told: associated events that are up and whose set or publication is complete. */
  datatype LevelState = LevelState(up: set<Handle>, told: set<Handle>, ready: set<Handle>, caller: Caller, heard: Heard)

  /** Another(e) is a step of another thread on event e, or a wake when e is null; World is a change of
      queues, timers and descriptors, Settle the start of the wait proper, Interrupted a failed poll. */
  datatype LevelStep =
    | Another(e: Handle) | World(ready: set<Handle>)
    | Enter | Settle | Take(h: Handle) | TakeAuto(h: Handle, e: Handle) | LowerFlag
    | TimeOut(h: Handle) | Interrupted | EmptyHanded | Leave(h: Handle)

  /** A member that a wait may return as it stands; an automatic event is taken by TakeAuto instead. */
  ghost predicate Takeable(cfg: Config, a: LevelState, m: Member) {
    (m.Event? && m.h in a.up && m.h !in cfg.auto) ||
    (!m.Event? && m.EventLike() && m.Signal() in a.up) ||
    (!m.FlagTested() && m.h in a.ready)
  }

  /** No member event is told. */
  ghost predicate NothingTold(cfg: Config, a: LevelState) {
    forall m | m in cfg.members && m.FlagTested() :: m.Signal() !in a.told
  }

  ghost predicate LevelNext(cfg: Config, a: LevelState, step: LevelStep, a': LevelState) {
    match step
    case Another(e) =>
      // whatever becomes of e, a told event is up and every other event is left alone
      && a'.caller == a.caller && a'.ready == a.ready && (e in a'.told ==> e in a'.up)
      && (forall x | x != e :: (x in a'.up <==> x in a.up) && (x in a'.told <==> x in a.told))
      && (a'.heard == a.heard || a'.heard == Heard(a.heard.signals + 1, a.heard.wake || e == NULL_HANDLE))
    case World(ready) => a' == a.(ready := ready)
    case Enter => a.caller.Away? && a' == a.(caller := Entering)
    case Settle => a.caller.Entering? && a' == a.(caller := Waiting, heard := Heard(0, false))
    case Take(h) =>
      a.caller.Waiting? && a' == a.(caller := Done(h)) &&
      exists m :: m in cfg.members && m.h == h && Takeable(cfg, a, m)
    case TakeAuto(h, e) =>
      a.caller.Waiting? && a' == a.(caller := Taking(h, e)) &&
      e in cfg.auto && e in a.up && Serves(cfg, h, e)
    case LowerFlag =>
      a.caller.Taking? &&
      a' == a.(caller := Done(a.caller.h), up := a.up - {a.caller.e}, told := a.told - {a.caller.e})
    case TimeOut(h) =>
      // no member is standing ready, so this wait may run to its timeout
      a.caller.Waiting? && a' == a.(caller := Done(h)) && TimerOk(cfg, h) && NothingTold(cfg, a) &&
      a.heard == Heard(0, false) && forall m | m in cfg.members && m.Polled() :: m.h !in a.ready
    case Interrupted => a.caller.Waiting? && a' == a.(caller := Done(NULL_HANDLE))
    case EmptyHanded =>
      // somebody signalled for nothing: as a wake, or more than the capacity, or about events no longer told
      a.caller.Waiting? && a' == a.(caller := Done(NULL_HANDLE)) &&
      (a.heard.wake || a.heard.signals > cfg.capacity || (a.heard.signals > 0 && NothingTold(cfg, a)))
    case Leave(h) => a.caller == Done(h) && a' == a.(caller := Away)
  }

  ghost function CallerOf(w: WaiterPc): Caller {
    match w
    case Idle => Away
    case Purging => Entering
    case Lowering(h, e) => Taking(h, e)
    case Got(h) => Done(h)
    case _ => Waiting
  }

  ghost function Told(s: State): set<Handle> {
    set e | e in s.up && e in s.assoc && !SomeoneInFlight(s, e)
  }

  /** The level-triggered view of a protocol state: pipe, mutexes and positions are forgotten. */
  ghost function Abs(s: State, heard: Heard): LevelState {
    LevelState(s.up, Told(s), s.ready, CallerOf(s.waiter), heard)
  }

  /** How a step adds to what was heard. */
  function HeardAfter(heard: Heard, step: Step): Heard {
    if step.PurgeEnd? then Heard(0, false)
    else if Attempt(step) then Heard(heard.signals + 1, heard.wake || TokenOf(step) == NULL_HANDLE)
    else heard
  }

  /** The event that a step of another thread is about; null for the steps that concern none. */
  function EventOf(step: Step): Handle {
    match step
    case SetRaise(_, e) => e
    case SetRelease(_, e) => e
    case SetLook(_, e) => e
    case SetWrite(_, e) => e
    case SetUnlock(_, e) => e
    case Reset(_, e) => e
    case WaitTest(_, e) => e
    case WaitFinish(_, e) => e
    case SpuriousWake(_, e) => e
    case Publish(_, e) => e
    case PublishTest(_, e) => e
    case PublishWrite(_, e) => e
    case _ => NULL_HANDLE
  }

  /** The level-triggered step that a protocol step amounts to, when it is not silent. */
  ghost function LevelStepOf(cfg: Config, s: State, step: Step): LevelStep
    requires Enabled(cfg, s, step)
  {
    if OthersEnabled(s, step) then (if step.Environment? then World(step.ready) else Another(EventOf(step)))
    else
      var w := WaiterApply(cfg, s, step).waiter;
      if step.Begin? then Enter
      else if step.PurgeEnd? then Settle
      else if step.Return? then Leave(step.r)
      else if step.Lower? then LowerFlag
      else if step.PollTimeout? then TimeOut(w.r)
      else if step.PollError? then Interrupted
      else Outcome(w)
  }

  /** The step by which a wait ends that leaves the waiter at w. */
  function Outcome(w: WaiterPc): LevelStep {
    if w.Lowering? then TakeAuto(w.r, w.e)
    else if w.Got? && w.r != NULL_HANDLE then Take(w.r)
    else EmptyHanded
  }

  // ---- What the protocol keeps about the signals ----

  /** From the end of the purge to the end of the drain. */
  predicate Listening(w: WaiterPc) {
    BeforeDrain(w) || w.Draining? || w.DrainTesting?
  }

  /** How many members the scan has passed over, also while the drain goes on. */
  function Looked(cfg: Config, w: WaiterPc): nat {
    if w.Draining? || w.DrainTesting? then |cfg.members| else Passed(cfg, w)
  }

  /** A told event has its token in the pipe or just read, or more was signalled than the pipe can hold. */
  ghost predicate Announced(cfg: Config, s: State, heard: Heard, e: Handle) {
    e in s.up && e in s.assoc ==>
      e in s.pipe || s.waiter == DrainTesting(e) || heard.signals > cfg.capacity || SomeoneInFlight(s, e)
  }

  ghost predicate HeardInv(cfg: Config, s: State, heard: Heard) {
    && (Listening(s.waiter) ==> |s.pipe| <= heard.signals && (NULL_HANDLE in s.pipe ==> heard.wake))
    && (s.waiter.Draining? || s.waiter.DrainTesting? ==> heard.signals > 0)
    && (BeforeDrain(s.waiter) && s.pipe == [] ==> heard == Heard(0, false))
    && forall j | 0 <= j < Looked(cfg, s.waiter) && cfg.members[j].FlagTested() ::
         Announced(cfg, s, heard, cfg.members[j].Signal())
  }

  lemma OthersKeepHeard(cfg: Config, s: State, heard: Heard, step: Step)
    requires ValidConfig(cfg) && OthersEnabled(s, step) && HeardInv(cfg, s, heard)
    ensures HeardInv(cfg, OthersApply(cfg, s, step), HeardAfter(heard, step))
  {
    var s', heard' := OthersApply(cfg, s, step), HeardAfter(heard, step);
    OthersOnlyAdd(cfg, s, step, NULL_HANDLE);
    forall j | 0 <= j < Looked(cfg, s'.waiter) && cfg.members[j].FlagTested()
      ensures Announced(cfg, s', heard', cfg.members[j].Signal())
    {
      OthersKeepAnnounced(cfg, s, heard, step, cfg.members[j].Signal());
    }
  }

  lemma OthersKeepAnnounced(cfg: Config, s: State, heard: Heard, step: Step, e: Handle)
    requires OthersEnabled(s, step) && |s.pipe| <= heard.signals && Announced(cfg, s, heard, e)
    ensures Announced(cfg, OthersApply(cfg, s, step), HeardAfter(heard, step), e)
  {
    NewsIsInFlight(cfg, s, step, e);
    OthersOnlyAdd(cfg, s, step, e);
    if e in s.up && e in s.assoc && SomeoneInFlight(s, e) {
      var t :| 0 <= t < |s.threads| && InFlight(s.threads[t], e);
      FlightGoesOn(cfg, s, step, e, t);
    }
  }

  lemma WaiterKeepsHeard(cfg: Config, s: State, heard: Heard, step: Step)
    requires ValidConfig(cfg) && WaiterEnabled(cfg, s, step) && HeardInv(cfg, s, heard)
    ensures HeardInv(cfg, WaiterApply(cfg, s, step), HeardAfter(heard, step))
  {
    var s', heard' := WaiterApply(cfg, s, step), HeardAfter(heard, step);
    forall j | 0 <= j < Looked(cfg, s'.waiter) && cfg.members[j].FlagTested()
      ensures Announced(cfg, s', heard', cfg.members[j].Signal())
    {
      WaiterKeepsAnnounced(cfg, s, heard, step, j);
    }
  }

  lemma WaiterKeepsAnnounced(cfg: Config, s: State, heard: Heard, step: Step, j: nat)
    requires ValidConfig(cfg) && WaiterEnabled(cfg, s, step)
    requires j < Looked(cfg, WaiterApply(cfg, s, step).waiter) && cfg.members[j].FlagTested()
    requires j < Looked(cfg, s.waiter) ==> Announced(cfg, s, heard, cfg.members[j].Signal())
    ensures Announced(cfg, WaiterApply(cfg, s, step), HeardAfter(heard, step), cfg.members[j].Signal())
  {
    var s', m := WaiterApply(cfg, s, step), cfg.members[j];
    assert SomeoneInFlight(s, m.Signal()) ==> SomeoneInFlight(s', m.Signal());
    if step.DrainRead? {
      assert m in cfg.members;
      LookupFindsMember(cfg.members, m.Signal());
    }
  }

  lemma StepKeepsHeard(cfg: Config, s: State, heard: Heard, step: Step)
    requires ValidConfig(cfg) && Enabled(cfg, s, step) && HeardInv(cfg, s, heard)
    ensures HeardInv(cfg, Apply(cfg, s, step), HeardAfter(heard, step))
  {
    if OthersEnabled(s, step) {
      OthersKeepHeard(cfg, s, heard, step);
    } else {
      WaiterKeepsHeard(cfg, s, heard, step);
    }
  }

  // ---- The refinement ----

  /** Every protocol step is silent or a step of the level-triggered wait. */
  lemma StepRefines(cfg: Config, s: State, heard: Heard, step: Step)
    requires ValidConfig(cfg) && Enabled(cfg, s, step) && Inv(cfg, s) && HeardInv(cfg, s, heard)
    ensures var a, a' := Abs(s, heard), Abs(Apply(cfg, s, step), HeardAfter(heard, step));
            a' == a || LevelNext(cfg, a, LevelStepOf(cfg, s, step), a')
  {
    if OthersEnabled(s, step) {
      OthersRefine(cfg, s, heard, step);
    } else {
      WaiterRefines(cfg, s, heard, step);
    }
  }

  /** A step of another thread puts no thread in flight for, or out of flight from, any other event. */
  lemma OthersTouchOneEvent(cfg: Config, s: State, step: Step, x: Handle, t: nat)
    requires OthersEnabled(s, step) && x != EventOf(step) && t < |s.threads|
    ensures InFlight(OthersApply(cfg, s, step).threads[t], x) <==> InFlight(s.threads[t], x)
  {
  }

  /** Its effect on flags and on what is told is confined to that event. */
  lemma OthersLeaveRest(cfg: Config, s: State, step: Step, x: Handle)
    requires OthersEnabled(s, step) && x != EventOf(step)
    ensures var s' := OthersApply(cfg, s, step);
            (x in s'.up <==> x in s.up) && (x in Told(s') <==> x in Told(s))
  {
    var s' := OthersApply(cfg, s, step);
    forall t | 0 <= t < |s.threads|
      ensures InFlight(s'.threads[t], x) <==> InFlight(s.threads[t], x)
    {
      OthersTouchOneEvent(cfg, s, step, x, t);
    }
    assert SomeoneInFlight(s', x) <==> SomeoneInFlight(s, x);
    assert x in s'.assoc <==> x in s.assoc;
  }

  lemma OthersRefine(cfg: Config, s: State, heard: Heard, step: Step)
    requires OthersEnabled(s, step)
    ensures LevelNext(cfg, Abs(s, heard), if step.Environment? then World(step.ready) else Another(EventOf(step)),
                      Abs(OthersApply(cfg, s, step), HeardAfter(heard, step)))
  {
    var s' := OthersApply(cfg, s, step);
    if step.Environment? {
      assert forall e :: SomeoneInFlight(s', e) <==> SomeoneInFlight(s, e);
      assert Told(s') == Told(s);
    } else {
      forall x | x != EventOf(step)
        ensures (x in s'.up <==> x in s.up) && (x in Told(s') <==> x in Told(s))
      {
        OthersLeaveRest(cfg, s, step, x);
      }
    }
  }

  /** A step by which the waiter looks for something, as opposed to one that begins or ends a phase. */
  predicate Looks(step: Step) {
    step.PurgeRead? || step.Scan? || step.ScanEnd? || step.PollPipe? || step.PollDescriptor? ||
    step.DrainRead? || step.DrainTest?
  }

  lemma WaiterRefines(cfg: Config, s: State, heard: Heard, step: Step)
    requires ValidConfig(cfg) && WaiterEnabled(cfg, s, step) && Inv(cfg, s) && HeardInv(cfg, s, heard)
    ensures var a, a' := Abs(s, heard), Abs(WaiterApply(cfg, s, step), HeardAfter(heard, step));
            a' == a || LevelNext(cfg, a, LevelStepOf(cfg, s, step), a')
  {
    if Looks(step) {
      LookRefines(cfg, s, heard, step);
    } else {
      PhaseRefines(cfg, s, heard, step);
    }
  }

  lemma PhaseRefines(cfg: Config, s: State, heard: Heard, step: Step)
    requires ValidConfig(cfg) && WaiterEnabled(cfg, s, step) && Inv(cfg, s) && HeardInv(cfg, s, heard) && !Looks(step)
    ensures LevelNext(cfg, Abs(s, heard), LevelStepOf(cfg, s, step),
                      Abs(WaiterApply(cfg, s, step), HeardAfter(heard, step)))
  {
    WaiterKeepsTold(cfg, s, step);
    if step.PollTimeout? {
      TimeoutFindsNobodyReady(cfg, s, heard);
    }
  }

  lemma LookRefines(cfg: Config, s: State, heard: Heard, step: Step)
    requires ValidConfig(cfg) && WaiterEnabled(cfg, s, step) && WaiterInv(cfg, s) && HeardInv(cfg, s, heard)
    requires Looks(step)
    ensures var a, a' := Abs(s, heard), Abs(WaiterApply(cfg, s, step), heard);
            a' == a || LevelNext(cfg, a, Outcome(WaiterApply(cfg, s, step).waiter), a')
  {
    var s' := WaiterApply(cfg, s, step);
    WaiterKeepsTold(cfg, s, step);
    LookMoves(cfg, s, step);
    if s'.waiter == Got(NULL_HANDLE) {
      EmptyAfterSignals(cfg, s, heard, step);
    } else if s'.waiter.Got? || s'.waiter.Lowering? {
      WaiterTakesTakeable(cfg, s, heard, step);
    }
    OutcomeRefines(cfg, s, s', heard);
  }

  lemma LookMoves(cfg: Config, s: State, step: Step)
    requires WaiterEnabled(cfg, s, step) && Looks(step)
    ensures var w := WaiterApply(cfg, s, step).waiter;
            if s.waiter.Purging? then w == s.waiter
            else Listening(s.waiter) && (Listening(w) || w.Got? || w.Lowering?)
  {
  }

  /** Looking is silent until the waiter takes something or gives up. */
  lemma OutcomeRefines(cfg: Config, s: State, s': State, heard: Heard)
    requires s' == s.(waiter := s'.waiter, pipe := s'.pipe) && Told(s') == Told(s)
    requires s'.waiter == s.waiter ||
             (Listening(s.waiter) && (Listening(s'.waiter) || s'.waiter.Got? || s'.waiter.Lowering?))
    requires s'.waiter.Lowering? ==>
               s'.waiter.e in cfg.auto && s'.waiter.e in s.up && Serves(cfg, s'.waiter.r, s'.waiter.e)
    requires s'.waiter.Got? && s'.waiter.r != NULL_HANDLE ==>
               exists m :: m in cfg.members && m.h == s'.waiter.r && Takeable(cfg, Abs(s, heard), m)
    requires s'.waiter == Got(NULL_HANDLE) ==>
               heard.wake || heard.signals > cfg.capacity || (heard.signals > 0 && NothingTold(cfg, Abs(s, heard)))
    ensures Abs(s', heard) == Abs(s, heard) ||
            LevelNext(cfg, Abs(s, heard), Outcome(s'.waiter), Abs(s', heard))
  {
  }

  /** The waiter comes back empty-handed only from a drain that reads a wake, or that reads to the end of
      the pipe and meets no told event on the way. */
  lemma EmptyAfterSignals(cfg: Config, s: State, heard: Heard, step: Step)
    requires ValidConfig(cfg) && WaiterEnabled(cfg, s, step) && WaiterInv(cfg, s) && HeardInv(cfg, s, heard)
    requires WaiterApply(cfg, s, step).waiter == Got(NULL_HANDLE)
    requires Looks(step)
    ensures step.DrainRead?
    ensures heard.wake || heard.signals > cfg.capacity || (heard.signals > 0 && NothingTold(cfg, Abs(s, heard)))
  {
    if step.DrainRead? && s.pipe == [] {
      forall m | m in cfg.members && m.FlagTested() && m.Signal() in Told(s)
        ensures heard.signals > cfg.capacity
      {
        var j :| 0 <= j < |cfg.members| && cfg.members[j] == m;
        assert Announced(cfg, s, heard, cfg.members[j].Signal());
      }
    }
  }

  /** Only the waiter's own reset takes an event out of the told ones while the waiter moves. */
  lemma WaiterKeepsTold(cfg: Config, s: State, step: Step)
    requires WaiterEnabled(cfg, s, step)
    ensures var s' := WaiterApply(cfg, s, step);
            if step.Lower? then s'.up == s.up - {s.waiter.e} && Told(s') == Told(s) - {s.waiter.e}
            else s'.up == s.up && Told(s') == Told(s)
  {
    var s' := WaiterApply(cfg, s, step);
    assert forall e :: SomeoneInFlight(s', e) <==> SomeoneInFlight(s, e);
  }

  /** What the waiter takes by scanning, polling or draining is takeable. */
  lemma WaiterTakesTakeable(cfg: Config, s: State, heard: Heard, step: Step)
    requires ValidConfig(cfg) && WaiterEnabled(cfg, s, step) && WaiterInv(cfg, s) && Looks(step)
    ensures var w := WaiterApply(cfg, s, step).waiter;
            && (w.Lowering? ==> w.e in cfg.auto && w.e in s.up && Serves(cfg, w.r, w.e))
            && (w.Got? && w.r != NULL_HANDLE ==>
                  exists m :: m in cfg.members && m.h == w.r && Takeable(cfg, Abs(s, heard), m))
  {
    match step
    case Scan(_) => assert cfg.members[s.waiter.next] in cfg.members;
    case DrainTest => LookupFindsMember(cfg.members, s.waiter.token);
    case PollDescriptor => FirstDescriptorIsMember(cfg.members, s.ready);
    case _ =>
  }

  /** A poll times out only when no member stands ready and nothing was signalled. */
  lemma TimeoutFindsNobodyReady(cfg: Config, s: State, heard: Heard)
    requires ValidConfig(cfg) && Inv(cfg, s) && HeardInv(cfg, s, heard) && Enabled(cfg, s, PollTimeout)
    ensures NothingTold(cfg, Abs(s, heard)) && heard == Heard(0, false)
    ensures forall m | m in cfg.members && m.Polled() :: m.h !in s.ready
  {
    var i := FirstDescriptorIsFirst(cfg.members, s.ready);
    assert forall j | 0 <= j < |cfg.members| :: cfg.members[j] in cfg.members;
    forall m | m in cfg.members
      ensures (m.FlagTested() ==> m.Signal() !in Told(s)) && (m.Polled() ==> m.h !in s.ready)
    {
      var j :| 0 <= j < |cfg.members| && cfg.members[j] == m;
      assert m.FlagTested() && m.Signal() in s.up && m.Signal() in s.assoc ==> Covered(cfg, s, m.Signal());
    }
  }

  // ---- Whole runs ----

  /** What was heard in the first n steps of a run. */
  ghost function HeardAt(r: Run, n: nat): Heard
    requires n <= |r.steps|
  {
    if n == 0 then Heard(0, false) else HeardAfter(HeardAt(r, n - 1), r.steps[n - 1])
  }

  lemma {:induction false} RunKeepsHeard(cfg: Config, r: Run, n: nat)
    requires IsRun(cfg, r) && n <= |r.steps|
    ensures HeardInv(cfg, r.states[n], HeardAt(r, n))
  {
    if n > 0 {
      RunKeepsHeard(cfg, r, n - 1);
      assert StepAt(cfg, r, n - 1);
      StepKeepsHeard(cfg, r.states[n - 1], HeardAt(r, n - 1), r.steps[n - 1]);
    }
  }

  /** The refinement over whole runs: each step of a run is silent or a step of the level-triggered wait
      from the view of one state to the view of the next. */
  lemma RunRefines(cfg: Config, r: Run, n: nat)
    requires IsRun(cfg, r) && n < |r.steps|
    ensures StepAt(cfg, r, n)
    ensures var a, a' := Abs(r.states[n], HeardAt(r, n)), Abs(r.states[n + 1], HeardAt(r, n + 1));
            a' == a || LevelNext(cfg, a, LevelStepOf(cfg, r.states[n], r.steps[n]), a')
  {
    assert StepAt(cfg, r, n);
    RunKeepsInv(cfg, r, n);
    RunKeepsHeard(cfg, r, n);
    StepRefines(cfg, r.states[n], HeardAt(r, n), r.steps[n]);
  }
}
