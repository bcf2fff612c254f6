/** The wake-up protocol as an interleaved step machine: one waiter on one wait set, any number of
    other threads that set, reset, wait for and publish events, wake the set or delete its thread.

    A step is one access to shared state. An event mutex held over several accesses is held over
    several steps; a critical section with a single access is one step that needs the mutex free.
    Locking a handle only counts a reference and so takes no part. */
module Protocol {
  import opened Members

  /** What stays fixed during a run: the handle queue of the set, the number of handles its pipe can
      hold, and which events are automatic. */
  datatype Config = Config(members: seq<Member>, capacity: nat, auto: set<Handle>)

  /** Where a thread other than the waiter is, each constructor naming what it has just done. */
  datatype ThreadPc =
    | Free
    | SetRaised(e: Handle)      // holds the mutex, flag is up
    | SetReleased(e: Handle)    // holds the mutex, has broadcast
    | SetSeen(e: Handle)        // holds the mutex, has seen the association, will write
    | SetDone(e: Handle)        // holds the mutex, nothing left but to unlock
    | Blocked(e: Handle)        // in the condition wait
    | Woken(e: Handle)          // released by the condition, still to take the mutex again
    | Published(e: Handle)      // has associated the event, still to test it
    | PublishedUp(e: Handle)    // found the flag up after associating, will write
    | DeleteRaised              // has raised the delete flag
    | DeleteSeen                // has seen that a wait set is registered, will write a wake

  /** Where the waiter is inside one wait call. */
  datatype WaiterPc =
    | Idle
    | Purging
    | Scanning(next: nat, timer: Handle)
    | Polling(timer: Handle)
    | Draining
    | DrainTesting(token: Handle)
    | Lowering(r: Handle, e: Handle)
    | Got(r: Handle)

  /** up: raised flags. assoc: events associated with this set. held: the thread that holds each taken
      mutex. ready: handles whose queue, timer or descriptor is ready. */
  datatype State = State(
    up: set<Handle>, assoc: set<Handle>, held: map<Handle, nat>, ready: set<Handle>,
    pipe: seq<Handle>, threads: seq<ThreadPc>, waiter: WaiterPc,
    deleteMe: bool, registered: bool)

  datatype Step =
    // ofc_event_set_impl
    | SetRaise(t: nat, e: Handle) | SetRelease(t: nat, e: Handle) | SetLook(t: nat, e: Handle)
    | SetWrite(t: nat, e: Handle) | SetUnlock(t: nat, e: Handle)
    // ofc_event_reset_impl, ofc_event_wait_impl
    | Reset(t: nat, e: Handle)
    | WaitTest(t: nat, e: Handle) | WaitFinish(t: nat, e: Handle) | SpuriousWake(t: nat, e: Handle)
    // ofc_waitset_add_impl on an event
    | Publish(t: nat, e: Handle) | PublishTest(t: nat, e: Handle) | PublishWrite(t: nat, e: Handle)
    // ofc_waitset_wake_impl, ofc_thread_delete_impl, ofc_thread_set_waitset_impl
    | Wake(t: nat)
    | DeleteRaise(t: nat) | DeleteLook(t: nat) | DeleteWake(t: nat)
    | Register(registered: bool)
    // queues, timers and descriptors change
    | Environment(ready: set<Handle>)
    // ofc_waitset_wait_impl
    | Begin | PurgeRead | PurgeEnd
    | Scan(sooner: bool) | ScanEnd
    | PollPipe | PollDescriptor | PollTimeout | PollError
    | DrainRead | DrainTest
    | Lower | Return(r: Handle)

  ghost predicate ValidConfig(cfg: Config) {
    cfg.capacity >= 1 && Live(cfg.members)
  }

  ghost predicate Init(s: State) {
    && s.up == {} && s.assoc == {} && s.held == map[] && s.pipe == []
    && (forall t | 0 <= t < |s.threads| :: s.threads[t] == Free)
    && s.waiter == Idle && !s.deleteMe && !s.registered
  }

  predicate At(s: State, t: nat, pc: ThreadPc) {
    t < |s.threads| && s.threads[t] == pc
  }

  /** No thread holds the mutex of e. */
  predicate Unlocked(s: State, e: Handle) {
    e !in s.held
  }

  /** pthread_cond_broadcast: every thread blocked on e is released. */
  function Release(threads: seq<ThreadPc>, e: Handle): seq<ThreadPc> {
    seq(|threads|, i requires 0 <= i < |threads| =>
      if threads[i] == Blocked(e) then Woken(e) else threads[i])
  }

  predicate ScanEnabled(cfg: Config, s: State) {
    s.waiter.Scanning? && s.waiter.next < |cfg.members| &&
    (cfg.members[s.waiter.next].FlagTested() ==> Unlocked(s, cfg.members[s.waiter.next].Signal()))
  }

  /** Whether a step of the other threads, or of the world outside, can happen. */
  predicate OthersEnabled(s: State, step: Step) {
    match step
    case SetRaise(t, e) => At(s, t, Free) && e != NULL_HANDLE && Unlocked(s, e)
    case SetRelease(t, e) => At(s, t, SetRaised(e))
    case SetLook(t, e) => At(s, t, SetReleased(e))
    case SetWrite(t, e) => At(s, t, SetSeen(e))
    case SetUnlock(t, e) => At(s, t, SetDone(e))
    case Reset(t, e) => At(s, t, Free) && Unlocked(s, e)
    case WaitTest(t, e) => At(s, t, Free) && Unlocked(s, e)
    case WaitFinish(t, e) => At(s, t, Woken(e)) && Unlocked(s, e)
    case SpuriousWake(t, e) => At(s, t, Blocked(e))
    case Publish(t, e) => At(s, t, Free) && e != NULL_HANDLE
    case PublishTest(t, e) => At(s, t, Published(e)) && Unlocked(s, e)
    case PublishWrite(t, e) => At(s, t, PublishedUp(e))
    case Wake(t) => At(s, t, Free)
    case DeleteRaise(t) => At(s, t, Free)
    case DeleteLook(t) => At(s, t, DeleteRaised)
    case DeleteWake(t) => At(s, t, DeleteSeen)
    case Register(_) => true
    case Environment(_) => true
    case _ => false
  }

  /** Whether a step of the waiter can happen. */
  predicate WaiterEnabled(cfg: Config, s: State, step: Step) {
    match step
    case Begin => s.waiter.Idle?
    case PurgeRead => s.waiter.Purging? && s.pipe != []
    case PurgeEnd => s.waiter.Purging? && s.pipe == []
    case Scan(_) => ScanEnabled(cfg, s)
    case ScanEnd => s.waiter.Scanning? && s.waiter.next >= |cfg.members|
    case PollPipe => s.waiter.Polling? && s.pipe != []
    case PollDescriptor =>
      s.waiter.Polling? && s.pipe == [] && FirstDescriptor(cfg.members, s.ready) != NULL_HANDLE
    case PollTimeout =>
      s.waiter.Polling? && s.pipe == [] && FirstDescriptor(cfg.members, s.ready) == NULL_HANDLE
    case PollError => s.waiter.Polling?
    case DrainRead => s.waiter.Draining?
    case DrainTest => s.waiter.DrainTesting? && Unlocked(s, s.waiter.token)
    case Lower => s.waiter.Lowering? && Unlocked(s, s.waiter.e)
    case Return(r) => s.waiter == Got(r)
    case _ => false
  }

  predicate Enabled(cfg: Config, s: State, step: Step) {
    OthersEnabled(s, step) || WaiterEnabled(cfg, s, step)
  }

  /** The scan of one member: return it, lower it first, or go on to the next. */
  function ScanStep(cfg: Config, s: State, sooner: bool): WaiterPc
    requires ScanEnabled(cfg, s)
  {
    var m := cfg.members[s.waiter.next];
    var onward := Scanning(s.waiter.next + 1, s.waiter.timer);
    match m
    case Event(h) =>
      if h !in s.up then onward else if h in cfg.auto then Lowering(h, h) else Got(h)
    case ResolverOverlapped(h, e) => if e in s.up then Got(h) else onward
    case AndroidOverlapped(h, e) => if e in s.up then Got(h) else onward
    case WaitQueue(h, _) => if h in s.ready then Got(h) else onward
    case SmbOverlapped(h, _) => if h in s.ready then Got(h) else onward
    case Timer(h) => if h in s.ready then Got(h) else if sooner then onward.(timer := h) else onward
    case _ => onward
  }

  /** One read of the drain loop, up to the test of the event it names. */
  function DrainReadStep(cfg: Config, pipe: seq<Handle>): (WaiterPc, seq<Handle>) {
    if pipe == [] then (Got(NULL_HANDLE), [])
    else if pipe[0] == NULL_HANDLE then (Got(NULL_HANDLE), pipe[1..])
    else if AssocOf(EventList(cfg.members), pipe[0]) == NULL_HANDLE then (Draining, pipe[1..])
    else (DrainTesting(pipe[0]), pipe[1..])
  }

  function DrainTestStep(cfg: Config, s: State): WaiterPc
    requires s.waiter.DrainTesting?
  {
    var e := s.waiter.token;
    var r := AssocOf(EventList(cfg.members), e);
    if e !in s.up then Draining else if e in cfg.auto then Lowering(r, e) else Got(r)
  }

  /** A step that some thread takes, as opposed to a change of the world outside. */
  predicate OfThread(step: Step) {
    !step.Register? && !step.Environment?
  }

  /** Where a thread is after its own step. */
  function PcAfter(s: State, step: Step): ThreadPc
    requires OthersEnabled(s, step) && OfThread(step)
  {
    match step
    case SetRaise(t, e) => SetRaised(e)
    case SetRelease(t, e) => SetReleased(e)
    case SetLook(t, e) => if e in s.assoc then SetSeen(e) else SetDone(e)
    case SetWrite(t, e) => SetDone(e)
    case WaitTest(t, e) => if e in s.up then Free else Blocked(e)
    case SpuriousWake(t, e) => Woken(e)
    case Publish(t, e) => Published(e)
    case PublishTest(t, e) => if e in s.up then PublishedUp(e) else Free
    case DeleteRaise(t) => DeleteRaised
    case DeleteLook(t) => if s.registered then DeleteSeen else Free
    case _ => Free
  }

  /** A step that lowers the flag of its event: a reset, or the exit of a wait on an automatic event. */
  predicate Lowers(cfg: Config, step: Step) {
    step.Reset? || ((step.WaitTest? || step.WaitFinish?) && step.e in cfg.auto)
  }

  /** An attempt to write to the pipe, whether or not it fits. */
  predicate Attempt(step: Step) {
    step.SetWrite? || step.PublishWrite? || step.Wake? || step.DeleteWake?
  }

  function TokenOf(step: Step): Handle
    requires Attempt(step)
  {
    match step
    case SetWrite(_, e) => e
    case PublishWrite(_, e) => e
    case _ => NULL_HANDLE
  }

  /** What each part of the state is after a step of the other threads. A wait that finds the flag down
      blocks, which leaves the flag down. */
  function OthersApply(cfg: Config, s: State, step: Step): (s': State)
    requires OthersEnabled(s, step)
    ensures |s'.threads| == |s.threads| && s'.waiter == s.waiter
  {
    State(
      if step.SetRaise? then s.up + {step.e} else if Lowers(cfg, step) then s.up - {step.e} else s.up,
      if step.Publish? then s.assoc + {step.e} else s.assoc,
      if step.SetRaise? then s.held[step.e := step.t]
      else if step.SetUnlock? then s.held - {step.e} else s.held,
      if step.Environment? then step.ready else s.ready,
      if Attempt(step) then Written(cfg.capacity, s.pipe, TokenOf(step)) else s.pipe,
      if !OfThread(step) then s.threads
      else (if step.SetRelease? then Release(s.threads, step.e) else s.threads)[step.t := PcAfter(s, step)],
      s.waiter,
      s.deleteMe || step.DeleteRaise?,
      if step.Register? then step.registered else s.registered)
  }

  function WaiterApply(cfg: Config, s: State, step: Step): (s': State)
    requires WaiterEnabled(cfg, s, step)
    ensures s' == s.(waiter := s'.waiter, pipe := s'.pipe, up := s'.up)
  {
    match step
    case Begin => s.(waiter := Purging)
    case PurgeRead => s.(pipe := s.pipe[1..])
    case PurgeEnd => s.(waiter := Scanning(0, NULL_HANDLE))
    case Scan(sooner) => s.(waiter := ScanStep(cfg, s, sooner))
    case ScanEnd => s.(waiter := Polling(s.waiter.timer))
    case PollPipe => s.(waiter := Draining)
    case PollDescriptor => s.(waiter := Got(FirstDescriptor(cfg.members, s.ready)))
    case PollTimeout => s.(waiter := Got(s.waiter.timer))
    case PollError => s.(waiter := Got(NULL_HANDLE))
    case DrainRead =>
      var (waiter, pipe) := DrainReadStep(cfg, s.pipe);
      s.(waiter := waiter, pipe := pipe)
    case DrainTest => s.(waiter := DrainTestStep(cfg, s))
    case Lower => s.(waiter := Got(s.waiter.r), up := s.up - {s.waiter.e})
    case Return(_) => s.(waiter := Idle)
  }

  function Apply(cfg: Config, s: State, step: Step): (s': State)
    requires Enabled(cfg, s, step)
    ensures |s'.threads| == |s.threads|
  {
    if OthersEnabled(s, step) then OthersApply(cfg, s, step) else WaiterApply(cfg, s, step)
  }

  // ---- Runs ----

  /** A finite run: one more state than steps. */
  datatype Run = Run(states: seq<State>, steps: seq<Step>)

  ghost predicate StepAt(cfg: Config, r: Run, k: nat)
    requires k < |r.steps| && |r.states| == |r.steps| + 1
  {
    Enabled(cfg, r.states[k], r.steps[k]) && r.states[k + 1] == Apply(cfg, r.states[k], r.steps[k])
  }

  ghost predicate StepsOk(cfg: Config, r: Run) {
    |r.states| == |r.steps| + 1 && forall k | 0 <= k < |r.steps| :: StepAt(cfg, r, k)
  }

  /** A run from the state that the create functions leave. */
  ghost predicate IsRun(cfg: Config, r: Run) {
    ValidConfig(cfg) && StepsOk(cfg, r) && Init(r.states[0])
  }

  /** The waiter is past its purge and has not begun to drain. */
  predicate BeforeDrain(w: WaiterPc) {
    w.Scanning? || w.Polling?
  }
}
