/** What the step machine does when the waiter runs alone: exactly what the functions of Scanning say,
    which the loops of WaitSets are proved against. The machine and the loops are thereby one model. */
module SoloWait {
  import opened Members
  import opened Protocol
  import opened ProtocolInvariants
  import opened ProtocolRuns
  import opened Scanning

  /** A step of the waiter that stays within the call, with poll not failing and with the timers compared
      by their waits. */
  ghost predicate Guided(cfg: Config, s: State, step: Step, a: Answers, cap: nat) {
    WaiterEnabled(cfg, s, step) && !step.Return? && !step.PollError? && FollowsWaits(cfg, s, step, a, cap)
  }

  /** Such steps lead from s to s' while no other thread moves. */
  ghost predicate Solo(cfg: Config, a: Answers, cap: nat, s: State, steps: seq<Step>, s': State)
    decreases |steps|
  {
    if steps == [] then s == s'
    else Guided(cfg, s, steps[0], a, cap) && Solo(cfg, a, cap, WaiterApply(cfg, s, steps[0]), steps[1..], s')
  }

  lemma {:induction false} SoloThen(cfg: Config, a: Answers, cap: nat, s: State, p: seq<Step>, s1: State,
                                    q: seq<Step>, s2: State)
    requires Solo(cfg, a, cap, s, p, s1) && Solo(cfg, a, cap, s1, q, s2)
    ensures Solo(cfg, a, cap, s, p + q, s2)
    decreases |p|
  {
    if p == [] {
      assert p + q == q;
    } else {
      SoloThen(cfg, a, cap, WaiterApply(cfg, s, p[0]), p[1..], s1, q, s2);
      assert (p + q)[1..] == p[1..] + q;
    }
  }

  lemma OneStep(cfg: Config, a: Answers, cap: nat, s: State, step: Step)
    requires Guided(cfg, s, step, a, cap)
    ensures Solo(cfg, a, cap, s, [step], WaiterApply(cfg, s, step))
  {
    assert Solo(cfg, a, cap, WaiterApply(cfg, s, step), [step][1..], WaiterApply(cfg, s, step));
  }

  lemma Prepend(cfg: Config, a: Answers, cap: nat, s: State, step: Step, steps: seq<Step>, s': State)
    requires Guided(cfg, s, step, a, cap) && Solo(cfg, a, cap, WaiterApply(cfg, s, step), steps, s')
    ensures Solo(cfg, a, cap, s, [step] + steps, s')
  {
    OneStep(cfg, a, cap, s, step);
    SoloThen(cfg, a, cap, s, [step], WaiterApply(cfg, s, step), steps, s');
  }

  // ---- There is one way to go on ----

  lemma GuidedStepsAgree(cfg: Config, s: State, x: Step, y: Step, a: Answers, cap: nat)
    requires Guided(cfg, s, x, a, cap) && Guided(cfg, s, y, a, cap)
    ensures WaiterApply(cfg, s, x) == WaiterApply(cfg, s, y)
  {
  }

  /** Of two undisturbed ways to go on from a state, the longer passes through the end of the shorter. */
  lemma {:induction false} SoloIsDetermined(cfg: Config, a: Answers, cap: nat, s: State, p: seq<Step>, s1: State,
                                            q: seq<Step>, s2: State)
    requires Solo(cfg, a, cap, s, p, s1) && Solo(cfg, a, cap, s, q, s2) && |p| <= |q|
    ensures Solo(cfg, a, cap, s1, q[|p|..], s2)
    decreases |p|
  {
    if p == [] {
      assert q[|p|..] == q;
    } else {
      GuidedStepsAgree(cfg, s, p[0], q[0], a, cap);
      SoloIsDetermined(cfg, a, cap, WaiterApply(cfg, s, p[0]), p[1..], s1, q[1..], s2);
      assert q[1..][|p[1..]|..] == q[|p|..];
    }
  }

  lemma NothingAfterResult(cfg: Config, a: Answers, cap: nat, s: State, steps: seq<Step>, s': State)
    requires s.waiter.Got? && Solo(cfg, a, cap, s, steps, s')
    ensures s' == s
  {
  }

  /** Two undisturbed ways to go on that both come to a result come to the same one. */
  lemma SoloEndsAgree(cfg: Config, a: Answers, cap: nat, s: State, p: seq<Step>, s1: State, q: seq<Step>, s2: State)
    requires Solo(cfg, a, cap, s, p, s1) && Solo(cfg, a, cap, s, q, s2) && s1.waiter.Got? && s2.waiter.Got?
    ensures s1 == s2
  {
    if |p| <= |q| {
      SoloIsDetermined(cfg, a, cap, s, p, s1, q, s2);
      NothingAfterResult(cfg, a, cap, s1, q[|p|..], s2);
    } else {
      SoloIsDetermined(cfg, a, cap, s, q, s2, p, s1);
      NothingAfterResult(cfg, a, cap, s2, p[|q|..], s1);
    }
  }

  // ---- Where it leads ----

  /** No thread is inside ofc_event_set_impl on an event that the waiter may test. */
  ghost predicate MutexesFree(cfg: Config, s: State) {
    forall m | m in cfg.members && m.EventLike() :: Unlocked(s, m.Signal())
  }

  /** The flags as Scanning sees them. */
  ghost function Flags(s: State): iset<Handle> {
    iset h: Handle | h in s.up
  }

  function Lowered(cfg: Config, up: set<Handle>, e: Handle): set<Handle> {
    if e in cfg.auto then up - {e} else up
  }

  /** The machine's ready set and the answers of the layers below describe the same members. */
  ghost predicate Agree(cfg: Config, s: State, a: Answers) {
    forall m | m in cfg.members ::
      (m.QueueTested() ==> (m.h in s.ready <==> a.nonEmpty(m.h))) &&
      (m.Timer? ==> (m.h in s.ready <==> a.waitTime(m.h) == 0))
  }

  lemma {:induction false} SoloPurge(cfg: Config, a: Answers, cap: nat, s: State) returns (steps: seq<Step>)
    requires s.waiter.Purging?
    ensures Solo(cfg, a, cap, s, steps, s.(pipe := [], waiter := Scanning(0, NULL_HANDLE)))
    decreases |s.pipe|
  {
    if s.pipe == [] {
      OneStep(cfg, a, cap, s, PurgeEnd);
      steps := [PurgeEnd];
    } else {
      var rest := SoloPurge(cfg, a, cap, WaiterApply(cfg, s, PurgeRead));
      Prepend(cfg, a, cap, s, PurgeRead, rest, s.(pipe := [], waiter := Scanning(0, NULL_HANDLE)));
      steps := [PurgeRead] + rest;
    }
  }

  /** Where an undisturbed scan ends. */
  ghost function AfterScan(cfg: Config, s: State, a: Answers, cap: nat): State {
    var n := FirstReady(cfg.members, Flags(s), a);
    if n < |cfg.members| then
      s.(waiter := Got(cfg.members[n].h),
         up := if cfg.members[n].Event? then Lowered(cfg, s.up, cfg.members[n].h) else s.up)
    else s.(waiter := Polling(LeastTimer(cfg.members, cap, a)))
  }

  /** The sooner of two timers, decided as the scan decides it. */
  function SoonerTimer(cfg: Config, a: Answers, cap: nat, i: nat): bool
    requires i < |cfg.members|
  {
    cfg.members[i].Timer? && a.waitTime(cfg.members[i].h) < LeastWait(cfg.members[..i], cap, a)
  }

  lemma ScanSkips(cfg: Config, s: State, a: Answers, sooner: bool)
    requires ValidConfig(cfg) && MutexesFree(cfg, s) && Agree(cfg, s, a)
    requires s.waiter.Scanning? && s.waiter.next < |cfg.members|
    requires !ReadyOnSight(cfg.members[s.waiter.next], Flags(s), a)
    ensures ScanEnabled(cfg, s) && ScanStep(cfg, s, sooner).Scanning?
  {
    assert cfg.members[s.waiter.next] in cfg.members;
  }

  /** A scan goes on past a member that is not ready, and may take its timer along. */
  lemma ScanMoves(cfg: Config, s: State, a: Answers, sooner: bool)
    requires ValidConfig(cfg) && MutexesFree(cfg, s) && Agree(cfg, s, a)
    requires s.waiter.Scanning? && s.waiter.next < |cfg.members|
    requires !ReadyOnSight(cfg.members[s.waiter.next], Flags(s), a)
    ensures WaiterEnabled(cfg, s, Scan(sooner))
    ensures var m := cfg.members[s.waiter.next];
            WaiterApply(cfg, s, Scan(sooner)) ==
            s.(waiter := Scanning(s.waiter.next + 1, if m.Timer? && sooner then m.h else s.waiter.timer))
  {
    ScanSkips(cfg, s, a, sooner);
    ScanGoesOn(cfg, s, sooner);
  }

  /** The sooner of two timers is the choice that follows their waits. */
  lemma SoonerFollowsWaits(cfg: Config, s: State, a: Answers, cap: nat, i: nat)
    requires s.waiter.Scanning? && s.waiter.next == i < |cfg.members|
    ensures FollowsWaits(cfg, s, Scan(SoonerTimer(cfg, a, cap, i)), a, cap)
  {
  }

  lemma ScanPasses(cfg: Config, s: State, a: Answers, cap: nat, i: nat)
    requires ValidConfig(cfg) && MutexesFree(cfg, s) && Agree(cfg, s, a) && i < |cfg.members|
    requires s.waiter == Scanning(i, LeastTimer(cfg.members[..i], cap, a))
    requires !ReadyOnSight(cfg.members[i], Flags(s), a)
    ensures Guided(cfg, s, Scan(SoonerTimer(cfg, a, cap, i)), a, cap)
    ensures WaiterApply(cfg, s, Scan(SoonerTimer(cfg, a, cap, i))) ==
            s.(waiter := Scanning(i + 1, LeastTimer(cfg.members[..i + 1], cap, a)))
  {
    var sooner := SoonerTimer(cfg, a, cap, i);
    ScanMoves(cfg, s, a, sooner);
    SoonerFollowsWaits(cfg, s, a, cap, i);
    KeptTimer(cfg, a, cap, i);
    assert cfg.members[i].Timer? && sooner <==> sooner;
  }

  lemma KeptTimer(cfg: Config, a: Answers, cap: nat, i: nat)
    requires i < |cfg.members|
    ensures LeastTimer(cfg.members[..i + 1], cap, a) ==
            if SoonerTimer(cfg, a, cap, i) then cfg.members[i].h else LeastTimer(cfg.members[..i], cap, a)
  {
    NextLeast(cfg.members, i, SoonerTimer(cfg, a, cap, i), a, cap);
  }

  /** An undisturbed scan can take the first ready member, or go on to poll with the first least timer. */
  lemma {:induction false} SoloScan(cfg: Config, s: State, a: Answers, cap: nat, i: nat) returns (steps: seq<Step>)
    requires ValidConfig(cfg) && MutexesFree(cfg, s) && Agree(cfg, s, a)
    requires i <= FirstReady(cfg.members, Flags(s), a)
    requires s.waiter == Scanning(i, LeastTimer(cfg.members[..i], cap, a))
    ensures Solo(cfg, a, cap, s, steps, AfterScan(cfg, s, a, cap))
    decreases |cfg.members| - i
  {
    if i == |cfg.members| {
      assert cfg.members[..i] == cfg.members;
      OneStep(cfg, a, cap, s, ScanEnd);
      steps := [ScanEnd];
    } else if i == FirstReady(cfg.members, Flags(s), a) {
      steps := SoloTake(cfg, s, a, cap, i);
    } else {
      ScanPasses(cfg, s, a, cap, i);
      var step := Scan(SoonerTimer(cfg, a, cap, i));
      var s1 := WaiterApply(cfg, s, step);
      assert Flags(s1) == Flags(s);
      var rest := SoloScan(cfg, s1, a, cap, i + 1);
      Prepend(cfg, a, cap, s, step, rest, AfterScan(cfg, s, a, cap));
      steps := [step] + rest;
    }
  }

  lemma ScanTakes(cfg: Config, s: State, a: Answers, sooner: bool)
    requires ValidConfig(cfg) && MutexesFree(cfg, s) && Agree(cfg, s, a)
    requires s.waiter.Scanning? && s.waiter.next < |cfg.members|
    requires ReadyOnSight(cfg.members[s.waiter.next], Flags(s), a)
    ensures ScanEnabled(cfg, s)
    ensures var m := cfg.members[s.waiter.next];
            ScanStep(cfg, s, sooner) == if m.Event? && m.h in cfg.auto then Lowering(m.h, m.h) else Got(m.h)
  {
    assert cfg.members[s.waiter.next] in cfg.members;
  }

  lemma SoloTake(cfg: Config, s: State, a: Answers, cap: nat, i: nat) returns (steps: seq<Step>)
    requires ValidConfig(cfg) && MutexesFree(cfg, s) && Agree(cfg, s, a)
    requires i == FirstReady(cfg.members, Flags(s), a) < |cfg.members|
    requires s.waiter.Scanning? && s.waiter.next == i
    ensures Solo(cfg, a, cap, s, steps, AfterScan(cfg, s, a, cap))
  {
    var step := Scan(SoonerTimer(cfg, a, cap, i));
    assert cfg.members[i] in cfg.members;
    ScanTakes(cfg, s, a, step.sooner);
    var s1 := WaiterApply(cfg, s, step);
    OneStep(cfg, a, cap, s, step);
    steps := [step];
    if s1.waiter.Lowering? {
      OneStep(cfg, a, cap, s1, Lower);
      SoloThen(cfg, a, cap, s, steps, s1, [Lower], WaiterApply(cfg, s1, Lower));
      steps := steps + [Lower];
    }
  }

  /** Where an undisturbed drain ends. */
  ghost function AfterDrain(cfg: Config, s: State): State {
    var d := DrainSearch(s.pipe, EventList(cfg.members), Flags(s));
    s.(waiter := Got(d.triggered), pipe := d.rest,
       up := if d.triggered != NULL_HANDLE then Lowered(cfg, s.up, d.event) else s.up)
  }

  /** Reading one token: the drain is over, or goes on with the same end ahead. */
  lemma SoloReadOne(cfg: Config, a: Answers, cap: nat, s: State) returns (steps: seq<Step>, s1: State)
    requires ValidConfig(cfg) && MutexesFree(cfg, s) && s.waiter.Draining?
    ensures Solo(cfg, a, cap, s, steps, s1)
    ensures s1 == AfterDrain(cfg, s) ||
            (s1 == s.(pipe := s1.pipe) && |s1.pipe| < |s.pipe| && AfterDrain(cfg, s1) == AfterDrain(cfg, s))
  {
    s1 := WaiterApply(cfg, s, DrainRead);
    OneStep(cfg, a, cap, s, DrainRead);
    steps := [DrainRead];
    if s1.waiter.DrainTesting? {
      LookupFindsMember(cfg.members, s1.waiter.token);
      steps, s1 := SoloTestOne(cfg, a, cap, s, steps, s1);
    }
    assert Flags(s1.(up := s.up)) == Flags(s);
  }

  /** The test of the token just read, and the reset that it may call for. */
  lemma SoloTestOne(cfg: Config, a: Answers, cap: nat, s: State, p: seq<Step>, s1: State)
      returns (steps: seq<Step>, s2: State)
    requires ValidConfig(cfg) && MutexesFree(cfg, s) && Solo(cfg, a, cap, s, p, s1)
    requires s1.waiter.DrainTesting? && s1.held == s.held && Unlocked(s, s1.waiter.token)
    requires exists m :: m in cfg.members && m.EventLike() && m.Signal() == s1.waiter.token
    ensures Solo(cfg, a, cap, s, steps, s2)
    ensures var e := s1.waiter.token;
            if e in s1.up then
              s2 == s1.(waiter := Got(AssocOf(EventList(cfg.members), e)), up := Lowered(cfg, s1.up, e))
            else s2 == s1.(waiter := Draining)
  {
    s2 := WaiterApply(cfg, s1, DrainTest);
    OneStep(cfg, a, cap, s1, DrainTest);
    SoloThen(cfg, a, cap, s, p, s1, [DrainTest], s2);
    steps := p + [DrainTest];
    if s2.waiter.Lowering? {
      OneStep(cfg, a, cap, s2, Lower);
      SoloThen(cfg, a, cap, s, steps, s2, [Lower], WaiterApply(cfg, s2, Lower));
      steps, s2 := steps + [Lower], WaiterApply(cfg, s2, Lower);
    }
  }

  /** An undisturbed drain can read to the first wake or triggering token. */
  lemma {:induction false} SoloDrain(cfg: Config, a: Answers, cap: nat, s: State) returns (steps: seq<Step>)
    requires ValidConfig(cfg) && MutexesFree(cfg, s) && s.waiter.Draining?
    ensures Solo(cfg, a, cap, s, steps, AfterDrain(cfg, s))
    decreases |s.pipe|
  {
    var s1;
    steps, s1 := SoloReadOne(cfg, a, cap, s);
    if s1 != AfterDrain(cfg, s) {
      var rest := SoloDrain(cfg, a, cap, s1);
      SoloThen(cfg, a, cap, s, steps, s1, rest, AfterDrain(cfg, s));
      steps := steps + rest;
    }
  }

  /** And no undisturbed drain comes to another result. */
  lemma EverySoloDrain(cfg: Config, a: Answers, cap: nat, s: State, steps: seq<Step>, s': State)
    requires ValidConfig(cfg) && MutexesFree(cfg, s) && s.waiter.Draining?
    requires Solo(cfg, a, cap, s, steps, s') && s'.waiter.Got?
    ensures s' == AfterDrain(cfg, s)
  {
    var p := SoloDrain(cfg, a, cap, s);
    SoloEndsAgree(cfg, a, cap, s, p, AfterDrain(cfg, s), steps, s');
  }

  /** Where an undisturbed call ends: with the first ready member, or the first ready descriptor, or the
      first least timer, or nothing. */
  ghost function AfterCall(cfg: Config, s: State, a: Answers, cap: nat): State {
    var s1 := AfterScan(cfg, s.(pipe := [], waiter := Scanning(0, NULL_HANDLE)), a, cap);
    if s1.waiter.Got? then s1
    else
      var d := FirstDescriptor(cfg.members, s.ready);
      s1.(waiter := Got(if d != NULL_HANDLE then d else LeastTimer(cfg.members, cap, a)))
  }

  /** With an empty pipe a poll takes the first ready descriptor, or times out with the timer kept. */
  lemma SoloPoll(cfg: Config, a: Answers, cap: nat, s: State) returns (step: Step)
    requires s.waiter.Polling? && s.pipe == []
    ensures var d := FirstDescriptor(cfg.members, s.ready);
            Solo(cfg, a, cap, s, [step], s.(waiter := Got(if d != NULL_HANDLE then d else s.waiter.timer)))
  {
    step := if FirstDescriptor(cfg.members, s.ready) != NULL_HANDLE then PollDescriptor else PollTimeout;
    OneStep(cfg, a, cap, s, step);
  }

  lemma SoloCall(cfg: Config, s: State, a: Answers, cap: nat) returns (steps: seq<Step>)
    requires ValidConfig(cfg) && MutexesFree(cfg, s) && Agree(cfg, s, a) && s.waiter.Purging?
    ensures Solo(cfg, a, cap, s, steps, AfterCall(cfg, s, a, cap))
  {
    var s1 := s.(pipe := [], waiter := Scanning(0, NULL_HANDLE));
    var p := SoloPurge(cfg, a, cap, s);
    assert Flags(s1) == Flags(s);
    var q := SoloScan(cfg, s1, a, cap, 0);
    var s2 := AfterScan(cfg, s1, a, cap);
    SoloThen(cfg, a, cap, s, p, s1, q, s2);
    steps := p + q;
    if s2.waiter.Polling? {
      var step := SoloPoll(cfg, a, cap, s2);
      SoloThen(cfg, a, cap, s, steps, s2, [step], AfterCall(cfg, s, a, cap));
      steps := steps + [step];
    }
  }

  /** And no undisturbed call comes to another result. */
  lemma EverySoloCall(cfg: Config, s: State, a: Answers, cap: nat, steps: seq<Step>, s': State)
    requires ValidConfig(cfg) && MutexesFree(cfg, s) && Agree(cfg, s, a) && s.waiter.Purging?
    requires Solo(cfg, a, cap, s, steps, s') && s'.waiter.Got?
    ensures s' == AfterCall(cfg, s, a, cap)
  {
    var p := SoloCall(cfg, s, a, cap);
    SoloEndsAgree(cfg, a, cap, s, p, AfterCall(cfg, s, a, cap), steps, s');
  }

  // ---- When a wake counts ----

  /** The waiter's steps, whichever, lead from s to s' while no other thread moves, and none of them
      returns from a call. */
  ghost predicate Path(cfg: Config, s: State, steps: seq<Step>, s': State)
    decreases |steps|
  {
    if steps == [] then s == s'
    else
      WaiterEnabled(cfg, s, steps[0]) && !steps[0].Return? &&
      Path(cfg, WaiterApply(cfg, s, steps[0]), steps[1..], s')
  }

  /** The waiter, running alone, can sleep to its timeout before it returns from a call again. */
  ghost predicate CanSleep(cfg: Config, s: State) {
    exists steps, s' :: Path(cfg, s, steps, s') && PollTimeout in steps
  }

  /** Nothing but the pipe could end the call early. */
  ghost predicate Quiet(cfg: Config, s: State) {
    MutexesFree(cfg, s) &&
    forall m | m in cfg.members ::
      if m.FlagTested() then m.Signal() !in s.up else m.h !in s.ready
  }

  /** With nothing else going on, a wake, or a delete's wake, is lost exactly when it lands between two
      calls or during the purge: the purge of the call throws it away with the rest of the pipe, and the
      call can sleep to its timeout. Landing anywhere else it rules that out. */
  lemma WakeCountsAfterPurge(cfg: Config, s: State, wake: Step)
    requires ValidConfig(cfg) && Inv(cfg, s) && Quiet(cfg, s) && Enabled(cfg, s, wake)
    requires wake.Wake? || wake.DeleteWake?
    ensures CanSleep(cfg, Apply(cfg, s, wake)) <==> s.waiter.Idle? || s.waiter.Purging?
  {
    var s1 := Apply(cfg, s, wake);
    if s.waiter.Idle? {
      IdleCanSleep(cfg, s1);
    } else if s.waiter.Purging? {
      PurgingCanSleep(cfg, s1);
    } else if CanSleep(cfg, s1) {
      var steps, s' :| Path(cfg, s1, steps, s') && PollTimeout in steps;
      FullPipeNeverSleeps(cfg, s1, steps, s');
    }
  }

  /** Past the purge, with tokens in the pipe until the drain, no timeout lies ahead in this call. */
  lemma {:induction false} FullPipeNeverSleeps(cfg: Config, s: State, steps: seq<Step>, s': State)
    requires Path(cfg, s, steps, s')
    requires !s.waiter.Idle? && !s.waiter.Purging? && (BeforeDrain(s.waiter) ==> s.pipe != [])
    ensures PollTimeout !in steps
    decreases |steps|
  {
    if steps != [] {
      WaiterKeepsPipe(cfg, s, steps[0]);
      FullPipeNeverSleeps(cfg, WaiterApply(cfg, s, steps[0]), steps[1..], s');
      assert steps == [steps[0]] + steps[1..];
    }
  }

  lemma {:induction false} SoloIsPath(cfg: Config, a: Answers, cap: nat, s: State, steps: seq<Step>, s': State)
    requires Solo(cfg, a, cap, s, steps, s')
    ensures Path(cfg, s, steps, s')
    decreases |steps|
  {
    if steps != [] {
      SoloIsPath(cfg, a, cap, WaiterApply(cfg, s, steps[0]), steps[1..], s');
    }
  }

  lemma SoloTimeout(cfg: Config, a: Answers, cap: nat, s: State, steps: seq<Step>, s': State)
    requires Solo(cfg, a, cap, s, steps, s') && WaiterEnabled(cfg, s', PollTimeout)
    ensures CanSleep(cfg, s)
  {
    OneStep(cfg, a, cap, s', PollTimeout);
    SoloThen(cfg, a, cap, s, steps, s', [PollTimeout], WaiterApply(cfg, s', PollTimeout));
    SoloIsPath(cfg, a, cap, s, steps + [PollTimeout], WaiterApply(cfg, s', PollTimeout));
    assert (steps + [PollTimeout])[|steps|] == PollTimeout;
  }

  lemma PurgingCanSleep(cfg: Config, s: State)
    requires ValidConfig(cfg) && Quiet(cfg, s) && s.waiter.Purging?
    ensures CanSleep(cfg, s)
  {
    var a := Answers(h => h in s.ready, h => if h in s.ready then 0 else 1, h => 0);
    var s1 := s.(pipe := [], waiter := Scanning(0, NULL_HANDLE));
    var s2 := AfterScan(cfg, s1, a, 2);
    var p := SoloPurge(cfg, a, 2, s);
    var q := SoloScan(cfg, s1, a, 2, 0);
    QuietScanPolls(cfg, s1, a);
    SoloThen(cfg, a, 2, s, p, s1, q, s2);
    SoloTimeout(cfg, a, 2, s, p + q, s2);
  }

  lemma IdleCanSleep(cfg: Config, s: State)
    requires ValidConfig(cfg) && Quiet(cfg, s) && s.waiter.Idle?
    ensures CanSleep(cfg, s)
  {
    var s1 := WaiterApply(cfg, s, Begin);
    PurgingCanSleep(cfg, s1);
    var steps, s' :| Path(cfg, s1, steps, s') && PollTimeout in steps;
    assert ([Begin] + steps)[1..] == steps;
    assert Path(cfg, s, [Begin] + steps, s');
  }

  lemma QuietScanPolls(cfg: Config, s: State, a: Answers)
    requires ValidConfig(cfg) && Quiet(cfg, s) && Agree(cfg, s, a) && s.pipe == []
    ensures WaiterEnabled(cfg, AfterScan(cfg, s, a, 2), PollTimeout)
  {
    assert forall j | 0 <= j < |cfg.members| ::
      cfg.members[j] in cfg.members && !ReadyOnSight(cfg.members[j], Flags(s), a);
    FirstDescriptorIsMember(cfg.members, s.ready);
  }

  /** A delete runs through while the waiter is between two calls. */
  lemma DeleteSteps(cfg: Config, s: State)
    requires cfg.capacity > 0 && s.threads == [Free] && s.registered && s.pipe == []
    ensures OthersEnabled(s, DeleteRaise(0))
    ensures var s1 := OthersApply(cfg, s, DeleteRaise(0));
            && s1 == s.(threads := [DeleteRaised], deleteMe := true) && OthersEnabled(s1, DeleteLook(0))
            && var s2 := OthersApply(cfg, s1, DeleteLook(0));
            && s2 == s1.(threads := [DeleteSeen]) && OthersEnabled(s2, DeleteWake(0))
            && OthersApply(cfg, s2, DeleteWake(0)) == s2.(threads := [Free], pipe := [NULL_HANDLE])
  {
  }

  /** The state after k steps of the run below. */
  function LostAt(k: nat): State {
    var s := State({}, {}, map[], {}, [], [Free], Idle, false, k > 0);
    if k < 2 then s
    else
      var d := s.(deleteMe := true);
      if k == 2 then d.(threads := [DeleteRaised])
      else if k == 3 then d.(threads := [DeleteSeen])
      else if k == 4 then d.(pipe := [NULL_HANDLE])
      else if k == 5 then d.(pipe := [NULL_HANDLE], waiter := Purging)
      else if k == 6 then d.(waiter := Purging)
      else if k == 7 then d.(waiter := Scanning(0, NULL_HANDLE))
      else if k == 8 then d.(waiter := Polling(NULL_HANDLE))
      else d.(waiter := Got(NULL_HANDLE))
  }

  const LOSING_STEPS: seq<Step> :=
    [Register(true), DeleteRaise(0), DeleteLook(0), DeleteWake(0), Begin, PurgeRead, PurgeEnd, ScanEnd, PollTimeout]

  lemma LosesAt(k: nat)
    requires k < 9
    ensures var cfg := Config([], 1, {});
            Enabled(cfg, LostAt(k), LOSING_STEPS[k]) && Apply(cfg, LostAt(k), LOSING_STEPS[k]) == LostAt(k + 1)
  {
    if 1 <= k < 4 {
      DeleteSteps(Config([], 1, {}), LostAt(1));
    } else if k >= 4 {
      SleepSteps(k);
    }
  }

  lemma SleepSteps(k: nat)
    requires 4 <= k < 9
    ensures var cfg := Config([], 1, {});
            WaiterEnabled(cfg, LostAt(k), LOSING_STEPS[k]) &&
            WaiterApply(cfg, LostAt(k), LOSING_STEPS[k]) == LostAt(k + 1)
  {
  }

  function LostRun(): Run {
    Run(seq(10, k requires 0 <= k < 10 => LostAt(k)), LOSING_STEPS)
  }

  /** A whole run in which a delete's wake is lost: the pipe takes it while the waiter is between two calls,
      the next call purges it, and that call sleeps to its timeout with the delete flag up. */
  lemma LostDeleteWake() returns (cfg: Config, r: Run)
    ensures IsRun(cfg, r) && |r.steps| == 9
    ensures r.steps[3] == DeleteWake(0) && r.states[3].registered && r.states[4].pipe == [NULL_HANDLE]
    ensures r.steps[8] == PollTimeout && r.states[8].deleteMe
    ensures forall l | 3 <= l < 9 :: !r.steps[l].Return?
  {
    cfg, r := Config([], 1, {}), LostRun();
    LostIsRun();
  }

  lemma LostIsRun()
    ensures IsRun(Config([], 1, {}), LostRun())
  {
    forall k | 0 <= k < 9 ensures StepAt(Config([], 1, {}), LostRun(), k) {
      LosesAt(k);
    }
  }
}
