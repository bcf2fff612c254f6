/** What a caller of the wait can rely on, read off the objects themselves: the flags of the event records,
    the answers of the layers below and the operations that land during the sleep. */
module WaitResults {
  import opened Filtering
  import opened Members
  import opened Scanning
  import opened SocketEvents
  import opened WaitSets

  /** How the call ends, as WaitSet.Wait promises it. */
  ghost function EndOf(ws: WaitSet, table: EventTable, sockets: SocketTable, a: Answers, others: seq<Operation>,
                       k: KernelAnswer): CallEnd
    reads ws, table.Values, sockets.Values
  {
    ws.WaitEnd(table, ws.handleQueue, View(sockets), a, others, k, ws.Tells(table), Up(table), Reports(sockets))
  }

  // ---- Members that stand ready ----

  /** The member has something for the caller at the start of the call; a dead event handle counts as raised. */
  ghost predicate StandsReady(m: Member, table: EventTable, a: Answers)
    reads table.Values
  {
    match m
    case Event(h) => h in table ==> table[h].signalled
    case ResolverOverlapped(_, e) => e in table ==> table[e].signalled
    case AndroidOverlapped(_, e) => e in table ==> table[e].signalled
    case WaitQueue(h, _) => a.nonEmpty(h)
    case SmbOverlapped(h, _) => a.nonEmpty(h)
    case Timer(h) => a.waitTime(h) == 0
    case Socket(_) => false
    case AndroidFile(_) => false
    case Unsynchronized(_) => false
  }

  ghost predicate NothingReady(ws: WaitSet, table: EventTable, a: Answers)
    reads ws`handleQueue, table.Values
  {
    forall i | 0 <= i < |ws.handleQueue| :: !StandsReady(ws.handleQueue[i], table, a)
  }

  /** A ready member ends the call without a sleep: with that member or an earlier ready one, with nothing
      left in the pipe, and whatever others do or the kernel says. */
  lemma ReadyMemberEndsCall(ws: WaitSet, table: EventTable, sockets: SocketTable, a: Answers,
                            others: seq<Operation>, k: KernelAnswer, i: nat)
    requires i < |ws.handleQueue| && StandsReady(ws.handleQueue[i], table, a)
    ensures var end := EndOf(ws, table, sockets, a, others, k);
            end.pipe == [] && end.reports == Reports(sockets) &&
            exists j :: 0 <= j <= i && end.triggered == ws.handleQueue[j].h && StandsReady(ws.handleQueue[j], table, a)
  {
    var n := FirstReady(ws.handleQueue, Up(table), a);
    assert ReadyOnSight(ws.handleQueue[i], Up(table), a);
    assert StandsReady(ws.handleQueue[n], table, a);
  }

  /** With no member ready the call goes to sleep with an empty pipe, and its end is decided there. */
  lemma NothingReadySleeps(ws: WaitSet, table: EventTable, sockets: SocketTable, a: Answers,
                           others: seq<Operation>, k: KernelAnswer)
    requires NothingReady(ws, table, a)
    ensures var (p, up) := ws.AfterOperations(table.Keys, ws.Tells(table), others, [], Up(table));
            EndOf(ws, table, sockets, a, others, k) ==
            ws.SleepEnd(table, ws.handleQueue, View(sockets), a, k, p, up, Reports(sockets))
  {
    var n := FirstReady(ws.handleQueue, Up(table), a);
    if n < |ws.handleQueue| {
      assert StandsReady(ws.handleQueue[n], table, a);
    }
  }

  // ---- An event set during the sleep ----

  /** The operation writes no token to the pipe of ws. */
  ghost predicate WritesNothing(ws: WaitSet, table: EventTable, op: Operation)
    reads table.Values
  {
    op.ResetEvent? || (op.SetEvent? && (op.h in table ==> table[op.h].waitSet != ws))
  }

  lemma {:induction false} OperationsKeepToken(ws: WaitSet, live: set<Handle>, tells: set<Handle>,
                                               others: seq<Operation>, p: seq<Handle>, up: iset<Handle>, e: Handle)
    requires p != [] && p[0] == e && e in up && ResetEvent(e) !in others
    ensures var (p', up') := ws.AfterOperations(live, tells, others, p, up);
            p' != [] && p'[0] == e && e in up'
    decreases |others|
  {
    if others != [] {
      var (p1, up1) := ws.AfterOperation(live, tells, others[0], p, up);
      assert others[0] in others;
      OperationsKeepToken(ws, live, tells, others[1..], p1, up1, e);
    }
  }

  /** The first operation that writes to the pipe puts its token at the head. */
  lemma {:induction false} FirstTokenIsOf(ws: WaitSet, table: EventTable, others: seq<Operation>, n: nat, e: Handle,
                                          up: iset<Handle>)
    requires n < |others| && others[n] == SetEvent(e) && ws.capacity > 0
    requires e in table && table[e].waitSet == ws
    requires forall l | 0 <= l < n :: WritesNothing(ws, table, others[l])
    requires forall l | n < l < |others| :: others[l] != ResetEvent(e)
    ensures var (p, up') := ws.AfterOperations(table.Keys, ws.Tells(table), others, [], up);
            p != [] && p[0] == e && e in up'
    decreases n
  {
    var (p1, up1) := ws.AfterOperation(table.Keys, ws.Tells(table), others[0], [], up);
    if n == 0 {
      OperationsKeepToken(ws, table.Keys, ws.Tells(table), others[1..], p1, up1, e);
    } else {
      FirstTokenIsOf(ws, table, others[1..], n - 1, e, up1);
    }
  }

  /** The event of a member is set during the sleep, nothing was written before it and it is not reset
      after it: the call returns the first member that carries the event. An automatic event comes down. */
  lemma SetDuringSleepIsReturned(ws: WaitSet, table: EventTable, sockets: SocketTable, a: Answers,
                                 others: seq<Operation>, of: int -> set<PollBit>, n: nat, i: nat)
    requires Live(ws.handleQueue) && ws.capacity > 0 && NothingReady(ws, table, a)
    requires n < |others| && others[n].SetEvent?
    requires others[n].h in table && table[others[n].h].waitSet == ws
    requires forall l | 0 <= l < n :: WritesNothing(ws, table, others[l])
    requires forall l | n < l < |others| :: others[l] != ResetEvent(others[n].h)
    requires i < |ws.handleQueue| && Carries(ws.handleQueue[i], others[n].h)
    requires forall j | 0 <= j < i :: !Carries(ws.handleQueue[j], others[n].h)
    ensures var end := EndOf(ws, table, sockets, a, others, Conditions(of));
            end.triggered == ws.handleQueue[i].h &&
            (others[n].h in end.up <==> table[others[n].h].eventType == MANUAL)
  {
    var e := others[n].h;
    NothingReadySleeps(ws, table, sockets, a, others, Conditions(of));
    FirstTokenIsOf(ws, table, others, n, e, Up(table));
    FirstCarrierIsAssoc(ws.handleQueue, e, i);
    assert ws.handleQueue[i] in ws.handleQueue;
  }

  lemma {:induction false} HeadStays(ws: WaitSet, live: set<Handle>, tells: set<Handle>, others: seq<Operation>,
                                     p: seq<Handle>, up: iset<Handle>)
    requires p != []
    ensures var (p', _) := ws.AfterOperations(live, tells, others, p, up); p' != [] && p'[0] == p[0]
    decreases |others|
  {
    if others != [] {
      var (p1, up1) := ws.AfterOperation(live, tells, others[0], p, up);
      HeadStays(ws, live, tells, others[1..], p1, up1);
    }
  }

  /** A wake that lands first ends the call with nothing. */
  lemma WakeEndsSleep(ws: WaitSet, table: EventTable, sockets: SocketTable, a: Answers,
                      others: seq<Operation>, of: int -> set<PollBit>)
    requires Live(ws.handleQueue) && ws.capacity > 0 && NothingReady(ws, table, a)
    requires others != [] && others[0] == WakeSet
    ensures EndOf(ws, table, sockets, a, others, Conditions(of)).triggered == NULL_HANDLE
  {
    NothingReadySleeps(ws, table, sockets, a, others, Conditions(of));
    var (p1, up1) := ws.AfterOperation(table.Keys, ws.Tells(table), WakeSet, [], Up(table));
    HeadStays(ws, table.Keys, ws.Tells(table), others[1..], p1, up1);
  }

  // ---- Nobody signals during the sleep ----

  /** The kernel has something to report for the member's descriptor. */
  ghost predicate HasCondition(m: Member, sockets: SocketTable, a: Answers, of: int -> set<PollBit>)
    reads sockets.Values
  {
    match m
    case Socket(h) =>
      h in sockets && sockets[h].fd >= 0 &&
      exists b :: b in of(sockets[h].fd) && (b in sockets[h].events || b == POLLERR || b == POLLHUP || b == POLLNVAL)
    case AndroidFile(h) =>
      a.fd(h) >= 0 && exists b :: b in of(a.fd(h)) && (b == POLLERR || b == POLLHUP || b == POLLNVAL)
    case _ => false
  }

  lemma ConditionIsReported(ws: WaitSet, m: Member, sockets: SocketTable, a: Answers, of: int -> set<PollBit>)
    requires m.Polled()
    ensures HasCondition(m, sockets, a, of) <==> ws.Report(ws.Entry(m, View(sockets), a), of) != {}
  {
    var f := ws.Entry(m, View(sockets), a);
    var r := ws.Report(f, of);
    assert f.fd >= 0 ==> forall b :: b in r <==> b in of(f.fd) && (b in f.events || b in ALWAYS_REPORTED);
    if r != {} {
      var b :| b in r;
      assert b in of(f.fd);
    }
    if HasCondition(m, sockets, a, of) {
      var b :| b in of(f.fd) && (b in f.events || b == POLLERR || b == POLLHUP || b == POLLNVAL);
      assert b in r;
    }
  }

  lemma {:induction false} NoTokenWritten(ws: WaitSet, table: EventTable, others: seq<Operation>, up: iset<Handle>)
    requires forall l | 0 <= l < |others| :: WritesNothing(ws, table, others[l])
    ensures ws.AfterOperations(table.Keys, ws.Tells(table), others, [], up).0 == []
    decreases |others|
  {
    if others != [] {
      var (p1, up1) := ws.AfterOperation(table.Keys, ws.Tells(table), others[0], [], up);
      NoTokenWritten(ws, table, others[1..], up1);
    }
  }

  /** With no member ready and no token written, the first member whose descriptor has a condition is
      returned. */
  lemma ConditionIsReturned(ws: WaitSet, table: EventTable, sockets: SocketTable, a: Answers,
                            others: seq<Operation>, of: int -> set<PollBit>, i: nat)
    requires NothingReady(ws, table, a) && forall l | 0 <= l < |others| :: WritesNothing(ws, table, others[l])
    requires i < |ws.handleQueue| && HasCondition(ws.handleQueue[i], sockets, a, of)
    requires forall j | 0 <= j < i :: !HasCondition(ws.handleQueue[j], sockets, a, of)
    ensures var end := EndOf(ws, table, sockets, a, others, Conditions(of));
            end.triggered == ws.handleQueue[i].h && end.pipe == []
  {
    NothingReadySleeps(ws, table, sockets, a, others, Conditions(of));
    NoTokenWritten(ws, table, others, Up(table));
    FirstConditionIsFirst(ws, sockets, a, of, i);
  }

  lemma FirstConditionIsFirst(ws: WaitSet, sockets: SocketTable, a: Answers, of: int -> set<PollBit>, i: nat)
    requires i <= |ws.handleQueue|
    requires i < |ws.handleQueue| ==> HasCondition(ws.handleQueue[i], sockets, a, of)
    requires forall j | 0 <= j < i :: !HasCondition(ws.handleQueue[j], sockets, a, of)
    ensures var polled := PolledMembers(ws.handleQueue);
            var n := ws.FirstReported(polled, View(sockets), a, of);
            (n < |polled| <==> i < |ws.handleQueue|) && (n < |polled| ==> polled[n] == ws.handleQueue[i])
  {
    var view := View(sockets);
    forall j | 0 <= j < |ws.handleQueue| && ws.handleQueue[j].Polled()
      ensures HasCondition(ws.handleQueue[j], sockets, a, of) <==>
              ws.Report(ws.Entry(ws.handleQueue[j], view, a), of) != {}
    {
      ConditionIsReported(ws, ws.handleQueue[j], sockets, a, of);
    }
    FirstOfSelection(ws.handleQueue, IsPolled, (m: Member) => ws.Report(ws.Entry(m, view, a), of) != {},
                     ws.FirstReported(PolledMembers(ws.handleQueue), view, a, of), i);
  }

  /** The timer that the call takes when its poll runs out. */
  ghost predicate FirstSoonest(members: seq<Member>, cap: nat, a: Answers, i: nat) {
    i < |members| && members[i].Timer? && a.waitTime(members[i].h) < cap &&
    forall j | 0 <= j < |members| && members[j].Timer? ::
      a.waitTime(members[i].h) <= a.waitTime(members[j].h) &&
      (j < i ==> a.waitTime(members[i].h) < a.waitTime(members[j].h))
  }

  /** With no condition either, the call takes the first soonest timer, or nothing when every timer is as far
      off as the cap. */
  lemma QuietSleepTakesTimer(ws: WaitSet, table: EventTable, sockets: SocketTable, a: Answers,
                             others: seq<Operation>, of: int -> set<PollBit>)
    requires NothingReady(ws, table, a) && forall l | 0 <= l < |others| :: WritesNothing(ws, table, others[l])
    requires forall j | 0 <= j < |ws.handleQueue| :: !HasCondition(ws.handleQueue[j], sockets, a, of)
    ensures var end := EndOf(ws, table, sockets, a, others, Conditions(of));
            end.pipe == [] && end.reports == Reports(sockets) &&
            ((exists i: nat :: FirstSoonest(ws.handleQueue, ws.maxWait, a, i) &&
                               end.triggered == ws.handleQueue[i].h) ||
             (end.triggered == NULL_HANDLE &&
              forall m | m in ws.handleQueue && m.Timer? :: a.waitTime(m.h) >= ws.maxWait))
  {
    NothingReadySleeps(ws, table, sockets, a, others, Conditions(of));
    NoTokenWritten(ws, table, others, Up(table));
    FirstConditionIsFirst(ws, sockets, a, of, |ws.handleQueue|);
    var i := LeastTimerIsFirst(ws.handleQueue, ws.maxWait, a);
    assert forall j | 0 <= j < |ws.handleQueue| :: ws.handleQueue[j] in ws.handleQueue;
    if LeastWait(ws.handleQueue, ws.maxWait, a) < ws.maxWait {
      assert FirstSoonest(ws.handleQueue, ws.maxWait, a, i);
    }
  }

  /** A failed poll ends the call with nothing. */
  lemma FailedPollReturnsNothing(ws: WaitSet, table: EventTable, sockets: SocketTable, a: Answers,
                                 others: seq<Operation>)
    requires NothingReady(ws, table, a)
    ensures EndOf(ws, table, sockets, a, others, Interrupted).triggered == NULL_HANDLE
  {
    NothingReadySleeps(ws, table, sockets, a, others, Interrupted);
  }

  // ---- Flags after the operations ----

  /** Of the sets and resets of an event the last one decides its flag. */
  lemma {:induction false} LastOperationDecides(ws: WaitSet, live: set<Handle>, tells: set<Handle>,
                                                others: seq<Operation>, p: seq<Handle>, up: iset<Handle>, h: Handle,
                                                n: nat)
    requires h in live && n < |others| && (others[n] == SetEvent(h) || others[n] == ResetEvent(h))
    requires forall l | n < l < |others| :: others[l] != SetEvent(h) && others[l] != ResetEvent(h)
    ensures h in ws.AfterOperations(live, tells, others, p, up).1 <==> others[n].SetEvent?
    decreases |others|
  {
    var (p1, up1) := ws.AfterOperation(live, tells, others[0], p, up);
    if n > 0 {
      LastOperationDecides(ws, live, tells, others[1..], p1, up1, h, n - 1);
    } else {
      OthersLeaveFlag(ws, live, tells, others[1..], p1, up1, h);
    }
  }

  lemma {:induction false} OthersLeaveFlag(ws: WaitSet, live: set<Handle>, tells: set<Handle>,
                                           others: seq<Operation>, p: seq<Handle>, up: iset<Handle>, h: Handle)
    requires forall l | 0 <= l < |others| :: others[l] != SetEvent(h) && others[l] != ResetEvent(h)
    ensures h in ws.AfterOperations(live, tells, others, p, up).1 <==> h in up
    decreases |others|
  {
    if others != [] {
      var (p1, up1) := ws.AfterOperation(live, tells, others[0], p, up);
      OthersLeaveFlag(ws, live, tells, others[1..], p1, up1, h);
    }
  }
}
