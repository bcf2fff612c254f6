/** Events and wait sets as the objects that the source updates in place: src/event_android.c and
    src/waitset_android.c. Each method here runs without interference; what interleaving does to them is
    the subject of Protocol. */
module WaitSets {
  import opened Filtering
  import opened Members
  import opened Scanning
  import opened SocketEvents

  datatype EventType = AUTO | MANUAL

  /** ANDROID_EVENT, with the wait set that the handle layer associates with the event's handle. */
  class AndroidEvent {
    const handle: Handle
    const eventType: EventType
    var signalled: bool
    var waitSet: WaitSet?

    constructor (handle: Handle, eventType: EventType)
      ensures this.handle == handle && this.eventType == eventType && !signalled && waitSet == null
    {
      this.handle := handle;
      this.eventType := eventType;
      signalled := false;
      waitSet := null;
    }

    /** The wait set to tell, if there is one. */
    ghost function Target(): set<WaitSet>
      reads this`waitSet
    {
      if waitSet == null then {} else {waitSet}
    }

    /** ofc_event_set_impl: the flag first, then the token for the associated wait set. */
    method Set()
      modifies this`signalled, Target()`pipe
      ensures signalled
      ensures waitSet != null ==>
                waitSet.pipe == (if |old(waitSet.pipe)| < waitSet.capacity then old(waitSet.pipe) + [handle]
                                 else old(waitSet.pipe))
    {
      signalled := true;
      if waitSet != null {
        waitSet.Signal(handle);
      }
    }

    /** ofc_event_reset_impl. Tokens already written stay where they are. */
    method Reset()
      modifies this`signalled
      ensures !signalled
    {
      signalled := false;
    }

    method Test() returns (up: bool)
      ensures up == signalled
    {
      up := signalled;
    }
  }

  // ---- The handle table ----

  /** Live event handles and their objects. */
  type EventTable = map<Handle, AndroidEvent>

  ghost predicate ValidTable(table: EventTable) {
    forall h | h in table :: table[h].handle == h
  }

  /** The wait sets that the events of a table are associated with. */
  ghost function Targets(table: EventTable): set<WaitSet>
    reads table.Values`waitSet
  {
    set h | h in table && table[h].waitSet != null :: table[h].waitSet
  }

  /** The handles that ofc_event_test reports as signalled; it says so of every dead handle. */
  ghost function Up(table: EventTable): iset<Handle>
    reads table.Values
  {
    iset h: Handle | h in table ==> table[h].signalled
  }

  /** The flags after an automatic event e has been reset; a dead handle has nothing to reset. */
  ghost function Lowered(table: EventTable, up: iset<Handle>, e: Handle): iset<Handle> {
    if e in table && table[e].eventType == AUTO then up - iset{e} else up
  }

  /** Live socket handles and their implementation records. */
  type SocketTable = map<Handle, SocketImpl>

  /** The descriptors and requested bits that the sockets hold at one instant. */
  type SocketView = map<Handle, PollFd>

  ghost function View(sockets: SocketTable): SocketView
    reads sockets.Values
  {
    map h | h in sockets :: PollFd(sockets[h].fd, sockets[h].events, {})
  }

  type ReportMap = map<Handle, set<PollBit>>

  /** The reports that the sockets keep at one instant. */
  ghost function Reports(sockets: SocketTable): ReportMap
    reads sockets.Values
  {
    map h | h in sockets :: sockets[h].revents
  }

  /** Every socket handle has a record of its own. */
  ghost predicate ValidSockets(sockets: SocketTable) {
    forall g, h | g in sockets && h in sockets && g != h :: sockets[g] != sockets[h]
  }

  method TestHandle(table: EventTable, h: Handle) returns (up: bool)
    ensures up <==> h in Up(table)
    ensures up <==> (h in table ==> table[h].signalled)
  {
    up := true;
    if h in table {
      up := table[h].Test();
    }
  }

  /** The pair ofc_event_get_type and ofc_event_reset that consumes an automatic event. */
  method ConsumeIfAuto(table: EventTable, h: Handle)
    requires ValidTable(table)
    modifies table.Values`signalled
    ensures Up(table) == Lowered(table, old(Up(table)), h)
    ensures h in table && table[h].eventType == AUTO ==> !table[h].signalled
    ensures forall g | g in table && !(g == h && table[g].eventType == AUTO) ::
              table[g].signalled == old(table[g].signalled)
  {
    if h in table && table[h].eventType == AUTO {
      table[h].Reset();
    }
  }

  // ---- Wait sets ----

  /** An entry of the array passed to poll. */
  datatype PollFd = PollFd(fd: int, events: set<PollBit>, revents: set<PollBit>)

  /** What a scan hands on to the poll. */
  datatype ScanResult = ScanResult(
    triggered: Handle, pollList: seq<PollFd>, handles: seq<Handle>, queue: seq<EventElement>,
    leastWait: nat, timerEvent: Handle)

  /** Operations of other threads that land while the waiter is inside poll. */
  datatype Operation = SetEvent(h: Handle) | ResetEvent(h: Handle) | WakeSet

  /** What a wait call returns, and the pipe, flags and socket reports it leaves. */
  datatype CallEnd = CallEnd(triggered: Handle, pipe: seq<Handle>, up: iset<Handle>, reports: ReportMap)

  /** What the kernel says to one poll: a failure, or the conditions of the descriptors. */
  datatype KernelAnswer = Interrupted | Conditions(of: int -> set<PollBit>)

  /** The report is what the kernel says of the descriptor, cut down to what was asked for and the three
      bits that need no asking, and it is not empty. */
  ghost predicate KeepsReport(f: PollFd, of: int -> set<PollBit>, kept: set<PollBit>) {
    && kept != {}
    && forall b :: b in kept <==>
         f.fd >= 0 && b in of(f.fd) && (b in f.events || b == POLLERR || b == POLLHUP || b == POLLNVAL)
  }

  /** What a socket asks poll for. */
  ghost function Request(sock: SocketImpl): PollFd
    reads sock`events
  {
    PollFd(sock.fd, sock.events, {})
  }

  lemma KeptIsExpected(f: PollFd, of: int -> set<PollBit>, kept: set<PollBit>, types: set<SocketEvent>)
    requires KeepsReport(f, of, kept) && StandFor(f.events, types)
    ensures PollMayReport(f.events, kept) && f.fd >= 0
    ensures forall e | e in types && BitOf(e) in of(f.fd) :: BitOf(e) in kept
  {
    var b :| b in kept;
  }

  /** The test of a socket whose record holds what the kernel reported. */
  method TestKept(sock: SocketImpl, ghost of: int -> set<PollBit>, ghost types: set<SocketEvent>)
      returns (reported: set<SocketEvent>)
    requires StandFor(sock.events, types) && KeepsReport(Request(sock), of, sock.revents)
    ensures forall e :: e in reported <==> BitOf(e) in sock.revents || (e == CLOSE && sock.remoteClosed)
    ensures forall e | e in reported :: Expected(e, types)
    ensures sock.fd >= 0 && forall e | e in types && BitOf(e) in of(sock.fd) :: e in reported
  {
    KeptIsExpected(Request(sock), of, sock.revents, types);
    reported := TestReport(sock, types);
  }

  /** WAIT_SET and ANDROID_WAIT_SET. The pipe holds at most capacity handles. */
  class WaitSet {
    const capacity: nat
    const pipeFd: int
    const maxWait: nat   // OFC_MAX_SCHED_WAIT
    var pipe: seq<Handle>
    var handleQueue: seq<Member>

    constructor (capacity: nat, pipeFd: int, maxWait: nat)
      ensures pipe == [] && handleQueue == []
      ensures this.capacity == capacity && this.pipeFd == pipeFd && this.maxWait == maxWait
    {
      this.capacity := capacity;
      this.pipeFd := pipeFd;
      this.maxWait := maxWait;
      pipe := [];
      handleQueue := [];
    }

    /** ofc_waitset_signal_impl: with room in the pipe the old tokens followed by h, without it nothing new. */
    method Signal(h: Handle)
      modifies this`pipe
      ensures pipe == if |old(pipe)| < capacity then old(pipe) + [h] else old(pipe)
      ensures capacity > 0 ==> pipe != []
    {
      if |pipe| < capacity {
        pipe := pipe + [h];
      }
    }

    /** ofc_waitset_wake_impl. */
    method Wake()
      modifies this`pipe
      ensures pipe == if |old(pipe)| < capacity then old(pipe) + [NULL_HANDLE] else old(pipe)
      ensures capacity > 0 ==> pipe != []
    {
      Signal(NULL_HANDLE);
    }

    /** One non-blocking read of one handle. */
    method Read() returns (ok: bool, h: Handle)
      modifies this`pipe
      ensures ok <==> old(pipe) != []
      ensures if ok then [h] + pipe == old(pipe) else pipe == []
    {
      ok, h := pipe != [], NULL_HANDLE;
      if ok {
        h, pipe := pipe[0], pipe[1..];
      }
    }

    /** ofc_waitset_add_impl: associate first, then test, then signal if something is already there. A
        wait queue is tested by its messages, everything else by the flag of its event. */
    method Add(m: Member, table: EventTable, a: Answers)
      requires ValidTable(table)
      modifies this`pipe, table.Values`waitSet
      ensures Up(table) == old(Up(table))
      ensures m.EventLike() && m.Signal() in table ==> table[m.Signal()].waitSet == this
      ensures forall h | h in table && !(m.EventLike() && h == m.Signal()) ::
                table[h].waitSet == old(table[h].waitSet)
      ensures var already := if m.WaitQueue? then a.nonEmpty(m.h)
                             else m.Signal() in table ==> table[m.Signal()].signalled;
              pipe == if m.EventLike() && already && |old(pipe)| < capacity then old(pipe) + [m.Signal()]
                      else old(pipe)
    {
      if m.EventLike() {
        var e := m.Signal();
        if e in table {
          table[e].waitSet := this;
        }
        if m.WaitQueue? {
          if a.nonEmpty(m.h) {
            Signal(e);
          }
        } else {
          var up := TestHandle(table, e);
          if up {
            Signal(e);
          }
        }
      }
    }

    method Purge()
      modifies this`pipe
      ensures pipe == []
    {
      var ok, h := Read();
      while ok
        invariant !ok ==> pipe == []
        decreases |pipe|, ok
      {
        ok, h := Read();
      }
    }

    /** PollEvent: the drain. */
    method PollEvent(queue: seq<EventElement>, table: EventTable) returns (triggered: Handle)
      requires ValidTable(table)
      requires forall x | x in queue :: x.hAssoc != NULL_HANDLE
      modifies this`pipe, table.Values`signalled
      ensures var d := DrainSearch(old(pipe), queue, old(Up(table)));
              triggered == d.triggered && pipe == d.rest &&
              Up(table) == (if d.triggered != NULL_HANDLE then Lowered(table, old(Up(table)), d.event)
                            else old(Up(table)))
    {
      triggered := NULL_HANDLE;
      var wake, more := false, true;
      ghost var d := DrainSearch(pipe, queue, Up(table));
      while triggered == NULL_HANDLE && !wake && more
        invariant triggered == NULL_HANDLE && !wake && more ==>
          d == DrainSearch(pipe, queue, Up(table)) && Up(table) == old(Up(table))
        invariant triggered != NULL_HANDLE || wake || !more ==>
          triggered == d.triggered && pipe == d.rest &&
          Up(table) == (if d.triggered != NULL_HANDLE then Lowered(table, old(Up(table)), d.event)
                        else old(Up(table)))
        decreases |pipe|, more
      {
        ghost var before := pipe;
        var h;
        more, h := Read();
        if more {
          assert before[1..] == pipe && before[0] == h;
          if h == NULL_HANDLE {
            wake := true;
          } else {
            var i := FindElement(queue, h);
            if i < |queue| {
              var up := TestHandle(table, h);
              if up {
                ConsumeIfAuto(table, h);
                triggered := queue[i].hAssoc;
              }
            }
          }
        }
      }
    }

    /** The search that the drain makes for each token. */
    method FindElement(queue: seq<EventElement>, h: Handle) returns (i: nat)
      requires forall x | x in queue :: x.hAssoc != NULL_HANDLE
      ensures i <= |queue|
      ensures i < |queue| ==> queue[i].hEvent == h
      ensures forall j | 0 <= j < i :: queue[j].hEvent != h
      ensures AssocOf(queue, h) == if i < |queue| then queue[i].hAssoc else NULL_HANDLE
    {
      i := 0;
      while i < |queue| && queue[i].hEvent != h
        invariant i <= |queue| && forall j | 0 <= j < i :: queue[j].hEvent != h
        invariant AssocOf(queue, h) == AssocOf(queue[i..], h)
      {
        assert queue[i..][1..] == queue[i + 1..];
        i := i + 1;
      }
    }

    /** The pollfd entry that a scan makes for a polled member. */
    ghost function Entry(m: Member, view: SocketView, a: Answers): PollFd {
      if m.Socket? && m.h in view then view[m.h]
      else if m.Socket? then PollFd(-1, {}, {})
      else PollFd(a.fd(m.h), {}, {})
    }

    /** The arrays stay index-aligned: the pipe at 0, then one entry for each polled member. */
    ghost predicate Aligned(list: seq<PollFd>, handles: seq<Handle>, polled: seq<Member>,
                            view: SocketView, a: Answers)
    {
      && |list| == |handles| == |polled| + 1
      && list[0] == PollFd(pipeFd, {POLLIN}, {}) && handles[0] == NULL_HANDLE
      && forall i | 0 <= i < |polled| ::
           list[i + 1] == Entry(polled[i], view, a) && handles[i + 1] == polled[i].h
    }

    /** What a scan has gathered after passing over the given members. */
    ghost predicate Gathered(r: ScanResult, passed: seq<Member>, view: SocketView, a: Answers)
    {
      && r.queue == EventList(passed)
      && Aligned(r.pollList, r.handles, PolledMembers(passed), view, a)
      && r.leastWait == LeastWait(passed, maxWait, a)
      && r.timerEvent == LeastTimer(passed, maxWait, a)
    }

    /** What passing over one more member adds. */
    ghost function PassOver(r: ScanResult, m: Member, view: SocketView, a: Answers): ScanResult
    {
      if m.EventLike() then r.(queue := r.queue + [ElementOf(m)])
      else if m.Polled() then
        r.(pollList := r.pollList + [Entry(m, view, a)], handles := r.handles + [m.h])
      else if m.Timer? && a.waitTime(m.h) < r.leastWait then
        r.(leastWait := a.waitTime(m.h), timerEvent := m.h)
      else r
    }

    /** Gathering goes on member by member. */
    lemma PassOverGathers(r: ScanResult, members: seq<Member>, i: nat, view: SocketView, a: Answers)
      requires i < |members| && Gathered(r, members[..i], view, a)
      ensures Gathered(PassOver(r, members[i], view, a), members[..i + 1], view, a)
    {
      EventListNext(members, i);
      SelectNext(members, IsPolled, i);
      LeastNext(members, i, maxWait, a);
      OneMoreGathered(r, members[..i], members[i], members[..i + 1], view, a);
    }

    lemma OneMoreGathered(r: ScanResult, passed: seq<Member>, m: Member, passed': seq<Member>,
                          view: SocketView, a: Answers)
      requires Gathered(r, passed, view, a)
      requires EventList(passed') == if m.EventLike() then EventList(passed) + [ElementOf(m)] else EventList(passed)
      requires PolledMembers(passed') == if m.Polled() then PolledMembers(passed) + [m] else PolledMembers(passed)
      requires LeastWait(passed', maxWait, a) == PassOver(r, m, view, a).leastWait
      requires LeastTimer(passed', maxWait, a) == PassOver(r, m, view, a).timerEvent
      ensures Gathered(PassOver(r, m, view, a), passed', view, a)
    {
    }

    /** What was gathered does not mind what was triggered. */
    lemma TriggeredGathers(r: ScanResult, h: Handle, passed: seq<Member>, view: SocketView, a: Answers)
      requires Gathered(r, passed, view, a)
      ensures Gathered(r.(triggered := h), passed, view, a)
    {
    }

    /** The body of the scan loop: a switch on the type of the handle. */
    method Visit(m: Member, r: ScanResult, table: EventTable, sockets: SocketTable, a: Answers)
        returns (r': ScanResult)
      requires ValidTable(table) && r.triggered == NULL_HANDLE
      modifies table.Values`signalled
      ensures if ReadyOnSight(m, old(Up(table)), a) then r' == r.(triggered := m.h)
              else r' == PassOver(r, m, old(View(sockets)), a)
      ensures Up(table) == (if m.Event? && m.h in old(Up(table)) then Lowered(table, old(Up(table)), m.h)
                            else old(Up(table)))
    {
      r' := r;
      match m {
        case Unsynchronized(_) =>
        case WaitQueue(h, e) =>
          if a.nonEmpty(h) {
            r' := r.(triggered := h);
          } else {
            r' := r.(queue := r.queue + [EventElement(e, h)]);
          }
        case SmbOverlapped(h, e) =>
          if a.nonEmpty(h) {
            r' := r.(triggered := h);
          } else {
            r' := r.(queue := r.queue + [EventElement(e, h)]);
          }
        case AndroidFile(h) =>
          r' := r.(pollList := r.pollList + [PollFd(a.fd(h), {}, {})], handles := r.handles + [h]);
        case Socket(h) =>
          var fd, events := -1, {};
          if h in sockets {
            fd := sockets[h].fd;
            events := sockets[h].GetEvent();
          }
          r' := r.(pollList := r.pollList + [PollFd(fd, events, {})], handles := r.handles + [h]);
        case ResolverOverlapped(h, e) =>
          var up := TestHandle(table, e);
          r' := if up then r.(triggered := h) else r.(queue := r.queue + [EventElement(e, h)]);
        case AndroidOverlapped(h, e) =>
          var up := TestHandle(table, e);
          r' := if up then r.(triggered := h) else r.(queue := r.queue + [EventElement(e, h)]);
        case Event(h) =>
          var up := TestHandle(table, h);
          if up {
            r' := r.(triggered := h);
            ConsumeIfAuto(table, h);
          } else {
            r' := r.(queue := r.queue + [EventElement(h, h)]);
          }
        case Timer(h) =>
          var waitTime := a.waitTime(h);
          if waitTime == 0 {
            r' := r.(triggered := h);
          } else if waitTime < r.leastWait {
            r' := r.(leastWait := waitTime, timerEvent := h);
          }
      }
    }

    /** The flags after a scan that stops at place n. */
    ghost function UpAfterScan(table: EventTable, up: iset<Handle>, members: seq<Member>, n: nat): iset<Handle> {
      if n < |members| && members[n].Event? then Lowered(table, up, members[n].h) else up
    }

    /** How far a scan has come: it has passed over some members before the first ready one, or it has
        passed over all of those and has taken that one. */
    ghost predicate Progress(members: seq<Member>, table: EventTable, a: Answers, up0: iset<Handle>,
                             up: iset<Handle>, triggered: Handle, passed: nat) {
      var n := FirstReady(members, up0, a);
      if triggered == NULL_HANDLE then passed <= n && up == up0
      else passed == n < |members| && triggered == members[n].h && up == UpAfterScan(table, up0, members, n)
    }

    /** The next member is either passed over or taken. */
    lemma ProgressGoesOn(members: seq<Member>, table: EventTable, a: Answers, up: iset<Handle>, i: nat)
      requires i < |members| && Progress(members, table, a, up, up, NULL_HANDLE, i)
      requires members[i].h != NULL_HANDLE
      ensures var m := members[i];
              var up' := if m.Event? && m.h in up then Lowered(table, up, m.h) else up;
              if ReadyOnSight(m, up, a) then Progress(members, table, a, up, up', m.h, i)
              else Progress(members, table, a, up, up', NULL_HANDLE, i + 1)
    {
    }

    /** One turn of the scan loop, seen from the scan as a whole. */
    method VisitAt(i: nat, r: ScanResult, table: EventTable, sockets: SocketTable, a: Answers,
                   ghost up0: iset<Handle>) returns (r': ScanResult)
      requires ValidTable(table) && Live(handleQueue) && i < |handleQueue| && r.triggered == NULL_HANDLE
      requires Progress(handleQueue, table, a, up0, Up(table), NULL_HANDLE, i)
      requires Gathered(r, handleQueue[..i], View(sockets), a)
      modifies table.Values`signalled
      ensures var passed := if r'.triggered == NULL_HANDLE then i + 1 else i;
              Progress(handleQueue, table, a, up0, Up(table), r'.triggered, passed) &&
              Gathered(r', handleQueue[..passed], old(View(sockets)), a)
    {
      ProgressGoesOn(handleQueue, table, a, up0, i);
      PassOverGathers(r, handleQueue, i, View(sockets), a);
      TriggeredGathers(r, handleQueue[i].h, handleQueue[..i], View(sockets), a);
      r' := Visit(handleQueue[i], r, table, sockets, a);
    }

    /** The scan loop of ofc_waitset_wait_impl. It stops at the first ready member; an automatic event
        found up there comes down, and nothing else changes. */
    method Scan(table: EventTable, sockets: SocketTable, a: Answers) returns (r: ScanResult)
      requires ValidTable(table) && Live(handleQueue)
      modifies table.Values`signalled
      ensures var n := FirstReady(handleQueue, old(Up(table)), a);
              && r.triggered == (if n < |handleQueue| then handleQueue[n].h else NULL_HANDLE)
              && Up(table) == UpAfterScan(table, old(Up(table)), handleQueue, n)
              && Gathered(r, handleQueue[..n], old(View(sockets)), a)
    {
      r := ScanResult(NULL_HANDLE, [PollFd(pipeFd, {POLLIN}, {})], [NULL_HANDLE], [], maxWait, NULL_HANDLE);
      var i := 0;
      ghost var up0, view, passed := Up(table), View(sockets), 0;
      while i < |handleQueue| && r.triggered == NULL_HANDLE
        invariant i <= |handleQueue| && passed <= |handleQueue|
        invariant r.triggered == NULL_HANDLE ==> i == passed
        invariant Progress(handleQueue, table, a, up0, Up(table), r.triggered, passed)
        invariant Gathered(r, handleQueue[..passed], view, a)
        invariant View(sockets) == view
      {
        r := VisitAt(i, r, table, sockets, a, up0);
        i := i + 1;
        passed := if r.triggered == NULL_HANDLE then i else i - 1;
      }
    }

    // ---- The call as a whole ----

    /** The live events whose sets this wait set is told of. */
    ghost function Tells(table: EventTable): set<Handle>
      reads table.Values`waitSet
    {
      set h | h in table && table[h].waitSet == this
    }

    /** What the operations of other threads make of this set's pipe and of the flags. */
    ghost function AfterOperations(live: set<Handle>, tells: set<Handle>, others: seq<Operation>,
                                   p: seq<Handle>, up: iset<Handle>): (seq<Handle>, iset<Handle>) {
      if others == [] then (p, up)
      else
        var (p', up') := AfterOperation(live, tells, others[0], p, up);
        AfterOperations(live, tells, others[1..], p', up')
    }

    ghost function AfterOperation(live: set<Handle>, tells: set<Handle>, op: Operation,
                                  p: seq<Handle>, up: iset<Handle>): (seq<Handle>, iset<Handle>) {
      match op
      case SetEvent(h) => (if h in tells then Written(capacity, p, h) else p, if h in live then up + iset{h} else up)
      case ResetEvent(h) => (p, if h in live then up - iset{h} else up)
      case WakeSet => (Written(capacity, p, NULL_HANDLE), up)
    }

    method OtherThreads(table: EventTable, others: seq<Operation>)
      requires ValidTable(table)
      modifies this`pipe, Targets(table)`pipe, table.Values`signalled
      ensures (pipe, Up(table)) ==
              AfterOperations(table.Keys, Tells(table), others, old(pipe), old(Up(table)))
    {
      ghost var tells := Tells(table);
      for i := 0 to |others|
        invariant Tells(table) == tells
        invariant AfterOperations(table.Keys, tells, others, old(pipe), old(Up(table))) ==
                  AfterOperations(table.Keys, tells, others[i..], pipe, Up(table))
      {
        assert others[i..][1..] == others[i + 1..];
        Perform(table, others[i]);
      }
    }

    method Perform(table: EventTable, op: Operation)
      requires ValidTable(table)
      modifies this`pipe, Targets(table)`pipe, table.Values`signalled
      ensures (pipe, Up(table)) == AfterOperation(table.Keys, Tells(table), op, old(pipe), old(Up(table)))
      ensures forall h | h in table ::
                table[h].signalled == if op == SetEvent(h) then true else if op == ResetEvent(h) then false
                                      else old(table[h].signalled)
    {
      match op {
        case SetEvent(h) =>
          if h in table {
            table[h].Set();
            assert Up(table) == old(Up(table)) + iset{h};
          }
        case ResetEvent(h) =>
          if h in table {
            table[h].Reset();
            assert Up(table) == old(Up(table)) - iset{h};
          }
        case WakeSet =>
          Wake();
      }
    }

    /** What poll reports for an entry: nothing for a negative descriptor, and otherwise what was asked
        for or is always reported. */
    function Report(f: PollFd, of: int -> set<PollBit>): (r: set<PollBit>)
      ensures PollMayReport(f.events, r)
    {
      if f.fd < 0 then {} else of(f.fd) * (f.events + ALWAYS_REPORTED)
    }

    /** poll, with the pipe at index 0 readable exactly when it holds a token. */
    method Poll(list: seq<PollFd>, of: int -> set<PollBit>) returns (count: nat, list': seq<PollFd>)
      requires |list| > 0
      ensures |list'| == |list| && list'[0] == list[0].(revents := if pipe != [] then {POLLIN} else {})
      ensures forall i | 0 < i < |list| :: list'[i] == list[i].(revents := Report(list[i], of))
      ensures count == 0 <==> forall i | 0 <= i < |list'| :: list'[i].revents == {}
    {
      var first := list[0].(revents := if pipe != [] then {POLLIN} else {});
      count, list' := if pipe != [] then 1 else 0, [first];
      for i := 1 to |list|
        invariant |list'| == i && list'[0] == first
        invariant forall j | 0 < j < i :: list'[j] == list[j].(revents := Report(list[j], of))
        invariant count == 0 <==> forall j | 0 <= j < i :: list'[j].revents == {}
      {
        var revents := Report(list[i], of);
        list' := list' + [list[i].(revents := revents)];
        count := count + (if revents != {} then 1 else 0);
      }
    }

    /** The place of the first polled member that poll reports, or the length of the list. */
    ghost function FirstReported(polled: seq<Member>, view: SocketView, a: Answers, of: int -> set<PollBit>): (n: nat)
      ensures n <= |polled|
      ensures forall j | 0 <= j < n :: Report(Entry(polled[j], view, a), of) == {}
      ensures n < |polled| ==> Report(Entry(polled[n], view, a), of) != {}
    {
      if polled == [] then 0
      else if Report(Entry(polled[0], view, a), of) != {} then 0
      else
        assert forall j | 0 < j < |polled| :: polled[j] == polled[1..][j - 1];
        1 + FirstReported(polled[1..], view, a, of)
    }

    /** The first entry with a report is the pipe's or, past it, that of the first reported member. */
    lemma FirstEntryIsFirstMember(r: ScanResult, list: seq<PollFd>, polled: seq<Member>, view: SocketView,
                                  a: Answers, of: int -> set<PollBit>, i: nat)
      requires Aligned(r.pollList, r.handles, polled, view, a)
      requires |list| == |r.pollList| && list[0].revents == {}
      requires forall j | 0 < j < |list| :: list[j] == r.pollList[j].(revents := Report(r.pollList[j], of))
      requires i <= |list| && forall j | 0 <= j < i :: list[j].revents == {}
      requires i < |list| ==> list[i].revents != {}
      ensures i == 1 + FirstReported(polled, view, a, of)
      ensures i < |list| ==> r.handles[i] == polled[i - 1].h
      ensures i < |list| ==> list[i].revents == Report(Entry(polled[i - 1], view, a), of)
    {
      var n := FirstReported(polled, view, a, of);
      if i < |list| {
        assert r.pollList[i - 1 + 1] == Entry(polled[i - 1], view, a);
      }
      if n < |polled| {
        assert r.pollList[n + 1] == Entry(polled[n], view, a);
        assert list[n + 1].revents != {};
      }
    }

    /** The loops find the same descriptor as the machine when the kernel reports the ready ones. */
    lemma DescriptorsAgree(members: seq<Member>, view: SocketView, a: Answers, of: int -> set<PollBit>,
                           ready: set<Handle>)
      requires Live(members)
      requires forall m | m in members && m.Polled() ::
                 m.h in ready <==> Report(Entry(m, view, a), of) != {}
      ensures var polled := PolledMembers(members);
              var i := FirstReported(polled, view, a, of);
              FirstDescriptor(members, ready) == if i < |polled| then polled[i].h else NULL_HANDLE
    {
      var k := FirstDescriptorIsFirst(members, ready);
      assert forall j | 0 <= j < |members| :: members[j] in members;
      FirstOfSelection(members, IsPolled, m => Report(Entry(m, view, a), of) != {},
                       FirstReported(PolledMembers(members), view, a, of), k);
    }

    /** What a call returns and leaves behind. */
    ghost function Ending(table: EventTable, sockets: SocketTable, triggered: Handle): CallEnd
      reads this`pipe, table.Values, sockets.Values
    {
      CallEnd(triggered, pipe, Up(table), Reports(sockets))
    }

    /** The end of a call that drains p: the handle found, the tokens not read, its event lowered. */
    ghost function DrainEnd(table: EventTable, members: seq<Member>, p: seq<Handle>, up: iset<Handle>,
                            reports: ReportMap): CallEnd {
      var d := DrainSearch(p, EventList(members), up);
      CallEnd(d.triggered, d.rest, if d.triggered != NULL_HANDLE then Lowered(table, up, d.event) else up, reports)
    }

    /** The end of a call whose poll finds no token: the first reported descriptor, its report kept by its
        socket; with none reported, the least timer or nothing. */
    ghost function ReportEnd(members: seq<Member>, view: SocketView, a: Answers, of: int -> set<PollBit>,
                             up: iset<Handle>, reports: ReportMap): CallEnd {
      var polled := PolledMembers(members);
      var i := FirstReported(polled, view, a, of);
      if i < |polled| then
        var h := polled[i].h;
        CallEnd(h, [], up, if h in reports then reports[h := Report(Entry(polled[i], view, a), of)] else reports)
      else CallEnd(LeastTimer(members, maxWait, a), [], up, reports)
    }

    /** The end of a call after a sleep that leaves pipe p and flags up: a failed poll changes nothing, a
        token leads to a drain, and without a token the descriptors and timers decide. */
    ghost function SleepEnd(table: EventTable, members: seq<Member>, view: SocketView, a: Answers, k: KernelAnswer,
                            p: seq<Handle>, up: iset<Handle>, reports: ReportMap): CallEnd {
      match k
      case Interrupted => CallEnd(NULL_HANDLE, p, up, reports)
      case Conditions(of) =>
        if p != [] then DrainEnd(table, members, p, up, reports)
        else ReportEnd(members, view, a, of, up, reports)
    }

    /** The list is what poll makes of the list that the scan gathered. */
    ghost predicate PolledFrom(r: ScanResult, list: seq<PollFd>, of: int -> set<PollBit>) {
      && |list| == |r.pollList| > 0
      && forall j | 0 < j < |list| :: list[j] == r.pollList[j].(revents := Report(r.pollList[j], of))
    }

    method FirstRevents(list: seq<PollFd>) returns (i: nat)
      ensures i <= |list| && forall j | 0 <= j < i :: list[j].revents == {}
      ensures i < |list| ==> list[i].revents != {}
    {
      i := 0;
      while i < |list| && list[i].revents == {}
        invariant i <= |list| && forall j | 0 <= j < i :: list[j].revents == {}
      {
        i := i + 1;
      }
    }

    /** What the wait does with the first descriptor that poll reports. */
    method TakeDescriptor(r: ScanResult, list: seq<PollFd>, i: nat, sockets: SocketTable,
                          ghost view: SocketView, ghost a: Answers, ghost of: int -> set<PollBit>,
                          ghost up: iset<Handle>) returns (triggered: Handle)
      requires ValidSockets(sockets) && Gathered(r, handleQueue, view, a) && PolledFrom(r, list, of)
      requires 0 < i < |list| && list[i].revents != {} && forall j | 0 <= j < i :: list[j].revents == {}
      modifies sockets.Values`revents
      ensures CallEnd(triggered, [], up, Reports(sockets)) ==
              ReportEnd(handleQueue, view, a, of, up, old(Reports(sockets)))
    {
      triggered := NULL_HANDLE;
      FirstEntryIsFirstMember(r, list, PolledMembers(handleQueue), view, a, of, i);
      var h := r.handles[i];
      if h in sockets {
        sockets[h].SetEvent(list[i].revents);
        assert Reports(sockets) == old(Reports(sockets))[h := list[i].revents];
      }
      if list[i].revents != {} {
        triggered := h;
      }
    }

    /** poll has reported something: the search for the first entry with a report, and what is done with
        it. The pipe comes first. */
    method TakeReported(r: ScanResult, list: seq<PollFd>, table: EventTable, sockets: SocketTable,
                        ghost view: SocketView, ghost a: Answers, ghost of: int -> set<PollBit>)
        returns (triggered: Handle)
      requires ValidTable(table) && ValidSockets(sockets) && Live(handleQueue)
      requires Gathered(r, handleQueue, view, a)
      requires PolledFrom(r, list, of) && list[0].revents == (if pipe != [] then {POLLIN} else {})
      requires exists j :: 0 <= j < |list| && list[j].revents != {}
      modifies this`pipe, table.Values`signalled, sockets.Values`revents
      ensures Ending(table, sockets, triggered) ==
              SleepEnd(table, handleQueue, view, a, Conditions(of), old(pipe), old(Up(table)), old(Reports(sockets)))
    {
      triggered := NULL_HANDLE;
      var i := FirstRevents(list);
      if i == 0 {
        triggered := DrainPipe(r, table, Reports(sockets));
        assert Reports(sockets) == old(Reports(sockets));
      } else if i < |list| {
        triggered := TakeDescriptor(r, list, i, sockets, view, a, of, Up(table));
      }
    }

    method DrainPipe(r: ScanResult, table: EventTable, ghost reports: ReportMap) returns (triggered: Handle)
      requires ValidTable(table) && Live(handleQueue) && r.queue == EventList(handleQueue)
      modifies this`pipe, table.Values`signalled
      ensures CallEnd(triggered, pipe, Up(table), reports) ==
              DrainEnd(table, handleQueue, old(pipe), old(Up(table)), reports)
    {
      QueueHasHandles(handleQueue);
      triggered := PollEvent(r.queue, table);
    }

    /** The part of ofc_waitset_wait_impl from the return of poll on, after a scan that found nothing. */
    method AfterSleep(r: ScanResult, table: EventTable, sockets: SocketTable, ghost a: Answers, k: KernelAnswer,
                      ghost view: SocketView) returns (triggered: Handle)
      requires ValidTable(table) && ValidSockets(sockets) && Live(handleQueue)
      requires Gathered(r, handleQueue, view, a)
      modifies this`pipe, table.Values`signalled, sockets.Values`revents
      ensures Ending(table, sockets, triggered) ==
              SleepEnd(table, handleQueue, view, a, k, old(pipe), old(Up(table)), old(Reports(sockets)))
    {
      triggered := NULL_HANDLE;
      if k.Conditions? {
        var pollCount, pollList := Poll(r.pollList, k.of);
        if pollCount == 0 {
          triggered := r.timerEvent;
          FirstEntryIsFirstMember(r, pollList, PolledMembers(handleQueue), view, a, k.of, |pollList|);
        } else {
          triggered := TakeReported(r, pollList, table, sockets, view, a, k.of);
        }
      }
    }

    /** The sleep itself: other threads act, then the call looks at what poll says. */
    method Sleep(r: ScanResult, table: EventTable, sockets: SocketTable, ghost a: Answers,
                 others: seq<Operation>, k: KernelAnswer) returns (triggered: Handle)
      requires ValidTable(table) && ValidSockets(sockets) && Live(handleQueue)
      requires Gathered(r, handleQueue, View(sockets), a)
      modifies this`pipe, Targets(table)`pipe, table.Values`signalled, sockets.Values`revents
      ensures var (p, up) := AfterOperations(table.Keys, Tells(table), others, old(pipe), old(Up(table)));
              Ending(table, sockets, triggered) ==
              SleepEnd(table, handleQueue, old(View(sockets)), a, k, p, up, old(Reports(sockets)))
    {
      ghost var view, reports := View(sockets), Reports(sockets);
      ghost var (p, up) := AfterOperations(table.Keys, Tells(table), others, pipe, Up(table));
      ghost var tells := Tells(table);
      OtherThreads(table, others);
      assert Tells(table) == tells;
      assert Reports(sockets) == reports && pipe == p && Up(table) == up;
      triggered := AfterSleep(r, table, sockets, a, k, view);
      assert Tells(table) == tells;
    }

    /** The end of a whole call. */
    ghost function WaitEnd(table: EventTable, members: seq<Member>, view: SocketView, a: Answers,
                           others: seq<Operation>, k: KernelAnswer, tells: set<Handle>,
                           up: iset<Handle>, reports: ReportMap): CallEnd {
      var n := FirstReady(members, up, a);
      if n < |members| then CallEnd(members[n].h, [], UpAfterScan(table, up, members, n), reports)
      else
        var (p, up') := AfterOperations(table.Keys, tells, others, [], up);
        SleepEnd(table, members, view, a, k, p, up', reports)
    }

    /** The part of ofc_waitset_wait_impl before the poll. */
    method PurgeAndScan(table: EventTable, sockets: SocketTable, a: Answers) returns (r: ScanResult)
      requires ValidTable(table) && Live(handleQueue)
      modifies this`pipe, table.Values`signalled
      ensures pipe == [] && Reports(sockets) == old(Reports(sockets)) && View(sockets) == old(View(sockets))
      ensures var n := FirstReady(handleQueue, old(Up(table)), a);
              && Up(table) == UpAfterScan(table, old(Up(table)), handleQueue, n)
              && (if n < |handleQueue| then r.triggered == handleQueue[n].h != NULL_HANDLE
                  else r.triggered == NULL_HANDLE && Gathered(r, handleQueue, old(View(sockets)), a))
    {
      Purge();
      r := Scan(table, sockets, a);
      assert handleQueue[..|handleQueue|] == handleQueue;
    }

    /** ofc_waitset_wait_impl: purge, scan, and only when nothing was found sleep and look again. The
        operations in others land while the call is inside poll. A member found ready ends the call
        without a poll; otherwise the call ends as SleepEnd says. */
    method Wait(table: EventTable, sockets: SocketTable, a: Answers, others: seq<Operation>, k: KernelAnswer)
        returns (triggered: Handle)
      requires ValidTable(table) && ValidSockets(sockets) && Live(handleQueue)
      modifies this`pipe, Targets(table)`pipe, table.Values`signalled, sockets.Values`revents
      ensures Ending(table, sockets, triggered) ==
              WaitEnd(table, handleQueue, old(View(sockets)), a, others, k, Tells(table),
                      old(Up(table)), old(Reports(sockets)))
      ensures triggered in table && triggered != NULL_HANDLE &&
              (forall m | m in handleQueue && m.h == triggered :: m.Event?) ==>
                (table[triggered].signalled <==> table[triggered].eventType == MANUAL)
    {
      ghost var tells, up0, view, reports := Tells(table), Up(table), View(sockets), Reports(sockets);
      var r := PurgeAndScan(table, sockets, a);
      triggered := r.triggered;
      assert Tells(table) == tells;
      if triggered == NULL_HANDLE {
        triggered := Sleep(r, table, sockets, a, others, k);
      }
      if triggered in table && triggered != NULL_HANDLE &&
         forall m | m in handleQueue && m.h == triggered :: m.Event? {
        ReturnedEventFlag(table, handleQueue, view, a, others, k, tells, up0, reports);
      }
    }

    /** An event that a call returns, and that is in the set as nothing but an event, is down afterwards if
        it is automatic and up if it is manual, also when it was set or reset during the sleep. */
    lemma ReturnedEventFlag(table: EventTable, members: seq<Member>, view: SocketView, a: Answers,
                            others: seq<Operation>, k: KernelAnswer, tells: set<Handle>,
                            up: iset<Handle>, reports: ReportMap)
      requires Live(members)
      requires var h := WaitEnd(table, members, view, a, others, k, tells, up, reports).triggered;
               h in table && h != NULL_HANDLE && forall m | m in members && m.h == h :: m.Event?
      ensures var end := WaitEnd(table, members, view, a, others, k, tells, up, reports);
              end.triggered in end.up <==> table[end.triggered].eventType == MANUAL
    {
      var n := FirstReady(members, up, a);
      if n < |members| {
        assert members[n] in members;
      } else if k.Conditions? {
        var (p, up') := AfterOperations(table.Keys, tells, others, [], up);
        if p != [] {
          DrainedEventFlag(table, members, p, up', reports);
        } else {
          NoEventWithoutToken(members, view, a, k.of, up', reports);
        }
      }
    }

    lemma DrainedEventFlag(table: EventTable, members: seq<Member>, p: seq<Handle>, up: iset<Handle>,
                           reports: ReportMap)
      requires Live(members)
      requires var h := DrainEnd(table, members, p, up, reports).triggered;
               h in table && h != NULL_HANDLE && forall m | m in members && m.h == h :: m.Event?
      ensures var end := DrainEnd(table, members, p, up, reports);
              end.triggered in end.up <==> table[end.triggered].eventType == MANUAL
    {
      var i := DrainStopsAtFirst(p, EventList(members), up);
      LookupFindsMember(members, p[i]);
    }

    /** Without a token a call returns a descriptor's handle or a timer. */
    lemma NoEventWithoutToken(members: seq<Member>, view: SocketView, a: Answers, of: int -> set<PollBit>,
                              up: iset<Handle>, reports: ReportMap)
      ensures var h := ReportEnd(members, view, a, of, up, reports).triggered;
              h == NULL_HANDLE || exists m :: m in members && m.h == h && (m.Polled() || m.Timer?)
    {
      var polled := PolledMembers(members);
      var i := FirstReported(polled, view, a, of);
      if i < |polled| {
        SelectMembers(members, IsPolled, polled[i]);
      } else {
        var j := LeastTimerIsFirst(members, maxWait, a);
      }
    }

    /** Nothing but a polled descriptor makes a wait return a socket, and then its record has the report. */
    lemma ReturnedSocketReport(table: EventTable, members: seq<Member>, view: SocketView, a: Answers,
                               others: seq<Operation>, k: KernelAnswer, tells: set<Handle>,
                               up: iset<Handle>, reports: ReportMap)
      requires Live(members) && NULL_HANDLE !in view && reports.Keys == view.Keys
      requires forall m | m in members && m.h in view :: m.Socket?
      ensures var end := WaitEnd(table, members, view, a, others, k, tells, up, reports);
              end.triggered in view ==>
                k.Conditions? && end.triggered in end.reports &&
                KeepsReport(view[end.triggered], k.of, end.reports[end.triggered])
    {
      var n := FirstReady(members, up, a);
      if n < |members| {
        assert members[n] in members;
      } else if k.Conditions? {
        var (p, up') := AfterOperations(table.Keys, tells, others, [], up);
        if p != [] {
          DrainedIsNoSocket(members, p, up', view);
        } else {
          PolledSocketReport(members, view, a, k.of, up', reports);
        }
      }
    }

    lemma DrainedIsNoSocket(members: seq<Member>, p: seq<Handle>, up: iset<Handle>, view: SocketView)
      requires Live(members) && NULL_HANDLE !in view
      requires forall m | m in members && m.h in view :: m.Socket?
      ensures DrainSearch(p, EventList(members), up).triggered !in view
    {
      var i := DrainStopsAtFirst(p, EventList(members), up);
      if i < |p| {
        LookupFindsMember(members, p[i]);
      }
    }

    lemma PolledSocketReport(members: seq<Member>, view: SocketView, a: Answers, of: int -> set<PollBit>,
                             up: iset<Handle>, reports: ReportMap)
      requires NULL_HANDLE !in view && reports.Keys == view.Keys
      requires forall m | m in members && m.h in view :: m.Socket?
      ensures var end := ReportEnd(members, view, a, of, up, reports);
              end.triggered in view ==>
                end.triggered in end.reports && KeepsReport(view[end.triggered], of, end.reports[end.triggered])
    {
      var polled := PolledMembers(members);
      var i := FirstReported(polled, view, a, of);
      if i < |polled| {
        SelectMembers(members, IsPolled, polled[i]);
      } else {
        var j := LeastTimerIsFirst(members, maxWait, a);
      }
    }

    /** A wait on a set whose socket handles name sockets. */
    method WaitOnSockets(table: EventTable, sockets: SocketTable, a: Answers, others: seq<Operation>,
                         k: KernelAnswer) returns (triggered: Handle)
      requires ValidTable(table) && ValidSockets(sockets) && Live(handleQueue)
      requires NULL_HANDLE !in sockets && forall m | m in handleQueue && m.h in sockets :: m.Socket?
      modifies this`pipe, Targets(table)`pipe, table.Values`signalled, sockets.Values`revents
      ensures Ending(table, sockets, triggered) ==
              WaitEnd(table, handleQueue, old(View(sockets)), a, others, k, Tells(table),
                      old(Up(table)), old(Reports(sockets)))
      ensures triggered in sockets ==>
                k.Conditions? && KeepsReport(Request(sockets[triggered]), k.of, sockets[triggered].revents)
    {
      ghost var view, up, reports := View(sockets), Up(table), Reports(sockets);
      triggered := Wait(table, sockets, a, others, k);
      if triggered in sockets {
        ReturnedSocketReport(table, handleQueue, view, a, others, k, Tells(table), up, reports);
        assert view[triggered] == Request(sockets[triggered]);
        assert Reports(sockets)[triggered] == sockets[triggered].revents;
      }
    }

    /** A wait followed by the test of the socket that it returned, as the layers above do it: the test
        reports every enabled type whose bit the kernel reports, and besides only types that share a bit
        with an enabled one and the two that nobody has to ask for. */
    method WaitAndTest(table: EventTable, sockets: SocketTable, a: Answers, others: seq<Operation>, k: KernelAnswer,
                       ghost enabled: map<Handle, set<SocketEvent>>)
        returns (triggered: Handle, types: set<SocketEvent>)
      requires ValidTable(table) && ValidSockets(sockets) && Live(handleQueue)
      requires NULL_HANDLE !in sockets && forall m | m in handleQueue && m.h in sockets :: m.Socket?
      requires forall h | h in sockets :: h in enabled && StandFor(sockets[h].events, enabled[h])
      modifies this`pipe, Targets(table)`pipe, table.Values`signalled, sockets.Values`revents
      ensures Ending(table, sockets, triggered) ==
              WaitEnd(table, handleQueue, old(View(sockets)), a, others, k, Tells(table),
                      old(Up(table)), old(Reports(sockets)))
      ensures triggered in sockets ==>
                (forall e :: e in types <==>
                   BitOf(e) in sockets[triggered].revents || (e == CLOSE && sockets[triggered].remoteClosed)) &&
                (forall e | e in types :: Expected(e, enabled[triggered])) &&
                k.Conditions? && sockets[triggered].fd >= 0 &&
                forall e | e in enabled[triggered] && BitOf(e) in k.of(sockets[triggered].fd) :: e in types
    {
      triggered := WaitOnSockets(table, sockets, a, others, k);
      types := {};
      if triggered in sockets {
        types := TestKept(sockets[triggered], k.of, enabled[triggered]);
      }
    }
  }

  lemma QueueHasHandles(members: seq<Member>)
    requires Live(members)
    ensures forall x | x in EventList(members) :: x.hAssoc != NULL_HANDLE
  {
    forall x | x in EventList(members) ensures x.hAssoc != NULL_HANDLE {
      EventListElements(members, x);
    }
  }
}
