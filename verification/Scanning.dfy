/** What a scan and a drain compute, as functions of the handle queue, the pipe and the flags. The
    methods of WaitSets are proved against these, and SoloWait ties them to the step machine. */
module Scanning {
  import opened Filtering
  import opened Members

  /** What the layers below answer about the members during one scan. */
  datatype Answers = Answers(nonEmpty: Handle -> bool, waitTime: Handle -> nat, fd: Handle -> int)

  /** Whether the scan returns the member on sight. */
  ghost predicate ReadyOnSight(m: Member, up: iset<Handle>, a: Answers) {
    match m
    case Event(h) => h in up
    case ResolverOverlapped(_, e) => e in up
    case AndroidOverlapped(_, e) => e in up
    case WaitQueue(h, _) => a.nonEmpty(h)
    case SmbOverlapped(h, _) => a.nonEmpty(h)
    case Timer(h) => a.waitTime(h) == 0
    case _ => false
  }

  /** The place of the first ready member in queue order, or the length of the queue. */
  ghost function FirstReady(members: seq<Member>, up: iset<Handle>, a: Answers): (n: nat)
    ensures n <= |members|
    ensures forall j | 0 <= j < n :: !ReadyOnSight(members[j], up, a)
    ensures n < |members| ==> ReadyOnSight(members[n], up, a)
  {
    if members == [] then 0
    else if ReadyOnSight(members[0], up, a) then 0
    else
      assert forall j | 0 < j < |members| :: members[j] == members[1..][j - 1];
      1 + FirstReady(members[1..], up, a)
  }

  /** The shortest of the timers' waits, capped. */
  function LeastWait(members: seq<Member>, cap: nat, a: Answers): (w: nat)
    ensures w <= cap
    ensures forall m | m in members && m.Timer? :: w <= a.waitTime(m.h)
    ensures w == cap || exists m :: m in members && m.Timer? && a.waitTime(m.h) == w
  {
    if members == [] then cap
    else
      var w := LeastWait(members[..|members| - 1], cap, a);
      var m := members[|members| - 1];
      assert members == members[..|members| - 1] + [m];
      if m.Timer? && a.waitTime(m.h) < w then a.waitTime(m.h) else w
  }

  /** The handle kept along with the shortest wait. */
  function LeastTimer(members: seq<Member>, cap: nat, a: Answers): Handle {
    if members == [] then NULL_HANDLE
    else
      var front, m := members[..|members| - 1], members[|members| - 1];
      if m.Timer? && a.waitTime(m.h) < LeastWait(front, cap, a) then m.h else LeastTimer(front, cap, a)
  }

  /** Passing one more member over shortens the wait only for a sooner timer. */
  lemma LeastNext(members: seq<Member>, i: nat, cap: nat, a: Answers)
    requires i < |members|
    ensures var m, w := members[i], LeastWait(members[..i], cap, a);
            if m.Timer? && a.waitTime(m.h) < w then
              LeastWait(members[..i + 1], cap, a) == a.waitTime(m.h) && LeastTimer(members[..i + 1], cap, a) == m.h
            else
              LeastWait(members[..i + 1], cap, a) == w &&
              LeastTimer(members[..i + 1], cap, a) == LeastTimer(members[..i], cap, a)
  {
    assert members[..i + 1][..i] == members[..i];
  }

  /** It is the first timer that attains the shortest wait, and null when none is below the cap. */
  lemma {:induction false} LeastTimerIsFirst(members: seq<Member>, cap: nat, a: Answers) returns (i: nat)
    ensures var least, timer := LeastWait(members, cap, a), LeastTimer(members, cap, a);
            if least == cap then timer == NULL_HANDLE
            else i < |members| && members[i] == Timer(timer) && a.waitTime(timer) == least &&
                 forall j | 0 <= j < i && members[j].Timer? :: a.waitTime(members[j].h) > least
    decreases |members|
  {
    i := 0;
    if members != [] {
      var front, m := members[..|members| - 1], members[|members| - 1];
      i := LeastTimerIsFirst(front, cap, a);
      if m.Timer? && a.waitTime(m.h) < LeastWait(front, cap, a) {
        i := |front|;
        assert forall j | 0 <= j < i :: members[j] == front[j] && members[j] in front;
      } else {
        assert forall j | 0 <= j < i && j < |front| :: members[j] == front[j];
      }
    }
  }

  predicate IsPolled(m: Member) {
    m.Polled()
  }

  /** The members that get a pollfd entry, in queue order. */
  function PolledMembers(members: seq<Member>): seq<Member> {
    Select(members, IsPolled)
  }

  /** What a scan gathers for the poll: the event queue and the poll list each hold exactly the members
      of their kind, in queue order. */
  lemma GatheredPlaces(members: seq<Member>) returns (listed: seq<nat>, polled: seq<nat>)
    ensures PlacesOf(members, IsPolled, PolledMembers(members), polled)
    ensures |listed| == |EventList(members)|
    ensures forall i | 0 <= i < |listed| ::
              listed[i] < |members| && EventList(members)[i] == ElementOf(members[listed[i]])
    ensures forall i, j | 0 <= i < j < |listed| :: listed[i] < listed[j]
    ensures forall k | 0 <= k < |members| :: k in listed <==> members[k].EventLike()
  {
    polled := SelectPlaces(members, IsPolled);
    listed := SelectPlaces(members, IsEventLike);
  }

  // ---- The drain ----

  /** What a drain leaves: the handle to return, the event it took, and the tokens not read. */
  datatype Drained = Drained(triggered: Handle, event: Handle, rest: seq<Handle>)

  /** The token names a listed event whose flag is up. */
  ghost predicate Triggers(queue: seq<EventElement>, up: iset<Handle>, token: Handle) {
    token != NULL_HANDLE && AssocOf(queue, token) != NULL_HANDLE && token in up
  }

  ghost function DrainSearch(tokens: seq<Handle>, queue: seq<EventElement>, up: iset<Handle>): Drained {
    if tokens == [] then Drained(NULL_HANDLE, NULL_HANDLE, [])
    else if tokens[0] == NULL_HANDLE then Drained(NULL_HANDLE, NULL_HANDLE, tokens[1..])
    else if Triggers(queue, up, tokens[0]) then
      Drained(AssocOf(queue, tokens[0]), tokens[0], tokens[1..])
    else DrainSearch(tokens[1..], queue, up)
  }

  /** The drain stops at the first wake or triggering token, having dropped stale tokens before it and
      leaving all later ones in order; it returns a handle exactly when a triggering token comes first. */
  lemma {:induction false} DrainStopsAtFirst(tokens: seq<Handle>, queue: seq<EventElement>, up: iset<Handle>)
      returns (i: nat)
    ensures i <= |tokens|
    ensures forall j | 0 <= j < i :: tokens[j] != NULL_HANDLE && !Triggers(queue, up, tokens[j])
    ensures i < |tokens| ==> tokens[i] == NULL_HANDLE || Triggers(queue, up, tokens[i])
    ensures var d := DrainSearch(tokens, queue, up);
            if i == |tokens| then d == Drained(NULL_HANDLE, NULL_HANDLE, [])
            else d.rest == tokens[i + 1..] && d.event == tokens[i] &&
                 d.triggered == (if tokens[i] == NULL_HANDLE then NULL_HANDLE else AssocOf(queue, tokens[i]))
  {
    if tokens == [] || tokens[0] == NULL_HANDLE || Triggers(queue, up, tokens[0]) {
      i := 0;
    } else {
      var k := DrainStopsAtFirst(tokens[1..], queue, up);
      i := k + 1;
      assert forall j | 0 < j <= k :: tokens[j] == tokens[1..][j - 1];
    }
  }
}
