/** The handles a wait set can hold, sorted by how the wait treats them (src/waitset_android.c:245-402). */
module Members {
  import opened Filtering

  /** OFC_HANDLE; the null handle doubles as the wake token in the pipe. */
  type Handle = nat
  const NULL_HANDLE: Handle := 0

  /** One entry of a wait set's handle queue. hEvent is the event that the layers below attach to the
      handle; an Event is its own event. */
  datatype Member =
    | Event(h: Handle)
    | ResolverOverlapped(h: Handle, hEvent: Handle)
    | AndroidOverlapped(h: Handle, hEvent: Handle)
    | WaitQueue(h: Handle, hEvent: Handle)
    | SmbOverlapped(h: Handle, hEvent: Handle)
    | Socket(h: Handle)
    | AndroidFile(h: Handle)
    | Timer(h: Handle)
    | Unsynchronized(h: Handle)
  {
    /** Tested by the flag of an event. */
    predicate FlagTested() {
      Event? || ResolverOverlapped? || AndroidOverlapped?
    }

    /** Tested by whether a queue of messages is empty. */
    predicate QueueTested() {
      WaitQueue? || SmbOverlapped?
    }

    predicate EventLike() {
      FlagTested() || QueueTested()
    }

    predicate Polled() {
      Socket? || AndroidFile?
    }

    function Signal(): Handle {
      match this
      case ResolverOverlapped(_, e) => e
      case AndroidOverlapped(_, e) => e
      case WaitQueue(_, e) => e
      case SmbOverlapped(_, e) => e
      case _ => h
    }
  }

  /** The member waits for event e: an Event for itself, the four other kinds for the event attached. */
  predicate Carries(m: Member, e: Handle) {
    (m.Event? && m.h == e) ||
    ((m.ResolverOverlapped? || m.AndroidOverlapped? || m.WaitQueue? || m.SmbOverlapped?) && m.hEvent == e)
  }

  /** A non-blocking write of one handle to a pipe: all of it or, on a full pipe, nothing. */
  function Written(capacity: nat, pipe: seq<Handle>, h: Handle): seq<Handle> {
    if |pipe| < capacity then pipe + [h] else pipe
  }

  /** EVENT_ELEMENT: an event to recognise in the pipe and the handle to return for it. */
  datatype EventElement = EventElement(hEvent: Handle, hAssoc: Handle)

  predicate IsEventLike(m: Member) {
    m.EventLike()
  }

  function ElementOf(m: Member): EventElement {
    EventElement(m.Signal(), m.h)
  }

  /** The event queue that a scan over members builds when none of them is ready: one element for each
      event-like member, in queue order. */
  function EventList(members: seq<Member>): seq<EventElement> {
    var listed := Select(members, IsEventLike);
    seq(|listed|, i requires 0 <= i < |listed| => ElementOf(listed[i]))
  }

  /** The first element that carries event e, or the null handle. */
  function AssocOf(queue: seq<EventElement>, e: Handle): Handle {
    if queue == [] then NULL_HANDLE
    else if queue[0].hEvent == e then queue[0].hAssoc
    else AssocOf(queue[1..], e)
  }

  /** The first polled member, in queue order, whose descriptor is ready; null when there is none. */
  function FirstDescriptor(members: seq<Member>, ready: set<Handle>): Handle {
    if members == [] then NULL_HANDLE
    else if members[0].Polled() && members[0].h in ready then members[0].h
    else FirstDescriptor(members[1..], ready)
  }

  predicate Live(members: seq<Member>) {
    forall m | m in members :: m.h != NULL_HANDLE && m.Signal() != NULL_HANDLE
  }

  /** Passing one more member over adds its element at the end, if it has one. */
  lemma EventListNext(members: seq<Member>, i: nat)
    requires i < |members|
    ensures EventList(members[..i + 1]) ==
            if members[i].EventLike() then EventList(members[..i]) + [ElementOf(members[i])]
            else EventList(members[..i])
  {
    SelectNext(members, IsEventLike, i);
  }

  lemma EventListElements(members: seq<Member>, x: EventElement)
    ensures x in EventList(members) <==> exists m :: m in members && m.EventLike() && x == ElementOf(m)
  {
    var listed := Select(members, IsEventLike);
    if m :| m in members && m.EventLike() && x == ElementOf(m) {
      SelectMembers(members, IsEventLike, m);
      var i :| 0 <= i < |listed| && listed[i] == m;
      assert EventList(members)[i] == x;
    }
    if x in EventList(members) {
      var i :| 0 <= i < |listed| && x == ElementOf(listed[i]);
      SelectMembers(members, IsEventLike, listed[i]);
    }
  }

  /** The association of an event is that of the first element that carries it. */
  lemma {:induction false} AssocOfIsFirst(queue: seq<EventElement>, e: Handle) returns (i: nat)
    ensures i <= |queue| && forall j | 0 <= j < i :: queue[j].hEvent != e
    ensures if i < |queue| then queue[i] == EventElement(e, AssocOf(queue, e))
            else AssocOf(queue, e) == NULL_HANDLE
  {
    if queue == [] || queue[0].hEvent == e {
      i := 0;
    } else {
      i := AssocOfIsFirst(queue[1..], e);
      assert forall j | 0 < j < i + 1 :: queue[j] == queue[1..][j - 1];
      i := i + 1;
    }
  }

  /** Looking an event up in the queue built from live members finds a member with that event. */
  lemma LookupFindsMember(members: seq<Member>, e: Handle)
    requires Live(members)
    ensures AssocOf(EventList(members), e) != NULL_HANDLE <==>
            exists m :: m in members && m.EventLike() && m.Signal() == e
    ensures AssocOf(EventList(members), e) != NULL_HANDLE ==>
            exists m :: m in members && m.EventLike() && m.Signal() == e &&
                        m.h == AssocOf(EventList(members), e)
  {
    var queue := EventList(members);
    var i := AssocOfIsFirst(queue, e);
    if i < |queue| {
      EventListElements(members, queue[i]);
    }
    if m :| m in members && m.EventLike() && m.Signal() == e {
      EventListElements(members, ElementOf(m));
    }
  }

  /** The event of the first member that carries it is associated with that member. */
  lemma FirstCarrierIsAssoc(members: seq<Member>, e: Handle, i: nat)
    requires i < |members| && Carries(members[i], e) && forall j | 0 <= j < i :: !Carries(members[j], e)
    ensures AssocOf(EventList(members), e) == members[i].h
  {
    var queue := EventList(members);
    var k := AssocOfIsFirst(queue, e);
    assert forall j | 0 <= j < |queue| :: queue[j] == ElementOf(Select(members, IsEventLike)[j]);
    FirstOfSelection(members, IsEventLike, (m: Member) => m.Signal() == e, k, i);
  }

  /** The descriptor that poll is taken to report is that of the first ready polled member. */
  lemma {:induction false} FirstDescriptorIsFirst(members: seq<Member>, ready: set<Handle>) returns (i: nat)
    requires Live(members)
    ensures i <= |members|
    ensures forall j | 0 <= j < i :: !(members[j].Polled() && members[j].h in ready)
    ensures if i < |members| then members[i].Polled() && members[i].h in ready &&
                                  FirstDescriptor(members, ready) == members[i].h
            else FirstDescriptor(members, ready) == NULL_HANDLE
  {
    if members == [] || (members[0].Polled() && members[0].h in ready) {
      i := 0;
    } else {
      assert forall m | m in members[1..] :: m in members;
      i := FirstDescriptorIsFirst(members[1..], ready);
      assert forall j | 0 < j < i + 1 :: members[j] == members[1..][j - 1];
      i := i + 1;
    }
  }

  lemma FirstDescriptorIsMember(members: seq<Member>, ready: set<Handle>)
    requires Live(members)
    ensures var r := FirstDescriptor(members, ready);
            r != NULL_HANDLE ==> r in ready && exists m :: m in members && m.Polled() && m.h == r
  {
    var i := FirstDescriptorIsFirst(members, ready);
    assert i < |members| ==> members[i] in members;
  }
}
