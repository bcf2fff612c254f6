/** Socket event masks (src/socket_android.c:643-748). A mask is the set of its bits, so the model
    holds for any values of the constants that give each its own bit. */
module SocketEvents {

  datatype SocketEvent = CLOSE | ACCEPT | ADDRESSCHANGE | QOS | READ | WRITE
  datatype PollBit = POLLIN | POLLPRI | POLLOUT | POLLERR | POLLHUP | POLLNVAL

  /** The bits that poll reports whether or not they were requested. */
  const ALWAYS_REPORTED: set<PollBit> := {POLLERR, POLLHUP, POLLNVAL}

  /** The poll bit that stands for an event type. */
  function BitOf(e: SocketEvent): PollBit {
    match e
    case CLOSE => POLLHUP
    case ACCEPT => POLLIN
    case ADDRESSCHANGE => POLLERR
    case QOS => POLLPRI
    case READ => POLLIN
    case WRITE => POLLOUT
  }

  /** The bits are exactly those that stand for the types. */
  ghost predicate StandFor(bits: set<PollBit>, types: set<SocketEvent>) {
    forall b :: b in bits <==> exists e :: e in types && BitOf(e) == b
  }

  /** The type shares its bit with one of the types, or nobody has to ask for it. */
  ghost predicate Expected(e: SocketEvent, types: set<SocketEvent>) {
    e == CLOSE || e == ADDRESSCHANGE || exists e' :: e' in types && BitOf(e') == BitOf(e)
  }

  /** OFC_SOCKET_IMPL as far as events go. */
  class SocketImpl {
    const fd: int
    var events: set<PollBit>
    var revents: set<PollBit>
    var remoteClosed: bool

    constructor (fd: int)
      ensures this.fd == fd && events == {} && revents == {} && !remoteClosed
    {
      this.fd := fd;
      events := {};
      revents := {};
      remoteClosed := false;
    }

    /** ofc_socket_impl_enable: asks for exactly the bits that stand for the given types. */
    method Enable(types: set<SocketEvent>)
      modifies this`events
      ensures StandFor(events, types)
      ensures POLLIN in events <==> ACCEPT in types || READ in types
      ensures POLLOUT in events <==> WRITE in types
      ensures POLLPRI in events <==> QOS in types
      ensures POLLHUP in events <==> CLOSE in types
      ensures POLLERR in events <==> ADDRESSCHANGE in types
      ensures forall r: set<PollBit> :: events <= r <==> forall e | e in types :: BitOf(e) in r
    {
      var eventTest: set<PollBit> := {};
      if CLOSE in types { eventTest := eventTest + {POLLHUP}; }
      if ACCEPT in types { eventTest := eventTest + {POLLIN}; }
      if ADDRESSCHANGE in types { eventTest := eventTest + {POLLERR}; }
      if QOS in types { eventTest := eventTest + {POLLPRI}; }
      if READ in types { eventTest := eventTest + {POLLIN}; }
      if WRITE in types { eventTest := eventTest + {POLLOUT}; }
      events := eventTest;
      BitsAreExact(types, eventTest);
    }

    /** ofc_socket_impl_test: reports every type whose bit was returned, and a close by the peer. */
    method Test() returns (types: set<SocketEvent>)
      ensures forall e :: e in types <==> BitOf(e) in revents || (e == CLOSE && remoteClosed)
      ensures POLLIN in revents <==> ACCEPT in types
      ensures ACCEPT in types <==> READ in types
      ensures POLLOUT in revents <==> WRITE in types
      ensures POLLPRI in revents <==> QOS in types
      ensures POLLERR in revents <==> ADDRESSCHANGE in types
    {
      types := {};
      if remoteClosed { types := types + {CLOSE}; }
      if POLLHUP in revents { types := types + {CLOSE}; }
      if POLLIN in revents { types := types + {ACCEPT, READ}; }
      if POLLERR in revents { types := types + {ADDRESSCHANGE}; }
      if POLLPRI in revents { types := types + {QOS}; }
      if POLLOUT in revents { types := types + {WRITE}; }
    }

    method SetEvent(revents: set<PollBit>)
      modifies this`revents
      ensures this.revents == revents
    {
      this.revents := revents;
    }

    method GetEvent() returns (events: set<PollBit>)
      ensures events == this.events
    {
      events := this.events;
    }
  }

  /** What Enable accumulates is the image of the types under BitOf. */
  lemma BitsAreExact(types: set<SocketEvent>, bits: set<PollBit>)
    requires POLLHUP in bits <==> CLOSE in types
    requires POLLIN in bits <==> ACCEPT in types || READ in types
    requires POLLERR in bits <==> ADDRESSCHANGE in types
    requires POLLPRI in bits <==> QOS in types
    requires POLLOUT in bits <==> WRITE in types
    requires POLLNVAL !in bits
    ensures StandFor(bits, types)
    ensures forall r: set<PollBit> :: bits <= r <==> forall e | e in types :: BitOf(e) in r
  {
    forall b ensures b in bits <==> exists e :: e in types && BitOf(e) == b {
      match b
      case POLLHUP => assert BitOf(CLOSE) == b;
      case POLLIN => assert BitOf(ACCEPT) == b && BitOf(READ) == b;
      case POLLERR => assert BitOf(ADDRESSCHANGE) == b;
      case POLLPRI => assert BitOf(QOS) == b;
      case POLLOUT => assert BitOf(WRITE) == b;
      case POLLNVAL =>
    }
  }

  /** The two translations meet: what Enable asks for lies within the returned bits exactly when Test
      reports every enabled type, except that a close seen on receive is reported without its bit. */
  method EnableMeetsTest(sock: SocketImpl, types: set<SocketEvent>, r: set<PollBit>)
      returns (reported: set<SocketEvent>)
    modifies sock
    ensures sock.remoteClosed == old(sock.remoteClosed) && sock.revents == r
    ensures types <= reported <==>
            (forall e | e in types && !(e == CLOSE && sock.remoteClosed) :: BitOf(e) in r)
    ensures !sock.remoteClosed ==> (sock.events <= r <==> types <= reported)
  {
    sock.Enable(types);
    sock.SetEvent(r);
    reported := sock.Test();
  }

  /** What poll may report for a request. */
  predicate PollMayReport(requested: set<PollBit>, reported: set<PollBit>) {
    reported <= requested + ALWAYS_REPORTED
  }

  /** A type whose bit poll may report shares that bit with an enabled type or need not be asked for. */
  lemma ReportedIsExpected(requested: set<PollBit>, types: set<SocketEvent>, reported: set<PollBit>, e: SocketEvent)
    requires StandFor(requested, types) && PollMayReport(requested, reported) && BitOf(e) in reported
    ensures Expected(e, types)
  {
    assert BitOf(e) in requested || BitOf(e) in ALWAYS_REPORTED;
  }

  /** Once a poll has left its report in the record, Test reports the types of the returned bits, all of them
      expected. */
  method TestReport(sock: SocketImpl, ghost types: set<SocketEvent>) returns (reported: set<SocketEvent>)
    requires StandFor(sock.events, types) && PollMayReport(sock.events, sock.revents)
    ensures forall e :: e in reported <==> BitOf(e) in sock.revents || (e == CLOSE && sock.remoteClosed)
    ensures forall e | e in reported :: Expected(e, types)
  {
    reported := sock.Test();
    forall e | e in reported ensures Expected(e, types) {
      if BitOf(e) in sock.revents {
        ReportedIsExpected(sock.events, types, sock.revents, e);
      }
    }
  }

  /** After a poll on the bits that Enable asked for, Test reports only types that share a bit with an
      enabled one, and CLOSE and ADDRESSCHANGE, which nobody has to ask for. */
  method TestAfterPoll(sock: SocketImpl, types: set<SocketEvent>, r: set<PollBit>)
      returns (reported: set<SocketEvent>)
    requires StandFor(sock.events, types)
    requires PollMayReport(sock.events, r)
    modifies sock`revents
    ensures forall e | e in reported :: Expected(e, types)
    ensures forall e | e in reported && BitOf(e) in r :: forall e' | BitOf(e') == BitOf(e) :: e' in reported
  {
    sock.SetEvent(r);
    reported := TestReport(sock, types);
  }
}
