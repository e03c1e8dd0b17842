/**
 * LAN discovery (net/DiscoveryService.java): a periodic multicast announce of
 * this node's id, name and listening port, and a receiver that turns other nodes'
 * announces into discovery events. The sockets, the scheduler and the receive
 * thread are abstracted: the outcome of opening the multicast socket and each
 * received datagram are inputs.
 */
module Discovery {
  import opened Wrappers
  import opened JavaInts
  import opened Wire

  /** The multicast group and port every node announces on and listens to. */
  const GROUP: string := "230.0.0.1"
  const PORT: int32 := 4446
  /** Seconds between two announces. */
  const ANNOUNCE_PERIOD: nat := 3
  /** The type tag of an announce. */
  const DISCOVERY: string := "DISCOVERY"

  /** The announce record as parsed: its strings may be `null`, a missing port reads as 0. */
  datatype Announce = Announce(kind: Option<string>, id: Option<string>, name: Option<string>, port: int32)

  /**
   * The service. `running` is the start/shutdown flag; `socketOpen` is whether the
   * multicast socket is open (and so the announces are being sent); `receiving` is
   * whether the receive loop is still alive.
   */
  datatype Service = Service(
    myId: string,
    myName: string,
    myPort: int32,
    running: bool,
    socketOpen: bool,
    receiving: bool)

  /** A service that has not been started. */
  function Create(myId: string, myName: string, myPort: int32): (s: Service) {
    Service(myId, myName, myPort, false, false, false)
  }

  /**
   * `start`: a compare-and-set from stopped to running, then opening and joining
   * the multicast socket (`socketOk`). When that throws, the exception reaches the
   * caller (`r.1` is false) and the flag stays set: nothing is sent or received,
   * and a later `start` is a no-op.
   */
  function Start(s: Service, socketOk: bool): (r: (Service, bool))
    ensures s.running ==> r == (s, true)
    ensures r.0.running
    ensures !s.running ==> (r.1 <==> socketOk) && (r.0.socketOpen <==> socketOk) && (r.0.receiving <==> socketOk)
    ensures r.0.myId == s.myId && r.0.myName == s.myName && r.0.myPort == s.myPort
  {
    if s.running then (s, true)
    else (s.(running := true, socketOpen := socketOk, receiving := socketOk), socketOk)
  }

  /**
   * `shutdown`: a compare-and-set from running to stopped; the winner stops the
   * announces and closes the socket, which ends the receive loop.
   */
  function Shutdown(s: Service): (s': Service)
    ensures !s.running ==> s' == s
    ensures s.running ==> !s'.running && !s'.socketOpen && !s'.receiving
    ensures s'.myId == s.myId && s'.myName == s.myName && s'.myPort == s.myPort
  {
    if !s.running then s
    else s.(running := false, socketOpen := false, receiving := false)
  }

  /** The announce this node sends: the type tag, its own id, name and listening port. */
  function Payload(s: Service): (a: Announce)
    ensures a.kind == Some(DISCOVERY) && a.id == Some(s.myId) && a.name == Some(s.myName) && a.port == s.myPort
  {
    Announce(Some(DISCOVERY), Some(s.myId), Some(s.myName), s.myPort)
  }

  /**
   * The announce as the JSON text put in the datagram, fields in declaration
   * order. The service's serializer keeps HTML escaping on, so it also writes
   * `<`, `>`, `&`, `=` and `'` as `\u` escapes; the tree writer here leaves them
   * as they are, which changes nothing about the line safety stated.
   */
  function PayloadText(s: Service): (text: string)
    ensures LineSafe(text)
  {
    Write(JObject([("type", JString(DISCOVERY)), ("id", JString(s.myId)),
                   ("name", JString(s.myName)), ("port", JNumber(s.myPort))]))
  }

  /** One tick of the announce schedule: the datagram sent, if the socket is open. */
  function Tick(s: Service): (sent: Option<Announce>)
    ensures sent.Some? <==> s.socketOpen
    ensures sent.Some? ==> sent.value == Payload(s)
  {
    if s.socketOpen then Some(Payload(s)) else None
  }

  /** What the JSON parser makes of a datagram's text. */
  datatype ParsedAnnounce = BadJson | NullAnnounce | Parsed(a: Announce)

  /** A received datagram: its source host address and its parsed payload. */
  datatype Datagram = Datagram(source: string, payload: ParsedAnnounce)

  /** What one `receive` call yields: a datagram or an I/O error. */
  datatype Received = Got(d: Datagram) | ReceiveError

  /** What the listener hears: `onDiscovered(host, port, name, id)`. */
  datatype Discovered = Discovered(host: string, port: int32, name: Option<string>, id: Option<string>)

  /** The receive filter: an announce of the right type from another node. */
  predicate Accepts(s: Service, a: Announce) {
    a.kind == Some(DISCOVERY) && a.id != Some(s.myId)
  }

  /** The event an accepted datagram produces: the host is the datagram's source, the rest the payload's. */
  function EventOf(d: Datagram): (e: Discovered)
    requires d.payload.Parsed?
  {
    Discovered(d.source, d.payload.a.port, d.payload.a.name, d.payload.a.id)
  }

  /**
   * One iteration of the receive loop, as written. The loop runs while the flag is
   * set; an I/O error ends it. A datagram that is not valid JSON makes the parser
   * throw an unchecked exception that the loop does not catch, so the receive
   * thread dies and the service hears nothing more, though it still reports
   * itself running.
   */
  function ReceiveAsWritten(s: Service, r: Received): (out: (Service, Option<Discovered>))
    ensures out.1.Some? ==> s.receiving && s.running
    ensures r.Got? && r.d.payload.BadJson? ==> out == (s.(receiving := false), None)
    ensures out.0 == s.(receiving := out.0.receiving)
  {
    if !s.receiving then (s, None)
    else if !s.running then (s.(receiving := false), None)
    else
      match r
      case ReceiveError => (s.(receiving := false), None)
      case Got(d) =>
        match d.payload
        case BadJson => (s.(receiving := false), None)
        case NullAnnounce => (s, None)
        case Parsed(a) => if Accepts(s, a) then (s, Some(EventOf(d))) else (s, None)
  }

  /** The receive loop as evidently intended: a malformed datagram is skipped like a foreign one. */
  function Receive(s: Service, r: Received): (out: (Service, Option<Discovered>))
    ensures out.1.Some? <==> s.receiving && s.running && r.Got? && r.d.payload.Parsed? && Accepts(s, r.d.payload.a)
    ensures out.1.Some? ==> out.1.value == EventOf(r.d)
    ensures out.0.receiving <==> s.receiving && s.running && r.Got?
    ensures out.0 == s.(receiving := out.0.receiving)
  {
    if !s.receiving then (s, None)
    else if !s.running then (s.(receiving := false), None)
    else
      match r
      case ReceiveError => (s.(receiving := false), None)
      case Got(d) =>
        match d.payload
        case BadJson => (s, None)
        case NullAnnounce => (s, None)
        case Parsed(a) => if Accepts(s, a) then (s, Some(EventOf(d))) else (s, None)
  }

  /** The two loops agree on every datagram that parses, and on I/O errors. */
  lemma ReceiveAgreesExceptOnBadJson(s: Service, r: Received)
    requires !(r.Got? && r.d.payload.BadJson?)
    ensures ReceiveAsWritten(s, r) == Receive(s, r)
  {
  }

  /**
   * The discrepancy: one datagram the parser rejects (the text "hello", which is
   * not JSON, or "[]", which is JSON but not an object) ends discovery for good as
   * written, while the corrected loop keeps listening and still reports the next
   * announce.
   */
  lemma BadDatagramEndsDiscovery(s: Service, host: string, next: Datagram)
    requires s.running && s.receiving
    requires next.payload.Parsed? && Accepts(s, next.payload.a)
    ensures var (s1, e1) := ReceiveAsWritten(s, Got(Datagram(host, BadJson)));
      e1 == None && !s1.receiving && s1.running && ReceiveAsWritten(s1, Got(next)).1 == None
    ensures var (s1, e1) := Receive(s, Got(Datagram(host, BadJson)));
      e1 == None && s1.receiving && Receive(s1, Got(next)).1 == Some(EventOf(next))
  {
  }

  /** The receive loop fed a series of datagrams, with every event in order. */
  function ReceiveAll(s: Service, ds: seq<Datagram>): (r: (Service, seq<Discovered>))
    decreases |ds|
  {
    if ds == [] then (s, [])
    else
      var (s1, e1) := Receive(s, Got(ds[0]));
      var (s2, e2) := ReceiveAll(s1, ds[1..]);
      (s2, (if e1.Some? then [e1.value] else []) + e2)
  }

  /** The events a series of datagrams should produce: one per accepted datagram, repeats included. */
  function Discoveries(myId: string, ds: seq<Datagram>): (es: seq<Discovered>) {
    if ds == [] then []
    else
      var d := ds[0];
      (if d.payload.Parsed? && d.payload.a.kind == Some(DISCOVERY) && d.payload.a.id != Some(myId)
       then [EventOf(d)] else [])
      + Discoveries(myId, ds[1..])
  }

  /**
   * A live receiver reports exactly one event per accepted datagram, in arrival
   * order, with no deduplication, and keeps receiving.
   */
  lemma {:induction false} ReceiveAllReportsEveryAnnounce(s: Service, ds: seq<Datagram>)
    requires s.running && s.receiving
    ensures ReceiveAll(s, ds).1 == Discoveries(s.myId, ds)
    ensures ReceiveAll(s, ds).0 == s
    decreases |ds|
  {
    if ds != [] {
      ReceiveAllReportsEveryAnnounce(s, ds[1..]);
    }
  }

  /** A repeated announce is reported every time it arrives. */
  lemma RepeatsAreReported(s: Service, d: Datagram)
    requires s.running && s.receiving && d.payload.Parsed? && Accepts(s, d.payload.a)
    ensures ReceiveAll(s, [d, d]).1 == [EventOf(d), EventOf(d)]
  {
    ReceiveAllReportsEveryAnnounce(s, [d, d]);
    assert [d, d][1..] == [d];
    assert Discoveries(s.myId, [d]) == [EventOf(d)];
  }

  /**
   * Two nodes on the group: another node's announce, parsed back, is reported with
   * its source host, its listening port, name and id; a node's own announce, which
   * multicast loops back to it, is ignored.
   */
  lemma AnnounceIsDiscovered(me: Service, other: Service, host: string)
    requires me.running && me.receiving && other.myId != me.myId
    ensures Receive(me, Got(Datagram(host, Parsed(Payload(other))))).1
            == Some(Discovered(host, other.myPort, Some(other.myName), Some(other.myId)))
    ensures Receive(me, Got(Datagram(host, Parsed(Payload(me))))).1 == None
  {
  }

  /** Starting twice is starting once, and so is shutting down twice. */
  lemma GuardsAreIdempotent(s: Service, ok1: bool, ok2: bool)
    ensures Start(Start(s, ok1).0, ok2).0 == Start(s, ok1).0
    ensures Shutdown(Shutdown(s)) == Shutdown(s)
  {
  }

  /** A start whose socket fails leaves a service that a later start cannot repair; a shutdown can. */
  lemma FailedStartBlocksRestart(s: Service)
    requires !s.running
    ensures var (s1, ok1) := Start(s, false);
      !ok1 && s1.running && !s1.socketOpen && Start(s1, true).0 == s1
      && Start(Shutdown(s1), true).0.socketOpen
  {
  }
}
