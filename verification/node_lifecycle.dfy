/**
 * Connections coming and going at a peer node: accepting and dialling, a
 * handler's own steps as the node sees them (its notices routed back to
 * `onHandlerStarted`, `onHandlerStopped` and `onLineReceived`), discovery
 * datagrams, and `shutdown`.
 */
module NodeLifecycle {
  import opened Wrappers
  import opened JavaInts
  import opened Seqs
  import opened Peers
  import opened Messages
  import opened Connection
  import Dir = Directory
  import Discovery
  import opened NodeState
  import opened NodeProtocol

  /**
   * `onHandlerStopped`: a handler that had been greeted leaves the connection map
   * under its peer id (whichever handler that entry names) and the UI hears of it;
   * the handler's remote key leaves the pending map. The peer table is kept.
   */
  function OnHandlerStopped(n: Node, j: nat): (r: (Node, seq<Event>))
    requires Valid(n) && j < |n.handlers|
    ensures Valid(r.0)
    ensures r.0.handlers == n.handlers && r.0.peers == n.peers && r.0.seen == n.seen
    ensures r.0.running == n.running && r.0.discovery == n.discovery && r.0.listening == n.listening
    ensures r.0.pending.entries == n.pending.entries - {RemoteKey(n.handlers[j])}
    ensures r.0.connections.entries
            == if n.handlers[j].peerInfo.Some? then n.connections.entries - {n.handlers[j].peerInfo.value.id.value}
               else n.connections.entries
    ensures r.1 == if n.handlers[j].peerInfo.Some? then [PeerDisconnected(n.handlers[j].peerInfo.value)] else []
  {
    var pending' := Dir.Remove(n.pending, RemoteKey(n.handlers[j]));
    match n.handlers[j].peerInfo
    case None => (n.(pending := pending'), [])
    case Some(p) =>
      (n.(connections := Dir.Remove(n.connections, p.id.GetOr("")), pending := pending'), [PeerDisconnected(p)])
  }

  /** The node's side of a handler's notices, in order. `parsed` is the parser's reading of a received line. */
  function Notify(n: Node, j: nat, notices: seq<Notice>, parsed: Decoded, env: Env): (r: (Node, seq<Event>))
    requires Valid(n) && j < |n.handlers|
    ensures Valid(r.0) && |r.0.handlers| == |n.handlers|
    decreases |notices|
  {
    if notices == [] then (n, [])
    else
      var (n1, e1) := match notices[0]
        case Started => (OnHandlerStarted(n, j, env), [])
        case Stopped => OnHandlerStopped(n, j)
        case LineReceived(_) => OnLineReceived(n, j, parsed, env);
      var (n2, e2) := Notify(n1, j, notices[1..], parsed, env);
      (n2, e1 + e2)
  }

  /** Handler `j` applies a step of its own, and the node reacts to what it reports. */
  function HandlerStep(n: Node, j: nat, step: (Handler, seq<Notice>), parsed: Decoded, env: Env): (r: (Node, seq<Event>))
    requires Valid(n) && j < |n.handlers|
    requires step.0.peerInfo == n.handlers[j].peerInfo
    ensures Valid(r.0) && |r.0.handlers| == |n.handlers|
  {
    Notify(WithHandler(n, j, step.0), j, step.1, parsed, env)
  }

  /** `handler.start()` for handler `j`; `streamsOk` is whether its socket streams open. */
  function StartHandler(n: Node, j: nat, streamsOk: bool, env: Env): (r: (Node, seq<Event>))
    requires Valid(n) && j < |n.handlers|
    ensures Valid(r.0) && |r.0.handlers| == |n.handlers|
  {
    HandlerStep(n, j, Start(n.handlers[j], streamsOk), NullMessage, env)
  }

  /** `handler.stop()` for handler `j`. */
  function StopHandler(n: Node, j: nat): (r: (Node, seq<Event>))
    requires Valid(n) && j < |n.handlers|
    ensures Valid(r.0) && |r.0.handlers| == |n.handlers|
    ensures r.0.peers == n.peers && r.0.running == n.running && r.0.listening == n.listening
    ensures r.0.discovery == n.discovery && r.0.seen == n.seen
    ensures r.0.handlers == n.handlers[j := Stop(n.handlers[j]).0]
    ensures !n.handlers[j].running ==> r.1 == [] && r.0.connections == n.connections && r.0.pending == n.pending
  {
    var (h', notices) := Stop(n.handlers[j]);
    var n1 := WithHandler(n, j, h');
    if notices == [] then (n1, []) else OnHandlerStopped(n1, j)
  }

  /** One iteration of handler `j`'s reader: a line (parsed as `parsed`), end of stream or an error. */
  function ReaderStep(n: Node, j: nat, result: ReadResult, parsed: Decoded, env: Env): (r: (Node, seq<Event>))
    requires Valid(n) && j < |n.handlers|
    ensures Valid(r.0) && |r.0.handlers| == |n.handlers|
  {
    HandlerStep(n, j, ReadStep(n.handlers[j], result), parsed, env)
  }

  /**
   * One iteration of handler `j`'s writer. A write step notifies at most `Stopped`,
   * and the stop path reads neither a parsed message nor the clock or fresh ids,
   * so fixed placeholder values stand for them.
   */
  function WriterStep(n: Node, j: nat, ok: bool): (r: (Node, seq<Event>))
    requires Valid(n) && j < |n.handlers|
    ensures Valid(r.0) && |r.0.handlers| == |n.handlers|
  {
    HandlerStep(n, j, WriteStep(n.handlers[j], ok), NullMessage, Env(0, "", ""))
  }

  /** The writer's step is the same whatever parse result, clock and ids are supplied. */
  lemma WriterStepIgnoresEnv(n: Node, j: nat, ok: bool, parsed: Decoded, env: Env)
    requires Valid(n) && j < |n.handlers|
    ensures WriterStep(n, j, ok) == HandlerStep(n, j, WriteStep(n.handlers[j], ok), parsed, env)
  {
    var (h', ns) := WriteStep(n.handlers[j], ok);
    if ns != [] {
      assert ns == [Stopped];
      var (n1, e1) := OnHandlerStopped(WithHandler(n, j, h'), j);
      assert ns[1..] == [];
      assert Notify(n1, j, ns[1..], parsed, env) == (n1, []);
      assert Notify(n1, j, ns[1..], NullMessage, Env(0, "", "")) == (n1, []);
      assert e1 + [] == e1;
    }
  }

  /**
   * The node hears of a handler's end exactly once: stopping a running greeted
   * handler reports its peer, and stopping it again reports nothing.
   */
  lemma StopDisconnectsOnce(n: Node, j: nat)
    requires Valid(n) && j < |n.handlers|
    ensures var (n1, e1) := StopHandler(n, j);
      && e1 == (if n.handlers[j].running && n.handlers[j].peerInfo.Some? then [PeerDisconnected(n.handlers[j].peerInfo.value)] else [])
      && StopHandler(n1, j).1 == []
  {
  }

  /**
   * A handler whose streams fail to open is never greeted: its queue stays as it
   * was, its remote key leaves the pending map, and the UI hears nothing.
   */
  lemma FailedStartNeverGreets(n: Node, j: nat, env: Env)
    requires Valid(n) && j < |n.handlers| && !n.handlers[j].running && n.handlers[j].peerInfo.None?
    ensures var (n', e) := StartHandler(n, j, false, env);
      && !n'.handlers[j].running && n'.handlers[j].queue == n.handlers[j].queue
      && RemoteKey(n.handlers[j]) !in n'.pending.entries && e == []
  {
    var (h', ns) := Start(n.handlers[j], false);
    assert ns == [Stopped];
    var n1 := WithHandler(n, j, h');
    var (n2, e2) := OnHandlerStopped(n1, j);
    assert ns[1..] == [];
    assert Notify(n2, j, ns[1..], NullMessage, env) == (n2, []);
    assert e2 + [] == e2;
  }

  /** The reader of a handler that no longer runs reads nothing, and nothing happens. */
  lemma StoppedReaderIsIdle(n: Node, j: nat, result: ReadResult, parsed: Decoded, env: Env)
    requires Valid(n) && j < |n.handlers| && !n.handlers[j].running
    ensures ReaderStep(n, j, result, parsed, env) == (n, [])
  {
    assert n.(handlers := n.handlers[j := n.handlers[j]]) == n;
  }

  /** A line read by a running handler goes to `onLineReceived` on that handler, and nothing else happens. */
  lemma ReaderForwardsLine(n: Node, j: nat, text: string, parsed: Decoded, env: Env)
    requires Valid(n) && j < |n.handlers| && n.handlers[j].running
    ensures ReaderStep(n, j, Line(text), parsed, env) == OnLineReceived(n, j, parsed, env)
  {
    var ns := [LineReceived(text)];
    assert n.(handlers := n.handlers[j := n.handlers[j]]) == n;
    var (n1, e1) := OnLineReceived(n, j, parsed, env);
    assert ns[1..] == [];
    assert Notify(n1, j, ns[1..], parsed, env) == (n1, []);
    assert e1 + [] == e1;
  }

  /** End of stream or a read error on a running handler is a stop of that handler. */
  lemma ReaderStopsAtEnd(n: Node, j: nat, result: ReadResult, parsed: Decoded, env: Env)
    requires Valid(n) && j < |n.handlers| && n.handlers[j].running && !result.Line?
    ensures ReaderStep(n, j, result, parsed, env) == StopHandler(n, j)
  {
    var (h', ns) := ReadStep(n.handlers[j], result);
    assert ns == [Stopped];
    var (n1, e1) := OnHandlerStopped(WithHandler(n, j, h'), j);
    assert ns[1..] == [];
    assert Notify(n1, j, ns[1..], parsed, env) == (n1, []);
    assert e1 + [] == e1;
  }

  /**
   * A handler started at the node whose streams open is greeted through
   * `onHandlerStarted`, and the UI hears nothing.
   */
  lemma StartHandlerGreets(n: Node, j: nat, env: Env)
    requires Valid(n) && j < |n.handlers| && !n.handlers[j].running && !n.handlers[j].closed
    ensures StartHandler(n, j, true, env)
            == (OnHandlerStarted(WithHandler(n, j, Start(n.handlers[j], true).0), j, env), [])
  {
    var (h1, ns) := Start(n.handlers[j], true);
    assert ns == [Started];
    var n1 := WithHandler(n, j, h1);
    var n2 := OnHandlerStarted(n1, j, env);
    assert ns[1..] == [];
    assert Notify(n2, j, ns[1..], NullMessage, env) == (n2, []);
    assert Notify(n1, j, ns, NullMessage, env) == (n2, [] + []);
    assert StartHandler(n, j, true, env) == Notify(n1, j, ns, NullMessage, env);
    var none: seq<Event> := [];
    assert none + none == none;
  }

  /** A new handler around a socket to `remote`, filed as pending under its remote address. */
  function AddPending(n: Node, remote: Endpoint): (r: (Node, nat))
    requires Valid(n)
    ensures Valid(r.0) && r.1 == |n.handlers| && r.0.handlers == n.handlers + [Connection.Create(Some(remote))]
    ensures r.0.pending.entries == n.pending.entries[remote.text := r.1]
    ensures r.0 == n.(handlers := r.0.handlers, pending := r.0.pending)
  {
    var j := |n.handlers|;
    (n.(handlers := n.handlers + [Connection.Create(Some(remote))], pending := Dir.Put(n.pending, remote.text, j)), j)
  }

  /**
   * One iteration of the accept loop: while the node runs and listens, an incoming
   * connection becomes a pending handler, whose start the I/O pool runs later.
   */
  function Accept(n: Node, remote: Endpoint): (r: (Node, Option<nat>))
    requires Valid(n)
    ensures Valid(r.0)
    ensures !(n.running && n.listening) ==> r == (n, None)
    ensures n.running && n.listening ==> r.1 == Some(|n.handlers|) && r.0 == AddPending(n, remote).0
  {
    if !(n.running && n.listening) then (n, None)
    else
      var (n1, j) := AddPending(n, remote);
      (n1, Some(j))
  }

  /** The accept loop ends on an I/O error; the UI hears of it only while the node runs. */
  function AcceptFailed(n: Node): (r: (Node, seq<Event>))
    requires Valid(n)
    ensures Valid(r.0) && !r.0.listening && r.0 == n.(listening := false)
    ensures r.1 == if n.running && n.listening then [Status(AcceptLoopEnded)] else []
  {
    if !n.listening then (n, [])
    else (n.(listening := false), if n.running then [Status(AcceptLoopEnded)] else [])
  }

  /** How an outbound connection attempt ends. */
  datatype ConnectResult = Refused | Connected(remote: Endpoint, streamsOk: bool)

  /**
   * The `connectAsync` task for a dial to `host:port`. An address the socket
   * address rejects (no host, or a number that is not a port) throws an unchecked
   * exception the task does not catch, and the task ends silently. A refused
   * connection is reported. A connection becomes a pending handler that is
   * started at once; the node then greets the peer a second time and reports the
   * connection, whether or not the handler started.
   */
  function Connect(n: Node, host: Option<string>, port: int32, result: ConnectResult, env: Env): (r: (Node, seq<Event>))
    requires Valid(n)
    ensures Valid(r.0) && |r.0.handlers| >= |n.handlers|
    ensures host.None? || !(0 <= port <= 65535) ==> r == (n, [])
    ensures host.Some? && 0 <= port <= 65535 && result.Refused? ==> r == (n, [Status(ConnectFailed)])
    ensures host.Some? && 0 <= port <= 65535 && result.Connected? ==>
              |r.0.handlers| == |n.handlers| + 1 && |r.1| >= 1 && r.1[|r.1| - 1] == Status(ConnectedTo(host.value, port))
  {
    if host.None? || !(0 <= port <= 65535) then (n, [])
    else
      match result
      case Refused => (n, [Status(ConnectFailed)])
      case Connected(remote, streamsOk) =>
        var (n1, e1) := Dialled(n, remote, streamsOk, env);
        (n1, e1 + [Status(ConnectedTo(host.value, port))])
  }

  /** A socket the dialling task opened: filed as pending, started, and greeted once more with `env.id2`. */
  function Dialled(n: Node, remote: Endpoint, streamsOk: bool, env: Env): (r: (Node, seq<Event>))
    requires Valid(n)
    ensures Valid(r.0) && |r.0.handlers| == |n.handlers| + 1
  {
    var (n1, j) := AddPending(n, remote);
    var (n2, e2) := StartHandler(n1, j, streamsOk, env);
    (SendHello(n2, j, env.(id1 := env.id2)), e2)
  }

  /**
   * An outbound connection whose streams open greets the peer twice: once from
   * `onHandlerStarted` and once more from the dialling task.
   */
  lemma OutboundDialSendsTwoHellos(n: Node, host: string, port: int32, remote: Endpoint, env: Env)
    requires Valid(n) && 0 <= port <= 65535
    ensures var (n', _) := Connect(n, Some(host), port, Connected(remote, true), env);
      var j := |n.handlers|;
      |n'.handlers| == j + 1 && |n'.handlers[j].queue| == 2
      && n'.handlers[j].queue[0] == Wire.Encode(Hello(env.id1, env.now, n.myId, n.myName, n.listenPort, KnownPeers(AddPending(n, remote).0)))
      && n'.handlers[j].queue[1] == Wire.Encode(Hello(env.id2, env.now, n.myId, n.myName, n.listenPort, KnownPeers(AddPending(n, remote).0)))
  {
    var (n1, j) := AddPending(n, remote);
    var (h1, ns) := Start(n1.handlers[j], true);
    assert ns == [Started];
    var n1' := WithHandler(n1, j, h1);
    assert Notify(n1', j, ns, NullMessage, env).0 == OnHandlerStarted(n1', j, env);
  }

  /**
   * A discovery datagram, through the node's discovery service, to the UI. The
   * node uses the corrected receive step, so a datagram that is not JSON is
   * skipped and discovery goes on.
   */
  function OnDatagram(n: Node, received: Discovery.Received): (r: (Node, seq<Event>))
    requires Valid(n)
    ensures Valid(r.0) && r.0 == n.(discovery := r.0.discovery)
    ensures n.discovery.None? ==> r == (n, [])
    ensures |r.1| <= 1
    ensures n.discovery.Some? ==> var s := n.discovery.value;
      && (r.1 != [] <==> s.receiving && s.running && received.Got? && received.d.payload.Parsed?
                         && Discovery.Accepts(s, received.d.payload.a))
      && (r.1 != [] ==> r.1 == [PeerDiscovered(Discovery.EventOf(received.d))])
      && (s.running && received.Got? && received.d.payload.BadJson? ==> r == (n, []))
  {
    match n.discovery
    case None => (n, [])
    case Some(s) =>
      var (s', found) := Discovery.Receive(s, received);
      (n.(discovery := Some(s')), if found.Some? then [PeerDiscovered(found.value)] else [])
  }

  /** `stop()` on each handler of a snapshot, in order. */
  function StopAll(n: Node, ids: seq<nat>): (r: (Node, seq<Event>))
    requires Valid(n) && forall i :: 0 <= i < |ids| ==> ids[i] < |n.handlers|
    ensures Valid(r.0) && |r.0.handlers| == |n.handlers|
    ensures r.0.peers == n.peers && r.0.running == n.running && r.0.listening == n.listening
    ensures r.0.discovery == n.discovery && r.0.seen == n.seen
    decreases |ids|
  {
    if ids == [] then (n, [])
    else
      var (n1, e1) := StopHandler(n, ids[0]);
      var (n2, e2) := StopAll(n1, ids[1..]);
      (n2, e1 + e2)
  }

  /** After stopping a snapshot, exactly the handlers that were running and not in it still run. */
  lemma {:induction false} StopAllStopsExactly(n: Node, ids: seq<nat>, i: nat)
    requires Valid(n) && forall k :: 0 <= k < |ids| ==> ids[k] < |n.handlers|
    requires i < |n.handlers|
    ensures StopAll(n, ids).0.handlers[i].running <==> n.handlers[i].running && i !in ids
    ensures StopAll(n, ids).0.handlers[i].queue == n.handlers[i].queue
    decreases |ids|
  {
    if ids != [] {
      var (n1, e1) := StopHandler(n, ids[0]);
      StopAllStopsExactly(n1, ids[1..], i);
      assert i in ids <==> i == ids[0] || i in ids[1..];
    }
  }

  /** Every handler index a map holds is a real handler, so a snapshot of its values can be stopped. */
  lemma SnapshotInRange(n: Node, d: Dir.Dir<nat>)
    requires Dir.Valid(d) && HandlersIn(d, |n.handlers|)
    ensures forall i :: 0 <= i < |Dir.Values(d)| ==> Dir.Values(d)[i] < |n.handlers|
  {
    forall i | 0 <= i < |Dir.Values(d)| ensures Dir.Values(d)[i] < |n.handlers| {
      assert d.order[i] in d.entries;
    }
  }

  /** The common start of `shutdown`: clear the flag, stop discovery, close the listening socket. */
  function CloseDown(n: Node): (n': Node)
    requires Valid(n)
    ensures Valid(n') && n'.handlers == n.handlers && n'.connections == n.connections && n'.pending == n.pending
  {
    n.(running := false, listening := false, discovery := None)
  }

  /**
   * `shutdown` as written. The pending snapshot is taken only after the
   * connected handlers have been stopped, and each of those stops removed its
   * remote key from the pending map, whichever handler was filed under it.
   */
  function ShutdownAsWritten(n: Node): (r: (Node, seq<Event>))
    requires Valid(n)
    ensures Valid(r.0) && !r.0.running
    ensures n.running ==> !r.0.listening && r.0.discovery.None?
    ensures r.0.peers == n.peers && |r.0.handlers| == |n.handlers|
    ensures !n.running ==> r == (n, [])
    ensures n.running ==> |r.1| >= 1 && r.1[|r.1| - 1] == Status(ShutDown)
  {
    if !n.running then (n, [])
    else
      var n0 := CloseDown(n);
      SnapshotInRange(n0, n0.connections);
      var (n1, e1) := StopAll(n0, Dir.Values(n0.connections));
      SnapshotInRange(n1, n1.pending);
      var (n2, e2) := StopAll(n1, Dir.Values(n1.pending));
      (n2, e1 + e2 + [Status(ShutDown)])
  }

  /**
   * `shutdown` as evidently intended: both snapshots are taken before any handler
   * is stopped, so every handler either map holds is stopped.
   */
  function Shutdown(n: Node): (r: (Node, seq<Event>))
    requires Valid(n)
    ensures Valid(r.0) && !r.0.running
    ensures n.running ==> !r.0.listening && r.0.discovery.None?
    ensures r.0.peers == n.peers && |r.0.handlers| == |n.handlers|
    ensures !n.running ==> r == (n, [])
    ensures n.running ==> |r.1| >= 1 && r.1[|r.1| - 1] == Status(ShutDown)
  {
    if !n.running then (n, [])
    else
      var n0 := CloseDown(n);
      var connected := Dir.Values(n0.connections);
      var pending := Dir.Values(n0.pending);
      SnapshotInRange(n0, n0.connections);
      SnapshotInRange(n0, n0.pending);
      var (n1, e1) := StopAll(n0, connected);
      var (n2, e2) := StopAll(n1, pending);
      (n2, e1 + e2 + [Status(ShutDown)])
  }

  /**
   * Shutdown stops every handler held in either map, stops nothing else, and
   * leaves every queue as it was.
   */
  lemma ShutdownStopsEveryHandler(n: Node, i: nat)
    requires Valid(n) && n.running && i < |n.handlers|
    ensures var n' := Shutdown(n).0;
      && (n'.handlers[i].running <==>
            n.handlers[i].running && i !in Dir.Values(n.connections) && i !in Dir.Values(n.pending))
      && n'.handlers[i].queue == n.handlers[i].queue
  {
    var n0 := CloseDown(n);
    var connected := Dir.Values(n0.connections);
    var pending := Dir.Values(n0.pending);
    SnapshotInRange(n0, n0.connections);
    SnapshotInRange(n0, n0.pending);
    var (n1, e1) := StopAll(n0, connected);
    StopAllStopsExactly(n0, connected, i);
    StopAllStopsExactly(n1, pending, i);
  }

  /** Shutting down twice is shutting down once. */
  lemma ShutdownIsIdempotent(n: Node)
    requires Valid(n)
    ensures Shutdown(Shutdown(n).0) == (Shutdown(n).0, [])
  {
  }

  /** Two handlers to the same remote address: one greeted and connected, one still pending. */
  function TwoDialsToOnePeer(): (n: Node)
    ensures Valid(n)
  {
    var remote := Endpoint("/10.0.0.2:5000", "10.0.0.2", 5000);
    var greeted := Connection.Create(Some(remote)).(running := true, peerInfo := Some(PeerInfo(Some("B"), Some("b"), Some("10.0.0.2"), 5000, 0)));
    var waiting := Connection.Create(Some(remote)).(running := true);
    var connections := Dir.Put(Dir.Empty(), "B", 0);
    var pending := Dir.Put(Dir.Empty(), "/10.0.0.2:5000", 1);
    Node("A", "a", 5000, true, 5000, true, [greeted, waiting], connections, Dir.Empty(), pending,
         LruSet.Lru(SEEN_CAPACITY, []), None)
  }

  /**
   * The discrepancy: stopping the connected handler removes the pending entry of
   * the other handler, which shares its remote key, before the pending snapshot
   * is taken. That handler is still running after `shutdown` as written; the
   * intended shutdown stops it.
   */
  lemma ShutdownMissesSharedKey()
    ensures ShutdownAsWritten(TwoDialsToOnePeer()).0.handlers[1].running
    ensures !Shutdown(TwoDialsToOnePeer()).0.handlers[1].running
  {
    var n := TwoDialsToOnePeer();
    assert Dir.Values(n.connections) == [0];
    assert Dir.Values(n.pending) == [1];
    var n0 := CloseDown(n);
    var (n1, e1) := StopAll(n0, [0]);
    assert n1.pending.entries == map[];
    assert Dir.Values(n1.pending) == [];
    ShutdownStopsEveryHandler(n, 1);
  }
}
