/**
 * The state of a peer node (net/PeerNode.java) and the pieces every node
 * operation shares: what the node reports to its UI, the inputs that stand for
 * the clock and for fresh UUIDs, and the flood primitive `broadcast`.
 *
 * Handler objects are identified by their index in `handlers`; the three maps
 * hold such indices. Every handler ever created stays in `handlers`, so a stale
 * entry in a map still refers to a real handler, as a stale reference does in
 * PeerNode.
 */
module NodeState {
  import opened Wrappers
  import opened JavaInts
  import opened Seqs
  import opened LruSet
  import opened Peers
  import opened Messages
  import opened Wire
  import opened Connection
  import Dir = Directory
  import Discovery

  /** Capacity of the seen-message set. */
  const SEEN_CAPACITY: nat := 5000
  /** How many ports `start` probes, starting at the configured one. */
  const PORT_ATTEMPTS: int := 50
  /** At most this many dials per PEERSHARE. */
  const MAX_DIALS: nat := 3
  /** The name a HELLO without a sender name is filed under. */
  const DEFAULT_NAME: string := "peer"

  /** The status lines the node shows, one constructor per message text. */
  datatype StatusKind =
    | Listening(port: int32, id: string)
    | AcceptLoopEnded
    | ConnectedTo(host: string, port: int32)
    | ConnectFailed
    | ProcessingFailed
    | ShutDown

  /**
   * What the node hands to its UI callbacks, plus `Dial`, a `connectAsync`
   * request handed to the I/O pool. The UI is taken to be set; without one, the
   * UI events are simply not delivered.
   */
  datatype Event =
    | Status(kind: StatusKind)
    | PeerConnected(peer: PeerInfo)
    | PeerDisconnected(peer: PeerInfo)
    | MessageReceived(msg: Message)
    | PeerDiscovered(found: Discovery.Discovered)
    | Dial(host: Option<string>, port: int32)

  /** The clock reading and the fresh message ids (random UUIDs in PeerNode and Message) a step may use. */
  datatype Env = Env(now: int64, id1: string, id2: string)

  /**
   * The node: identity and configuration, the start/shutdown flag, the listening
   * socket, every handler, the three maps, the seen-id set and the discovery
   * service.
   */
  datatype Node = Node(
    myId: string,
    myName: string,
    configuredPort: int32,
    running: bool,
    listenPort: int32,
    listening: bool,
    handlers: seq<Handler>,
    connections: Dir.Dir<nat>,
    peers: Dir.Dir<PeerInfo>,
    pending: Dir.Dir<nat>,
    seen: Lru<string>,
    discovery: Option<Discovery.Service>)

  /** Every handler index a map holds is a real handler. */
  ghost predicate HandlersIn(d: Dir.Dir<nat>, count: nat) {
    forall k :: k in d.entries ==> d.entries[k] < count
  }

  /**
   * The invariant every operation keeps: the maps are well formed and refer to
   * real handlers, every handler's peer record has an id (it is only ever set
   * from a HELLO with a sender id), and the seen set has its fixed capacity.
   */
  ghost predicate Valid(n: Node) {
    && Dir.Valid(n.connections) && Dir.Valid(n.peers) && Dir.Valid(n.pending)
    && HandlersIn(n.connections, |n.handlers|) && HandlersIn(n.pending, |n.handlers|)
    && (forall i :: 0 <= i < |n.handlers| && n.handlers[i].peerInfo.Some? ==> n.handlers[i].peerInfo.value.id.Some?)
    && LruSet.Valid(n.seen) && n.seen.capacity == SEEN_CAPACITY
  }

  /** A node as the constructor leaves it: nothing open, nothing known. */
  function Create(myId: string, myName: string, port: int32): (n: Node)
    ensures Valid(n) && !n.running
  {
    Node(myId, myName, port, false, 0, false, [], Dir.Empty(), Dir.Empty(), Dir.Empty(),
         Lru(SEEN_CAPACITY, []), None)
  }

  /** The current peer table as a list, as HELLO and PEERSHARE carry it. */
  function KnownPeers(n: Node): (ps: seq<PeerInfo>)
    requires Valid(n)
    ensures |ps| == |n.peers.order|
  {
    Dir.Values(n.peers)
  }

  /** A handler after `c` sends of `m`: `c` copies at the tail of its queue if it runs, unchanged if not. */
  function SentCopies(h: Handler, m: Message, c: nat): (h': Handler) {
    if h.running then h.(queue := h.queue + Repeat(Encode(m), c)) else h
  }

  /** Sends of `m` to every handler in `targets`, in turn, skipping `except`. */
  function SendAll(hs: seq<Handler>, targets: seq<nat>, except: Option<nat>, m: Message): (r: seq<Handler>)
    requires forall i :: 0 <= i < |targets| ==> targets[i] < |hs|
    ensures |r| == |hs|
    decreases |targets|
  {
    if targets == [] then hs
    else
      var t := targets[0];
      var hs1 := if except == Some(t) then hs else hs[t := Send(hs[t], m)];
      SendAll(hs1, targets[1..], except, m)
  }

  /** One send followed by `c` more is `c + 1` copies. */
  lemma SendThenCopies(h: Handler, m: Message, c: nat)
    ensures SentCopies(Send(h, m), m, c) == SentCopies(h, m, c + 1)
  {
    if h.running {
      assert Repeat(Encode(m), c + 1) == [Encode(m)] + Repeat(Encode(m), c);
      assert h.queue + [Encode(m)] + Repeat(Encode(m), c) == h.queue + Repeat(Encode(m), c + 1);
    }
  }

  /**
   * The flood guarantee, handler by handler: each handler other than `except`
   * gets one copy for every time it occurs among the targets, and `except` gets
   * none. Nothing else about any handler changes.
   */
  lemma {:induction false} SendAllPerHandler(hs: seq<Handler>, targets: seq<nat>, except: Option<nat>, m: Message, j: nat)
    requires forall i :: 0 <= i < |targets| ==> targets[i] < |hs|
    requires j < |hs|
    ensures SendAll(hs, targets, except, m)[j]
            == SentCopies(hs[j], m, if except == Some(j) then 0 else Occurrences(targets, j))
    decreases |targets|
  {
    if targets == [] {
      assert Repeat(Encode(m), 0) == [];
      assert hs[j].queue + [] == hs[j].queue;
    } else {
      var t := targets[0];
      var hs1 := if except == Some(t) then hs else hs[t := Send(hs[t], m)];
      SendAllPerHandler(hs1, targets[1..], except, m, j);
      var rest := if except == Some(j) then 0 else Occurrences(targets[1..], j);
      if t == j && except != Some(j) {
        assert hs1[j] == Send(hs[j], m);
        SendThenCopies(hs[j], m, rest);
      } else {
        assert hs1[j] == hs[j];
      }
    }
  }

  /**
   * `broadcast(m, except)`: one send per value of `connectionsByPeerId` (a
   * snapshot, duplicates included), skipping the handler it arrived on.
   */
  function Broadcast(n: Node, m: Message, except: Option<nat>): (n': Node)
    requires Valid(n)
    ensures Valid(n')
    ensures |n'.handlers| == |n.handlers|
    ensures n' == n.(handlers := n'.handlers)
  {
    var targets := Dir.Values(n.connections);
    assert forall i :: 0 <= i < |targets| ==> targets[i] < |n.handlers| by {
      forall i | 0 <= i < |targets| ensures targets[i] < |n.handlers| {
        assert n.connections.order[i] in n.connections.entries;
      }
    }
    var hs := SendAll(n.handlers, targets, except, m);
    assert forall i :: 0 <= i < |hs| ==> hs[i].peerInfo == n.handlers[i].peerInfo by {
      forall i | 0 <= i < |hs| ensures hs[i].peerInfo == n.handlers[i].peerInfo {
        SendAllPerHandler(n.handlers, targets, except, m, i);
      }
    }
    n.(handlers := hs)
  }

  /**
   * Flood with exclusion: after `broadcast(m, except)` every handler holds one
   * more copy of `m` per peer id it is registered under, except the excluded
   * handler, which holds none; handlers that are not running receive nothing.
   */
  lemma BroadcastCopies(n: Node, m: Message, except: Option<nat>, j: nat)
    requires Valid(n) && j < |n.handlers|
    ensures Broadcast(n, m, except).handlers[j]
            == SentCopies(n.handlers[j], m,
                          if except == Some(j) then 0 else Occurrences(Dir.Values(n.connections), j))
  {
    var targets := Dir.Values(n.connections);
    assert forall i :: 0 <= i < |targets| ==> targets[i] < |n.handlers| by {
      forall i | 0 <= i < |targets| ensures targets[i] < |n.handlers| {
        assert n.connections.order[i] in n.connections.entries;
      }
    }
    SendAllPerHandler(n.handlers, targets, except, m, j);
  }

  /** No echo: the handler a message arrived on is never sent it back. */
  lemma NoEcho(n: Node, m: Message, from: nat)
    requires Valid(n) && from < |n.handlers|
    ensures Broadcast(n, m, Some(from)).handlers[from] == n.handlers[from]
  {
    BroadcastCopies(n, m, Some(from), from);
  }

  /** A running handler registered under a peer id, other than the excluded one, gets at least one copy. */
  lemma BroadcastReaches(n: Node, m: Message, except: Option<nat>, k: string)
    requires Valid(n) && k in n.connections.entries
    requires n.handlers[n.connections.entries[k]].running && except != Some(n.connections.entries[k])
    ensures var j := n.connections.entries[k];
      var q := Broadcast(n, m, except).handlers[j].queue;
      |q| > |n.handlers[j].queue| && q[|n.handlers[j].queue|] == Encode(m)
  {
    var j := n.connections.entries[k];
    BroadcastCopies(n, m, except, j);
    Dir.ValuesAreTheEntries(n.connections, j);
  }
}
