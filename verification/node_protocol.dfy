/**
 * The node's protocol handlers (PeerNode.onLineReceived and the methods it
 * dispatches to), `broadcastChat` and `onHandlerStarted`. Each takes the node,
 * the index of the handler involved and the clock and fresh ids it may need, and
 * returns the new node and the events for the UI and the I/O pool, in order.
 */
module NodeProtocol {
  import opened Wrappers
  import opened JavaInts
  import opened Seqs
  import LruSet
  import opened Peers
  import opened Messages
  import opened Connection
  import Dir = Directory
  import opened NodeState

  /** Replaces handler `j`; the maps and everything else stay. */
  function WithHandler(n: Node, j: nat, h: Handler): (n': Node)
    requires Valid(n) && j < |n.handlers|
    requires h.peerInfo.Some? ==> h.peerInfo.value.id.Some?
    ensures Valid(n')
    ensures n' == n.(handlers := n.handlers[j := h])
  {
    n.(handlers := n.handlers[j := h])
  }

  /** `handler.send(m)` on handler `j`. */
  function SendTo(n: Node, j: nat, m: Message): (n': Node)
    requires Valid(n) && j < |n.handlers|
    ensures Valid(n')
    ensures n' == n.(handlers := n.handlers[j := Send(n.handlers[j], m)])
  {
    WithHandler(n, j, Send(n.handlers[j], m))
  }

  /** `sendHello`: a HELLO carrying the current peer table. */
  function SendHello(n: Node, j: nat, env: Env): (n': Node)
    requires Valid(n) && j < |n.handlers|
    ensures Valid(n')
  {
    SendTo(n, j, Hello(env.id1, env.now, n.myId, n.myName, n.listenPort, KnownPeers(n)))
  }

  /** `onHandlerStarted`: greet the peer, whichever side opened the connection. */
  function OnHandlerStarted(n: Node, j: nat, env: Env): (n': Node)
    requires Valid(n) && j < |n.handlers|
    ensures Valid(n') && |n'.handlers| == |n.handlers|
    ensures n'.handlers[j].queue
            == if n.handlers[j].running
               then n.handlers[j].queue + [Wire.Encode(Hello(env.id1, env.now, n.myId, n.myName, n.listenPort, KnownPeers(n)))]
               else n.handlers[j].queue
    ensures n' == n.(handlers := n'.handlers)
    ensures forall i :: 0 <= i < |n.handlers| && i != j ==> n'.handlers[i] == n.handlers[i]
  {
    SendHello(n, j, env)
  }

  /** A peer-list entry the node adopts: present, with an id, and not the node itself. */
  predicate Eligible(myId: string, e: Option<PeerInfo>) {
    e.Some? && e.value.id.Some? && e.value.id.value != myId
  }

  /** The HELLO merge loop: every eligible entry overwrites the table entry for its id, in list order. */
  function Merge(peers: Dir.Dir<PeerInfo>, ps: seq<Option<PeerInfo>>, myId: string): (r: Dir.Dir<PeerInfo>)
    requires Dir.Valid(peers)
    ensures Dir.Valid(r)
    decreases |ps|
  {
    if ps == [] then peers
    else if !Eligible(myId, ps[0]) then Merge(peers, ps[1..], myId)
    else Merge(Dir.Put(peers, ps[0].value.id.value, ps[0].value), ps[1..], myId)
  }

  /** Reference for the merge: the last eligible entry of the list with id `k`, if any. */
  function Latest(ps: seq<Option<PeerInfo>>, myId: string, k: string): (r: Option<PeerInfo>)
    ensures r.Some? ==> r.value.id == Some(k) && k != myId
    decreases |ps|
  {
    if ps == [] then None
    else
      var later := Latest(ps[1..], myId, k);
      if later.Some? then later
      else if Eligible(myId, ps[0]) && ps[0].value.id == Some(k) then ps[0]
      else None
  }

  /**
   * What the merge leaves under each id: the last eligible entry the list carries
   * for it, or else what the table held before. Entries without an id and the
   * node's own entry are never adopted.
   */
  lemma {:induction false} MergeLookup(peers: Dir.Dir<PeerInfo>, ps: seq<Option<PeerInfo>>, myId: string, k: string)
    requires Dir.Valid(peers)
    ensures var r := Merge(peers, ps, myId).entries; var l := Latest(ps, myId, k);
      && (k in r <==> k in peers.entries || l.Some?)
      && (k in r ==> r[k] == if l.Some? then l.value else peers.entries[k])
    decreases |ps|
  {
    if ps != [] {
      if !Eligible(myId, ps[0]) {
        MergeLookup(peers, ps[1..], myId, k);
      } else {
        MergeLookup(Dir.Put(peers, ps[0].value.id.value, ps[0].value), ps[1..], myId, k);
      }
    }
  }

  /** The node never files a peer-list entry under its own id. */
  lemma MergeNeverAdoptsSelf(peers: Dir.Dir<PeerInfo>, ps: seq<Option<PeerInfo>>, myId: string)
    requires Dir.Valid(peers)
    ensures myId in Merge(peers, ps, myId).entries <==> myId in peers.entries
    ensures myId in peers.entries ==> Merge(peers, ps, myId).entries[myId] == peers.entries[myId]
  {
    MergeLookup(peers, ps, myId, myId);
  }

  /** The record a HELLO with sender id `from` tags its handler with. */
  function HelloRecord(hd: Handler, from: string, m: Message, now: int64): (p: PeerInfo) {
    PeerInfo(Some(from), Some(m.fromName.GetOr(DEFAULT_NAME)), Some(RemoteHost(hd)), RemotePort(hd), now)
  }

  /**
   * `handleHello`. Without a sender id nothing happens. Otherwise the handler is
   * tagged with a fresh peer record (name defaulting to "peer", host and port from
   * the socket, seen now), filed under the sender id in both maps, and announced
   * to the UI; a non-empty peer list is then merged and answered, on this handler
   * only, with a PEERSHARE of the whole table. Pending connections are not touched.
   */
  function HandleHello(n: Node, j: nat, m: Message, env: Env): (r: (Node, seq<Event>))
    requires Valid(n) && j < |n.handlers|
    ensures Valid(r.0)
    ensures r.0.pending == n.pending && r.0.seen == n.seen && |r.0.handlers| == |n.handlers|
    ensures m.fromId.None? ==> r == (n, [])
  {
    match m.fromId
    case None => (n, [])
    case Some(from) =>
      var info := HelloRecord(n.handlers[j], from, m, env.now);
      var n1 := WithHandler(n, j, n.handlers[j].(peerInfo := Some(info)));
      var n2 := n1.(connections := Dir.Put(n1.connections, from, j), peers := Dir.Put(n1.peers, from, info));
      var events := [PeerConnected(info)];
      if m.peers.Some? && |m.peers.value| > 0 then
        var n3 := n2.(peers := Merge(n2.peers, m.peers.value, n.myId));
        var share := PeerShare(env.id1, env.now, n.myId, n.myName, KnownPeers(n3));
        (SendTo(n3, j, share), events)
      else (n2, events)
  }

  /**
   * HELLO registration: the handler is filed under the sender id and tagged with
   * its record, the UI hears of it once, and the peer table holds that record for
   * the sender unless the sender's own list carries a newer entry for its id.
   */
  lemma HelloRegisters(n: Node, j: nat, m: Message, env: Env)
    requires Valid(n) && j < |n.handlers| && m.fromId.Some?
    ensures var (n', events) := HandleHello(n, j, m, env);
      var from := m.fromId.value;
      var info := HelloRecord(n.handlers[j], from, m, env.now);
      var l := if m.peers.Some? then Latest(m.peers.value, n.myId, from) else None;
      && events == [PeerConnected(info)]
      && n'.connections.entries == n.connections.entries[from := j]
      && n'.handlers[j].peerInfo == Some(info)
      && from in n'.peers.entries
      && n'.peers.entries[from] == (if l.Some? then l.value else info)
  {
    var from := m.fromId.value;
    var info := HelloRecord(n.handlers[j], from, m, env.now);
    var n1 := WithHandler(n, j, n.handlers[j].(peerInfo := Some(info)));
    var peers2 := Dir.Put(n1.peers, from, info);
    if m.peers.Some? && |m.peers.value| > 0 {
      MergeLookup(peers2, m.peers.value, n.myId, from);
    }
  }

  /**
   * A PEERSHARE reply goes out exactly when the HELLO carries a non-empty list, and
   * only on its own handler; it is the PEERSHARE of the table after the merge.
   */
  lemma HelloRepliesOnlyWithPeers(n: Node, j: nat, m: Message, env: Env)
    requires Valid(n) && j < |n.handlers| && m.fromId.Some? && n.handlers[j].running
    ensures var n' := HandleHello(n, j, m, env).0;
      && (|n'.handlers[j].queue| == |n.handlers[j].queue| + 1 <==> m.peers.Some? && |m.peers.value| > 0)
      && (|n'.handlers[j].queue| == |n.handlers[j].queue| <==> !(m.peers.Some? && |m.peers.value| > 0))
      && (m.peers.Some? && |m.peers.value| > 0 ==>
            n'.handlers[j].queue
            == n.handlers[j].queue + [Wire.Encode(PeerShare(env.id1, env.now, n.myId, n.myName, Dir.Values(n'.peers)))])
      && (!(m.peers.Some? && |m.peers.value| > 0) ==> n'.handlers[j].queue == n.handlers[j].queue)
      && forall i :: 0 <= i < |n.handlers| && i != j ==> n'.handlers[i] == n.handlers[i]
  {
  }

  /**
   * `sharePeers(to)`: a PEERSHARE of the whole table, to one handler, or flooded to
   * every connection when there is no target.
   */
  function SharePeers(n: Node, to: Option<nat>, env: Env): (n': Node)
    requires Valid(n) && (to.Some? ==> to.value < |n.handlers|)
    ensures Valid(n')
  {
    var share := PeerShare(env.id1, env.now, n.myId, n.myName, KnownPeers(n));
    match to
    case Some(j) => SendTo(n, j, share)
    case None => Broadcast(n, share, None)
  }

  /**
   * The `lastSeen` refresh of a first-seen CHAT: the handler filed under the
   * sender id, or else the arriving one, has its record stamped `now`, and that
   * record is put back into the peer table. Queues and maps of handlers are left
   * alone.
   */
  function RefreshSender(n: Node, j: nat, from: string, now: int64): (n': Node)
    requires Valid(n) && j < |n.handlers|
    ensures Valid(n') && n'.connections == n.connections && n'.pending == n.pending && n'.seen == n.seen
    ensures |n'.handlers| == |n.handlers|
    ensures forall i :: 0 <= i < |n.handlers| ==>
              n'.handlers[i].queue == n.handlers[i].queue && n'.handlers[i].running == n.handlers[i].running
    ensures var target := if from in n.connections.entries then n.connections.entries[from] else j;
      && (n.handlers[target].peerInfo.None? ==> n' == n)
      && (n.handlers[target].peerInfo.Some? ==>
            var p := n.handlers[target].peerInfo.value;
            && n'.handlers[target].peerInfo == Some(p.(lastSeen := now))
            && p.id.Some? && n'.peers.entries == n.peers.entries[p.id.value := p.(lastSeen := now)])
      && forall i :: 0 <= i < |n.handlers| && i != target ==> n'.handlers[i] == n.handlers[i]
  {
    var target := if from in n.connections.entries then n.connections.entries[from] else j;
    match n.handlers[target].peerInfo
    case None => n
    case Some(p) =>
      var p' := p.(lastSeen := now);
      var n1 := WithHandler(n, target, n.handlers[target].(peerInfo := Some(p')));
      n1.(peers := Dir.Put(n1.peers, p.id.GetOr(""), p'))
  }

  /**
   * `handleChat`. A message without an id is ignored. Otherwise its id goes
   * through the seen set, which refreshes its recency even when it was already
   * there; a repeat stops here. A first copy refreshes the sender's `lastSeen`
   * (through the handler filed under the sender id, or the arriving handler),
   * reaches the UI once and is flooded to every connection except the arriving
   * one. A sender id of `null` fails the lookup with an exception after the id
   * has been marked seen: the failure is reported and nothing is delivered.
   */
  function HandleChat(n: Node, j: nat, m: Message, env: Env): (r: (Node, seq<Event>))
    requires Valid(n) && j < |n.handlers|
    ensures Valid(r.0)
    ensures r.0.connections == n.connections && r.0.pending == n.pending && |r.0.handlers| == |n.handlers|
    ensures m.id.None? ==> r == (n, [])
  {
    match m.id
    case None => (n, [])
    case Some(id) =>
      var (seen', isNew) := LruSet.Add(n.seen, id);
      var n1 := n.(seen := seen');
      if !isNew then (n1, [])
      else
        match m.fromId
        case None => (n1, [Status(ProcessingFailed)])
        case Some(from) =>
          var n2 := RefreshSender(n1, j, from, env.now);
          (Broadcast(n2, m, Some(j)), [MessageReceived(m)])
  }

  /** A CHAT whose id was seen before causes no event and no send; only its recency is refreshed. */
  lemma DuplicateChatIsDropped(n: Node, j: nat, m: Message, env: Env)
    requires Valid(n) && j < |n.handlers| && m.id.Some? && LruSet.Contains(n.seen, m.id.value)
    ensures HandleChat(n, j, m, env) == (n.(seen := LruSet.Add(n.seen, m.id.value).0), [])
  {
  }

  /**
   * A first-seen CHAT with a sender id reaches the UI exactly once, and every
   * handler except the arriving one gets one copy per peer id it serves.
   */
  lemma FirstChatIsFlooded(n: Node, j: nat, m: Message, env: Env, i: nat)
    requires Valid(n) && j < |n.handlers| && i < |n.handlers|
    requires m.id.Some? && !LruSet.Contains(n.seen, m.id.value) && m.fromId.Some?
    ensures var (n', events) := HandleChat(n, j, m, env);
      && events == [MessageReceived(m)]
      && LruSet.Contains(n'.seen, m.id.value)
      && n'.handlers[i].queue
         == if i == j || !n.handlers[i].running then n.handlers[i].queue
            else n.handlers[i].queue + Repeat(Wire.Encode(m), Occurrences(Dir.Values(n.connections), i))
  {
    var id := m.id.value;
    var (seen', isNew) := LruSet.Add(n.seen, id);
    LruSet.AddMakesNewest(n.seen, id);
    var n1 := n.(seen := seen');
    var n2 := RefreshSender(n1, j, m.fromId.value, env.now);
    BroadcastCopies(n2, m, Some(j), i);
  }

  /** A CHAT without a sender id is marked seen, then fails: one failure status, no delivery, no send. */
  lemma ChatWithoutSenderFails(n: Node, j: nat, m: Message, env: Env)
    requires Valid(n) && j < |n.handlers| && m.id.Some? && !LruSet.Contains(n.seen, m.id.value) && m.fromId.None?
    ensures var (n', events) := HandleChat(n, j, m, env);
      events == [Status(ProcessingFailed)] && n'.handlers == n.handlers && LruSet.Contains(n'.seen, m.id.value)
  {
    LruSet.AddMakesNewest(n.seen, m.id.value);
  }

  /**
   * The PEERSHARE loop as written: every eligible entry is merged, and the first
   * `MAX_DIALS` eligible entries whose id has no connection (counting `attempts`
   * already made) are dialled, repeats included.
   */
  function ShareLoop(peers: Dir.Dir<PeerInfo>, connected: map<string, nat>, ps: seq<Option<PeerInfo>>,
                     myId: string, attempts: nat): (r: (Dir.Dir<PeerInfo>, seq<Event>))
    requires Dir.Valid(peers)
    ensures Dir.Valid(r.0)
    decreases |ps|
  {
    if ps == [] then (peers, [])
    else if !Eligible(myId, ps[0]) then ShareLoop(peers, connected, ps[1..], myId, attempts)
    else
      var pi := ps[0].value;
      var peers1 := Dir.Put(peers, pi.id.value, pi);
      if pi.id.value !in connected && attempts < MAX_DIALS then
        var (peers2, dials) := ShareLoop(peers1, connected, ps[1..], myId, attempts + 1);
        (peers2, [Dial(pi.host, pi.port)] + dials)
      else ShareLoop(peers1, connected, ps[1..], myId, attempts)
  }

  /** Reference for the dialling: the eligible entries whose id has no connection, in list order. */
  function Candidates(connected: map<string, nat>, ps: seq<Option<PeerInfo>>, myId: string): (cs: seq<PeerInfo>)
    ensures |cs| <= |ps|
    ensures forall i :: 0 <= i < |cs| ==> cs[i].id.Some? && cs[i].id.value != myId && cs[i].id.value !in connected
    decreases |ps|
  {
    if ps == [] then []
    else
      var rest := Candidates(connected, ps[1..], myId);
      if Eligible(myId, ps[0]) && ps[0].value.id.value !in connected then [ps[0].value] + rest else rest
  }

  /** The dial requests for a list of peers. */
  function DialsFor(cs: seq<PeerInfo>): (ds: seq<Event>)
    ensures |ds| == |cs|
    ensures forall i :: 0 <= i < |cs| ==> ds[i] == Dial(cs[i].host, cs[i].port)
    decreases |cs|
  {
    if cs == [] then [] else [Dial(cs[0].host, cs[0].port)] + DialsFor(cs[1..])
  }

  /** The smaller of two numbers. */
  function Min(a: int, b: int): (m: int) {
    if a <= b then a else b
  }

  /** The PEERSHARE loop merges exactly as the HELLO loop does. */
  lemma {:induction false} ShareLoopMerges(peers: Dir.Dir<PeerInfo>, connected: map<string, nat>,
                                           ps: seq<Option<PeerInfo>>, myId: string, attempts: nat)
    requires Dir.Valid(peers)
    ensures ShareLoop(peers, connected, ps, myId, attempts).0 == Merge(peers, ps, myId)
    decreases |ps|
  {
    if ps != [] {
      if !Eligible(myId, ps[0]) {
        ShareLoopMerges(peers, connected, ps[1..], myId, attempts);
      } else {
        var pi := ps[0].value;
        var peers1 := Dir.Put(peers, pi.id.value, pi);
        ShareLoopMerges(peers1, connected, ps[1..], myId, attempts + 1);
        ShareLoopMerges(peers1, connected, ps[1..], myId, attempts);
      }
    }
  }

  lemma DialsTakeCons(pi: PeerInfo, rest: seq<PeerInfo>, k: nat)
    requires k >= 1
    ensures DialsFor(([pi] + rest)[..Min(k, |rest| + 1)])
            == [Dial(pi.host, pi.port)] + DialsFor(rest[..Min(k - 1, |rest|)])
  {
    assert ([pi] + rest)[..Min(k, |rest| + 1)] == [pi] + rest[..Min(k - 1, |rest|)];
  }

  /** Whether the loop dials the head of `ps`, given the attempts made so far. */
  predicate DialsHead(connected: map<string, nat>, ps: seq<Option<PeerInfo>>, myId: string, attempts: nat)
    requires ps != []
  {
    Eligible(myId, ps[0]) && ps[0].value.id.value !in connected && attempts < MAX_DIALS
  }

  /** The attempts made once the head of `ps` has been looked at. */
  function AttemptsAfter(connected: map<string, nat>, ps: seq<Option<PeerInfo>>, myId: string, attempts: nat): nat
    requires ps != []
  {
    if DialsHead(connected, ps, myId, attempts) then attempts + 1 else attempts
  }

  /** One turn of the loop: the head's dial, if any, then the rest. */
  lemma ShareLoopStep(peers: Dir.Dir<PeerInfo>, connected: map<string, nat>,
                      ps: seq<Option<PeerInfo>>, myId: string, attempts: nat)
    requires Dir.Valid(peers) && ps != []
    ensures var peers1 := if Eligible(myId, ps[0]) then Dir.Put(peers, ps[0].value.id.value, ps[0].value) else peers;
      ShareLoop(peers, connected, ps, myId, attempts).1
      == (if DialsHead(connected, ps, myId, attempts) then [Dial(ps[0].value.host, ps[0].value.port)] else [])
         + ShareLoop(peers1, connected, ps[1..], myId, AttemptsAfter(connected, ps, myId, attempts)).1
  {
  }

  /** The same turn on the reference side: the head is among the dialled candidates exactly when the loop dials it. */
  lemma CandidatesStep(connected: map<string, nat>, ps: seq<Option<PeerInfo>>, myId: string, attempts: nat)
    requires ps != [] && attempts <= MAX_DIALS
    ensures var cs := Candidates(connected, ps, myId);
      var rest := Candidates(connected, ps[1..], myId);
      var a1 := AttemptsAfter(connected, ps, myId, attempts);
      DialsFor(cs[..Min(MAX_DIALS - attempts, |cs|)])
      == (if DialsHead(connected, ps, myId, attempts) then [Dial(ps[0].value.host, ps[0].value.port)] else [])
         + DialsFor(rest[..Min(MAX_DIALS - a1, |rest|)])
  {
    var cs := Candidates(connected, ps, myId);
    var rest := Candidates(connected, ps[1..], myId);
    if DialsHead(connected, ps, myId, attempts) {
      assert cs == [ps[0].value] + rest;
      DialsTakeCons(ps[0].value, rest, MAX_DIALS - attempts);
    } else if Eligible(myId, ps[0]) && ps[0].value.id.value !in connected {
      assert Min(MAX_DIALS - attempts, |cs|) == 0 && Min(MAX_DIALS - attempts, |rest|) == 0;
    }
  }

  /**
   * Throttled auto-dial: the loop dials the first `MAX_DIALS - attempts`
   * candidates, in list order, and nothing else.
   */
  lemma {:induction false} ShareLoopDials(peers: Dir.Dir<PeerInfo>, connected: map<string, nat>,
                                          ps: seq<Option<PeerInfo>>, myId: string, attempts: nat)
    requires Dir.Valid(peers) && attempts <= MAX_DIALS
    ensures var cs := Candidates(connected, ps, myId);
      ShareLoop(peers, connected, ps, myId, attempts).1 == DialsFor(cs[..Min(MAX_DIALS - attempts, |cs|)])
    decreases |ps|
  {
    if ps != [] {
      var peers1 := if Eligible(myId, ps[0]) then Dir.Put(peers, ps[0].value.id.value, ps[0].value) else peers;
      ShareLoopDials(peers1, connected, ps[1..], myId, AttemptsAfter(connected, ps, myId, attempts));
      ShareLoopStep(peers, connected, ps, myId, attempts);
      CandidatesStep(connected, ps, myId, attempts);
    }
  }

  /** `handlePeerShare`: merge the list and dial up to three unconnected peers; a `null` list is ignored. */
  function HandlePeerShare(n: Node, m: Message): (r: (Node, seq<Event>))
    requires Valid(n)
    ensures Valid(r.0)
    ensures r.0 == n.(peers := r.0.peers)
    ensures m.peers.None? ==> r == (n, [])
    ensures |r.1| <= MAX_DIALS
  {
    match m.peers
    case None => (n, [])
    case Some(ps) =>
      var (peers', dials) := ShareLoop(n.peers, n.connections.entries, ps, n.myId, 0);
      ShareLoopDials(n.peers, n.connections.entries, ps, n.myId, 0);
      (n.(peers := peers'), dials)
  }

  /**
   * What a PEERSHARE does, stated against the reference definitions: the table is
   * the merge of the list, and the dials are the first three candidates.
   */
  lemma PeerShareMergesAndDials(n: Node, m: Message)
    requires Valid(n) && m.peers.Some?
    ensures var (n', dials) := HandlePeerShare(n, m);
      var cs := Candidates(n.connections.entries, m.peers.value, n.myId);
      && n'.peers == Merge(n.peers, m.peers.value, n.myId)
      && dials == DialsFor(cs[..Min(MAX_DIALS, |cs|)])
  {
    ShareLoopMerges(n.peers, n.connections.entries, m.peers.value, n.myId, 0);
    ShareLoopDials(n.peers, n.connections.entries, m.peers.value, n.myId, 0);
  }

  /** A PEERSHARE dials nobody who is already connected or is the node itself. */
  lemma PeerShareDialsOnlyStrangers(n: Node, m: Message, i: nat)
    requires Valid(n) && m.peers.Some?
    requires i < |HandlePeerShare(n, m).1|
    ensures var cs := Candidates(n.connections.entries, m.peers.value, n.myId);
      i < |cs| && HandlePeerShare(n, m).1[i] == Dial(cs[i].host, cs[i].port)
      && cs[i].id.Some? && cs[i].id.value !in n.connections.entries && cs[i].id.value != n.myId
  {
    ShareLoopDials(n.peers, n.connections.entries, m.peers.value, n.myId, 0);
  }

  /**
   * `broadcastChat`: a new CHAT from this node is marked seen, shown locally once
   * and sent to every connection, with no exclusion.
   */
  function BroadcastChat(n: Node, text: string, env: Env): (r: (Node, seq<Event>))
    requires Valid(n)
    ensures Valid(r.0)
    ensures r.1 == [MessageReceived(Chat(env.id1, env.now, n.myId, n.myName, text))]
    ensures LruSet.Contains(r.0.seen, env.id1)
  {
    var m := Chat(env.id1, env.now, n.myId, n.myName, text);
    LruSet.AddMakesNewest(n.seen, env.id1);
    var n1 := n.(seen := LruSet.Add(n.seen, env.id1).0);
    (Broadcast(n1, m, None), [MessageReceived(m)])
  }

  /** Every running connection gets the new CHAT, once per peer id it serves. */
  lemma BroadcastChatReachesAll(n: Node, text: string, env: Env, i: nat)
    requires Valid(n) && i < |n.handlers|
    ensures var n' := BroadcastChat(n, text, env).0;
      n'.handlers[i] == SentCopies(n.handlers[i], Chat(env.id1, env.now, n.myId, n.myName, text),
                                   Occurrences(Dir.Values(n.connections), i))
  {
    var n1 := n.(seen := LruSet.Add(n.seen, env.id1).0);
    BroadcastCopies(n1, Chat(env.id1, env.now, n.myId, n.myName, text), None, i);
  }

  /**
   * The flood terminates at its origin: a copy of the node's own CHAT that comes
   * back on any connection is dropped, with no event and no send.
   */
  lemma OwnChatEchoIsDropped(n: Node, text: string, env: Env, j: nat, env': Env)
    requires Valid(n) && j < |n.handlers|
    ensures var (n1, _) := BroadcastChat(n, text, env);
      var m := Chat(env.id1, env.now, n.myId, n.myName, text);
      var (n2, events) := HandleChat(n1, j, m, env');
      events == [] && n2.handlers == n1.handlers && n2.peers == n1.peers
  {
    var (n1, _) := BroadcastChat(n, text, env);
    DuplicateChatIsDropped(n1, j, Chat(env.id1, env.now, n.myId, n.myName, text), env');
  }

  /**
   * `onLineReceived`: a line that does not parse is reported as a failure; a
   * `null` message or one whose type is missing or unknown changes nothing; the
   * rest go to their handler.
   */
  function OnLineReceived(n: Node, j: nat, line: Decoded, env: Env): (r: (Node, seq<Event>))
    requires Valid(n) && j < |n.handlers|
    ensures Valid(r.0) && |r.0.handlers| == |n.handlers| && r.0.pending == n.pending
    ensures line.Malformed? ==> r == (n, [Status(ProcessingFailed)])
    ensures line.NullMessage? || (line.Parsed? && KindOf(line.msg) == Ignored) ==> r == (n, [])
  {
    match line
    case Malformed => (n, [Status(ProcessingFailed)])
    case NullMessage => (n, [])
    case Parsed(m) =>
      match KindOf(m)
      case HelloKind => HandleHello(n, j, m, env)
      case ChatKind => HandleChat(n, j, m, env)
      case PeerShareKind => HandlePeerShare(n, m)
      case Ignored => (n, [])
  }
}
