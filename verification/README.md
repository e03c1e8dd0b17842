# java-p2p-chat in Dafny

A model of the networking core of java-p2p-chat, a serverless LAN chat. Each
running instance is a *peer node*. It listens on a TCP port and finds other
nodes through a multicast *discovery* announce. It dials the nodes it learns
about, keeping one *connection handler* per socket. Over those connections it
exchanges newline-framed JSON messages of three kinds:

- HELLO: identity plus a snapshot of the known peers;
- CHAT: text, flooded to every connection except the one it arrived on;
- PEERSHARE: a peer list, from which the node dials up to three new peers.

A bounded LRU set of seen message ids stops a flooded CHAT from circulating
forever.

The model is functional. Every Java object becomes an immutable datatype, and
every method a pure transition function from the old state to the new state
plus the callbacks it makes. Each thread's loop becomes one step that can be
taken at any time. Nothing blocks, nothing runs concurrently, and every outside
influence is an explicit input:

- the clock and fresh UUIDs: `NodeState.Env`;
- whether a port can be bound: the set `free`;
- whether streams or sockets open: boolean arguments;
- what a read returns: `Connection.ReadResult`;
- what the JSON parser makes of a line: `Messages.Decoded` and `Discovery.ParsedAnnounce`.

Modules, in dependency order:

| module | file | models |
|---|---|---|
| `Wrappers`, `JavaInts`, `Seqs` | wrappers.dfy, java_ints.dfy, seqs.dfy | `null` as `Option`; Java `int`/`long` and `int` wrap-around; sequence facts |
| `LruSet` | lru_set.dfy | `util/LruSet` (access-ordered `LinkedHashMap` with eviction) |
| `Peers`, `Messages` | peer_info.dfy, message.dfy | `model/PeerInfo`, `model/Message` and its three factory methods |
| `Wire` | wire.dfy | the compact JSON line a message is sent as, and newline framing |
| `Connection` | connection.dfy | `net/ConnectionHandler`: running flag, FIFO queue, reader and writer steps |
| `Discovery` | discovery.dfy | `net/DiscoveryService`: guards, announce payload, receive filter |
| `Directory` | directory.dfy | the node's `ConcurrentHashMap`s, with an iteration order |
| `NodeState` | node_state.dfy | `net/PeerNode` state, UI events, `broadcast` |
| `NodeStart` | node_start.dfy | `PeerNode.start`: port probing and discovery start |
| `NodeProtocol` | node_protocol.dfy | `onHandlerStarted`, `onLineReceived`, HELLO, CHAT, PEERSHARE, `broadcastChat` |
| `NodeLifecycle` | node_lifecycle.dfy | accept, `connectAsync`, `onHandlerStopped`, handler steps at the node, discovery events, `shutdown` |

Handler objects are identified by their index into `Node.handlers`, and the
three maps hold such indices. Handlers are never removed from that sequence,
so a map entry that outlives its handler still names a real (stopped) handler,
as a stale Java reference does. Java gives `ConcurrentHashMap` iteration no
order. The model fixes insertion order, which is one legal order, and it states
no property of `broadcast` or `shutdown` that depends on the order.

In these places the code does less than its names suggest, and the model
follows the code:

- A HELLO does not move a connection out of the pending map. Only a stop
  removes the pending entry.
- The PEERSHARE reply is sent for every HELLO that carries a non-empty list, not
  only the first. An outbound connection sends two HELLOs (`OutboundDialSendsTwoHellos`).
- A closed connection's peer stays in the peer table.
- `shutdown` does not always stop every pending handler (Findings).
- `start` with every attempted port busy does not fail: it carries on with an
  unbound socket (Findings).

## Model

| member | source | states |
|---|---|---|
| LruSet.New | src/main/java/edu/unifor/clysman/chat/util/LruSet.java:10-18 | a set exists exactly when the capacity is non-negative (the backing map rejects a negative one); it starts empty with that capacity |
| LruSet.Add | src/main/java/edu/unifor/clysman/chat/util/LruSet.java:20-24 | returns true iff the value was not a member; the value becomes the most recent entry and only the newest `capacity` entries stay; the set stays duplicate-free and within capacity |
| LruSet.AddMakesNewest | src/main/java/edu/unifor/clysman/chat/util/LruSet.java:20-24 | with capacity at least one, the added value is a member afterwards and the most recent one |
| LruSet.AddToZeroCapacity | src/main/java/edu/unifor/clysman/chat/util/LruSet.java:14-16 | a capacity-zero set stays empty and reports every value as new |
| LruSet.AddAdmitsOnlyValue | src/main/java/edu/unifor/clysman/chat/util/LruSet.java:20-24 | no value other than the added one becomes a member |
| LruSet.ReAddKeepsMembers | src/main/java/edu/unifor/clysman/chat/util/LruSet.java:12-16 | re-adding a member keeps the size and the members and only moves it to the most recent end (access order) |
| LruSet.AddWithRoomAppends | src/main/java/edu/unifor/clysman/chat/util/LruSet.java:14-16 | a new value added below capacity is appended and nothing is evicted |
| LruSet.AddToFullEvictsEldest | src/main/java/edu/unifor/clysman/chat/util/LruSet.java:14-16 | a new value added at capacity evicts exactly the least recently added member |
| LruSet.AddAllKeepsNewest | src/main/java/edu/unifor/clysman/chat/util/LruSet.java:10-24 | after any history of adds the set holds exactly the `capacity` most recently added distinct values, least recent first (true LRU, checked against an independent recency order) |
| LruSet.DedupWindow | src/main/java/edu/unifor/clysman/chat/util/LruSet.java:20-24 | after any history, `add(v)` reports v as seen iff v is among the `capacity` most recently added distinct values |
| LruSet.CapacityPlusOneEvictsFirst | src/main/java/edu/unifor/clysman/chat/util/LruSet.java:14-16 | after capacity+1 distinct adds the first value is gone |
| LruSet.SeenWithinCapacity | src/main/java/edu/unifor/clysman/chat/net/PeerNode.java:43 | a value added again after fewer than `capacity` intervening adds is reported as already seen |
| JavaInts.Wrap32 | src/main/java/edu/unifor/clysman/chat/net/PeerNode.java:72 | Java `int` addition: the sum reduced modulo 2^32 into the `int` range, the identity when no overflow occurs |
| Peers.SetterLaws | src/main/java/edu/unifor/clysman/chat/model/PeerInfo.java:10-20 | each of the five setters replaces its own field, so its getter returns the stored value, and keeps the other four; of two `setLastSeen` calls the later wins |
| Messages.SetterLaws | src/main/java/edu/unifor/clysman/chat/model/Message.java:49-63 | each of the seven setters replaces its own field, so its getter returns the stored value, and keeps the other six |
| Messages.KindOf | src/main/java/edu/unifor/clysman/chat/net/PeerNode.java:157-171 | the type strings "HELLO", "CHAT", "PEERSHARE" select their handler and every other type, `null` included, is ignored |
| Messages.ConstructorsPopulateTheirKind | src/main/java/edu/unifor/clysman/chat/model/Message.java:16-47 | each factory sets its type and stores its arguments; a chat carries text and no peer list, HELLO and PEERSHARE carry the list and no text |
| Messages.HelloIgnoresPort | src/main/java/edu/unifor/clysman/chat/model/Message.java:27-36 | `hello` stores its port argument nowhere: two ports give equal messages |
| Messages.HelloIsPeerShareButForKind | src/main/java/edu/unifor/clysman/chat/model/Message.java:27-47 | a HELLO and a PEERSHARE from the same inputs differ only in the type field |
| Wire.EscapeRoundTrip | src/main/java/edu/unifor/clysman/chat/util/Json.java:7 | JSON string escaping with HTML escaping off loses nothing: unescaping the escaped text gives the original string |
| Wire.Write | src/main/java/edu/unifor/clysman/chat/net/ConnectionHandler.java:64 | the compact JSON text of any value contains no line terminator |
| Wire.Encode | src/main/java/edu/unifor/clysman/chat/net/ConnectionHandler.java:64 | a serialized message is a single line |
| Wire.FramingRoundTrip | src/main/java/edu/unifor/clysman/chat/net/ConnectionHandler.java:71-86 | writing lines each followed by "\n" and reading them back line by line gives the same lines, when none contains a terminator |
| Wire.MessagesRoundTrip | src/main/java/edu/unifor/clysman/chat/net/ConnectionHandler.java:64-86 | the encodings of any messages, framed and read back, are recovered exactly and in order |
| Connection.RemoteKey | src/main/java/edu/unifor/clysman/chat/net/ConnectionHandler.java:94-96 | the remote address text of a connected socket, "unknown" without one |
| Connection.RemoteHost | src/main/java/edu/unifor/clysman/chat/net/ConnectionHandler.java:98-100 | the remote host of a connected socket, "unknown" without one |
| Connection.RemotePort | src/main/java/edu/unifor/clysman/chat/net/ConnectionHandler.java:102-104 | the remote port of a connected socket, 0 without one |
| Connection.Stop | src/main/java/edu/unifor/clysman/chat/net/ConnectionHandler.java:53-59 | notifies `Stopped` iff the handler was running; afterwards it is not running and its queue, output and peer record are unchanged |
| Connection.Start | src/main/java/edu/unifor/clysman/chat/net/ConnectionHandler.java:33-51 | a no-op on a running handler; otherwise notifies `Started` iff the streams open, and `Stopped` iff they fail (a closed socket fails) |
| Connection.Send | src/main/java/edu/unifor/clysman/chat/net/ConnectionHandler.java:61-66 | appends exactly the message's encoding at the tail of the queue iff running, and nothing otherwise |
| Connection.ReadStep | src/main/java/edu/unifor/clysman/chat/net/ConnectionHandler.java:68-78 | a running reader forwards a line unchanged; end of stream or an error stops the handler with one `Stopped` |
| Connection.WriteStep | src/main/java/edu/unifor/clysman/chat/net/ConnectionHandler.java:80-92 | a running writer writes the head of the queue followed by "\n"; a write failure stops the handler and the taken line is lost |
| Connection.StepNotices | src/main/java/edu/unifor/clysman/chat/net/ConnectionHandler.java:33-59 | any single operation emits one `Stopped` exactly when it ends a running period, and `Started` only for a start that leaves the handler running |
| Connection.RunNotices | src/main/java/edu/unifor/clysman/chat/net/ConnectionHandler.java:34-58 | over any run, `Stopped` notices plus a still-open period never exceed the start calls plus an initially open period: the stop notice fires at most once per running period |
| Connection.StopTwice | src/main/java/edu/unifor/clysman/chat/net/ConnectionHandler.java:53-59 | two stops notify once |
| Connection.RestartNotifiesAgain | src/main/java/edu/unifor/clysman/chat/net/ConnectionHandler.java:33-41 | a stopped handler can be started again; its closed socket fails and it notifies `Stopped` a second time |
| Connection.SendKeepsQueueSafe | src/main/java/edu/unifor/clysman/chat/net/ConnectionHandler.java:61-66 | sending keeps every queued item a single line |
| Connection.DrainWritesQueue | src/main/java/edu/unifor/clysman/chat/net/ConnectionHandler.java:80-92 | draining a running handler writes its queue in FIFO order, each line followed by "\n", and empties the queue |
| Connection.ReadAllForwardsInOrder | src/main/java/edu/unifor/clysman/chat/net/ConnectionHandler.java:68-78 | a running reader forwards every line it reads, in arrival order |
| Connection.SendsAppend | src/main/java/edu/unifor/clysman/chat/net/ConnectionHandler.java:61-66 | a series of sends on a running handler appends their encodings in order |
| Connection.DeliveredInOrder | src/main/java/edu/unifor/clysman/chat/net/ConnectionHandler.java:61-86 | end to end: messages sent on one side reach the other side's reader as exactly their encodings, in order |
| Discovery.Start | src/main/java/edu/unifor/clysman/chat/net/DiscoveryService.java:42-57 | a no-op when running; otherwise sets the flag and opens the socket and receiver iff the multicast socket can be opened, reporting the failure otherwise |
| Discovery.Shutdown | src/main/java/edu/unifor/clysman/chat/net/DiscoveryService.java:59-72 | a no-op when not running; otherwise clears the flag, closes the socket and ends the receiver |
| Discovery.Payload | src/main/java/edu/unifor/clysman/chat/net/DiscoveryService.java:74-81 | the announce carries type "DISCOVERY" and the node's own id, name and port |
| Discovery.PayloadText | src/main/java/edu/unifor/clysman/chat/net/DiscoveryService.java:82 | the announce text is a single line |
| Discovery.Tick | src/main/java/edu/unifor/clysman/chat/net/DiscoveryService.java:55-56 | each scheduled tick sends the payload iff the socket is open |
| Discovery.ReceiveAsWritten | src/main/java/edu/unifor/clysman/chat/net/DiscoveryService.java:88-104 | the receive loop as written: it reports only while running and receiving; a malformed datagram ends receiving without a report, and receiving is the only field it changes |
| Discovery.Receive | src/main/java/edu/unifor/clysman/chat/net/DiscoveryService.java:90-99 | reports an event iff the loop is alive and the datagram parses to an announce of type DISCOVERY from another id; the event carries the source host and the payload's port, name and id; only an I/O error ends the loop |
| Discovery.ReceiveAgreesExceptOnBadJson | src/main/java/edu/unifor/clysman/chat/net/DiscoveryService.java:88-104 | the corrected and the as-written loop agree on every input but a malformed datagram |
| Discovery.BadDatagramEndsDiscovery | src/main/java/edu/unifor/clysman/chat/net/DiscoveryService.java:95-101 | one malformed datagram ends discovery for good as written; the corrected loop still reports the next announce |
| Discovery.ReceiveAllReportsEveryAnnounce | src/main/java/edu/unifor/clysman/chat/net/DiscoveryService.java:90-99 | a live receiver yields exactly one event per accepted datagram, in order, checked against an independent definition |
| Discovery.RepeatsAreReported | src/main/java/edu/unifor/clysman/chat/net/DiscoveryService.java:90-99 | no deduplication: an announce received twice is reported twice |
| Discovery.AnnounceIsDiscovered | src/main/java/edu/unifor/clysman/chat/net/DiscoveryService.java:74-99 | another node's announce is reported with its port, name and id; a node's own looped-back announce is ignored |
| Discovery.GuardsAreIdempotent | src/main/java/edu/unifor/clysman/chat/net/DiscoveryService.java:43-60 | starting twice is starting once, and so is shutting down twice |
| Discovery.FailedStartBlocksRestart | src/main/java/edu/unifor/clysman/chat/net/DiscoveryService.java:42-49 | after a start whose socket fails, a later start opens nothing; a shutdown makes the service startable again |
| Directory.Put | src/main/java/edu/unifor/clysman/chat/net/PeerNode.java:32-34 | `put` binds the key and keeps the map well formed; an existing key keeps its place in the iteration order |
| Directory.Remove | src/main/java/edu/unifor/clysman/chat/net/PeerNode.java:32-34 | `remove` drops exactly that key |
| Directory.ValuesAreTheEntries | src/main/java/edu/unifor/clysman/chat/net/PeerNode.java:264 | the `values()` snapshot holds exactly the values bound to some key |
| NodeState.Create | src/main/java/edu/unifor/clysman/chat/net/PeerNode.java:25-48 | a new node is well formed and not running |
| NodeState.SendAllPerHandler | src/main/java/edu/unifor/clysman/chat/net/PeerNode.java:263-268 | sending to a snapshot gives each handler other than the excluded one one copy per occurrence in the snapshot, and nothing else changes |
| NodeState.Broadcast | src/main/java/edu/unifor/clysman/chat/net/PeerNode.java:263-268 | `broadcast` keeps the node well formed and changes nothing but handler queues |
| NodeState.BroadcastCopies | src/main/java/edu/unifor/clysman/chat/net/PeerNode.java:263-268 | each running handler gets one copy per peer id it is registered under, the excluded one none |
| NodeState.NoEcho | src/main/java/edu/unifor/clysman/chat/net/PeerNode.java:265 | the handler a message arrived on is not sent it back |
| NodeState.BroadcastReaches | src/main/java/edu/unifor/clysman/chat/net/PeerNode.java:263-268 | every running registered handler other than the excluded one gets the message's encoding |
| NodeStart.ProbeFrom | src/main/java/edu/unifor/clysman/chat/net/PeerNode.java:70-80 | the probe as written binds a free port in range, escapes at the first number that is not a port, or runs out only after every attempt was a busy port |
| NodeStart.ProbeAsWritten | src/main/java/edu/unifor/clysman/chat/net/PeerNode.java:70-84 | the loop never runs iff the `int` bound wraps below the configured port; a loop that runs and binds nothing ends with the counter at `configuredPort + 50` and every attempt busy |
| NodeStart.FirstFree | src/main/java/edu/unifor/clysman/chat/net/PeerNode.java:70-80 | the intended probe returns the least free port among the attempts, or none iff no attempted port is free |
| NodeStart.ProbeAgreesOnPorts | src/main/java/edu/unifor/clysman/chat/net/PeerNode.java:72-80 | where all attempts are port numbers the written and intended probes agree |
| NodeStart.Listen | src/main/java/edu/unifor/clysman/chat/net/PeerNode.java:85-98 | a bound node is running and listening on the port, with discovery created for its id and port; it reports "listening" only if discovery started |
| NodeStart.StartAsWritten | src/main/java/edu/unifor/clysman/chat/net/PeerNode.java:66-99 | `start` as written: a no-op on a running node; it fails with the node untouched only when the loop bound wraps; a crash leaves only the flag set, at a number outside the port range; a bound node listens on a free attempted port; with every attempt busy it runs, announces and claims `configuredPort + 50`, but does not listen and first reports that the accept loop ended |
| NodeStart.Start | src/main/java/edu/unifor/clysman/chat/net/PeerNode.java:66-99 | a no-op on a running node; otherwise fails with no change iff no attempted port is free, and else listens on the least free port of the 50 attempts |
| NodeStart.StartIsIdempotent | src/main/java/edu/unifor/clysman/chat/net/PeerNode.java:67 | a second start after a successful one is a no-op |
| NodeStart.StartAgreesWithinRange | src/main/java/edu/unifor/clysman/chat/net/PeerNode.java:66-99 | for configured ports up to 65486 with some attempted port free, the corrected and written start coincide; they differ when every attempted port is busy |
| NodeStart.AllPortsBusyListensNowhere | src/main/java/edu/unifor/clysman/chat/net/PeerNode.java:72-98 | every attempted port busy: as written, start runs on an unbound socket at `configuredPort + 50`, reports the accept loop ended, and cannot be started again; corrected, it reports no free port and leaves the node as it was |
| NodeStart.LastPortBusyCrashesStart | src/main/java/edu/unifor/clysman/chat/net/PeerNode.java:72-80 | configured port 65535 busy: as written start crashes with the flag set and later starts do nothing; corrected, it reports no port and a later start works |
| NodeProtocol.OnHandlerStarted | src/main/java/edu/unifor/clysman/chat/net/PeerNode.java:135-143 | a started handler is sent exactly one HELLO with this node's id, name and peer table (`Message.hello` drops the port); no other handler or map changes |
| NodeProtocol.Latest | src/main/java/edu/unifor/clysman/chat/net/PeerNode.java:196-200 | the reference: the last eligible list entry for an id, never the node itself |
| NodeProtocol.MergeLookup | src/main/java/edu/unifor/clysman/chat/net/PeerNode.java:196-200 | after merging, each id maps to its last eligible list entry, and ids absent from the list keep their old entry |
| NodeProtocol.MergeNeverAdoptsSelf | src/main/java/edu/unifor/clysman/chat/net/PeerNode.java:198 | merging never adds or changes the node's own entry |
| NodeProtocol.HandleHello | src/main/java/edu/unifor/clysman/chat/net/PeerNode.java:177-204 | without a sender id nothing happens; pending map and seen set are never touched |
| NodeProtocol.HelloRegisters | src/main/java/edu/unifor/clysman/chat/net/PeerNode.java:177-200 | the handler is filed under the sender id with the record built from the socket, the UI hears of it once, and the table holds that record unless the list carries a later entry for the same id |
| NodeProtocol.HelloRepliesOnlyWithPeers | src/main/java/edu/unifor/clysman/chat/net/PeerNode.java:194-213 | a PEERSHARE goes back iff the HELLO carries a non-empty list, on that handler only, and it is the PEERSHARE of the peer table after the merge |
| NodeProtocol.RefreshSender | src/main/java/edu/unifor/clysman/chat/net/PeerNode.java:224-229 | the record of the handler filed under the sender id (or else the arriving handler) is stamped `now` and put into the peer table under its id; without a record nothing changes; no other handler, queue or handler map changes |
| NodeProtocol.HandleChat | src/main/java/edu/unifor/clysman/chat/net/PeerNode.java:215-236 | a CHAT without an id changes nothing and reports nothing; handling a CHAT never changes the connection or pending maps |
| NodeProtocol.DuplicateChatIsDropped | src/main/java/edu/unifor/clysman/chat/net/PeerNode.java:219-222 | a CHAT whose id was seen causes no event and no send, only a recency refresh |
| NodeProtocol.FirstChatIsFlooded | src/main/java/edu/unifor/clysman/chat/net/PeerNode.java:215-236 | a first-seen CHAT reaches the UI once, is marked seen, and every running handler but the arriving one gets one copy per peer id it serves |
| NodeProtocol.ChatWithoutSenderFails | src/main/java/edu/unifor/clysman/chat/net/PeerNode.java:220-225 | a CHAT with a `null` sender is marked seen and then fails with one status and no send |
| NodeProtocol.Candidates | src/main/java/edu/unifor/clysman/chat/net/PeerNode.java:242-247 | the reference: only entries with an id that is neither the node's own nor connected |
| NodeProtocol.ShareLoopMerges | src/main/java/edu/unifor/clysman/chat/net/PeerNode.java:241-244 | the PEERSHARE loop merges exactly as the HELLO merge does |
| NodeProtocol.ShareLoopDials | src/main/java/edu/unifor/clysman/chat/net/PeerNode.java:240-251 | the loop dials the first candidates, in list order, up to the attempts left, and nothing else |
| NodeProtocol.HandlePeerShare | src/main/java/edu/unifor/clysman/chat/net/PeerNode.java:238-252 | a `null` list is ignored; only the peer table changes; at most 3 dials |
| NodeProtocol.PeerShareMergesAndDials | src/main/java/edu/unifor/clysman/chat/net/PeerNode.java:238-252 | the table becomes the merge of the list and the dials are the first three candidates |
| NodeProtocol.PeerShareDialsOnlyStrangers | src/main/java/edu/unifor/clysman/chat/net/PeerNode.java:247-249 | every dial targets a candidate that has an id, is not connected and is not the node |
| NodeProtocol.BroadcastChat | src/main/java/edu/unifor/clysman/chat/net/PeerNode.java:254-261 | the new CHAT is marked seen and shown to the UI exactly once |
| NodeProtocol.BroadcastChatReachesAll | src/main/java/edu/unifor/clysman/chat/net/PeerNode.java:254-268 | every running handler receives one copy per peer id it serves, with no exclusion |
| NodeProtocol.OwnChatEchoIsDropped | src/main/java/edu/unifor/clysman/chat/net/PeerNode.java:257 | a copy of the node's own CHAT that floods back is dropped with no event and no send |
| NodeProtocol.OnLineReceived | src/main/java/edu/unifor/clysman/chat/net/PeerNode.java:154-175 | an unparsable line reports a processing failure; a `null` message or unknown type changes nothing; pending is never touched |
| NodeLifecycle.OnHandlerStopped | src/main/java/edu/unifor/clysman/chat/net/PeerNode.java:145-152 | removes the connection entry under the handler's peer id whichever handler it names, reports the peer once, removes the pending key, never touches the peer table |
| NodeLifecycle.StopHandler | src/main/java/edu/unifor/clysman/chat/net/ConnectionHandler.java:53-59 | stopping a handler at the node changes only that handler and, if it was running, the two handler maps |
| NodeLifecycle.StopDisconnectsOnce | src/main/java/edu/unifor/clysman/chat/net/PeerNode.java:145-150 | stopping a running greeted handler reports its peer once, and a second stop reports nothing |
| NodeLifecycle.FailedStartNeverGreets | src/main/java/edu/unifor/clysman/chat/net/ConnectionHandler.java:35-41 | a handler whose streams fail gets no HELLO, leaves the pending map, and causes no event |
| NodeLifecycle.StartHandlerGreets | src/main/java/edu/unifor/clysman/chat/net/ConnectionHandler.java:33-50 | a handler started at the node whose streams open is greeted exactly as `onHandlerStarted` greets it, and the UI hears nothing |
| NodeLifecycle.WriterStepIgnoresEnv | src/main/java/edu/unifor/clysman/chat/net/ConnectionHandler.java:80-92 | a writer step at the node does not depend on the parse result, clock or fresh ids it is given: its only notice is a stop |
| NodeLifecycle.StoppedReaderIsIdle | src/main/java/edu/unifor/clysman/chat/net/ConnectionHandler.java:71 | the reader of a handler that no longer runs changes nothing and reports nothing |
| NodeLifecycle.ReaderForwardsLine | src/main/java/edu/unifor/clysman/chat/net/ConnectionHandler.java:71-72 | a line read by a running handler is exactly one `onLineReceived` call on that handler |
| NodeLifecycle.ReaderStopsAtEnd | src/main/java/edu/unifor/clysman/chat/net/ConnectionHandler.java:71-77 | end of stream or a read error on a running handler is exactly a stop of that handler |
| NodeLifecycle.Accept | src/main/java/edu/unifor/clysman/chat/net/PeerNode.java:101-110 | while running and listening an incoming socket becomes a new pending handler under its remote address; otherwise nothing changes |
| NodeLifecycle.AcceptFailed | src/main/java/edu/unifor/clysman/chat/net/PeerNode.java:111-113 | an accept error ends listening and is reported only while running |
| NodeLifecycle.Connect | src/main/java/edu/unifor/clysman/chat/net/PeerNode.java:116-133 | a null host or non-port number does nothing; a refused connection reports a failure; a connection adds one handler and ends by reporting it |
| NodeLifecycle.OutboundDialSendsTwoHellos | src/main/java/edu/unifor/clysman/chat/net/PeerNode.java:124-127 | a dialled connection whose streams open holds exactly two HELLOs with the same peer table: the first from `onHandlerStarted`, the second from the dialling task with its own fresh id |
| NodeLifecycle.OnDatagram | src/main/java/edu/unifor/clysman/chat/net/PeerNode.java:93-95 | only the discovery service changes; an announce is reported, as one `PeerDiscovered`, iff the service runs and receives and accepts it; with the service running a malformed datagram changes nothing |
| NodeLifecycle.StopAllStopsExactly | src/main/java/edu/unifor/clysman/chat/net/PeerNode.java:282-287 | stopping a snapshot stops exactly the listed handlers and no queue changes |
| NodeLifecycle.ShutdownAsWritten | src/main/java/edu/unifor/clysman/chat/net/PeerNode.java:270-290 | `shutdown` as written: a no-op unless running; then the node is stopped, not listening, discovery is gone, the peer table is kept and the last event is the shutdown status |
| NodeLifecycle.Shutdown | src/main/java/edu/unifor/clysman/chat/net/PeerNode.java:270-290 | a no-op unless running; then the node is stopped, not listening, discovery is gone, the peer table is kept and the last event is the shutdown status |
| NodeLifecycle.ShutdownStopsEveryHandler | src/main/java/edu/unifor/clysman/chat/net/PeerNode.java:282-287 | after shutdown a handler runs iff it ran before and was in neither map |
| NodeLifecycle.ShutdownIsIdempotent | src/main/java/edu/unifor/clysman/chat/net/PeerNode.java:271 | shutting down twice is shutting down once |
| NodeLifecycle.ShutdownMissesSharedKey | src/main/java/edu/unifor/clysman/chat/net/PeerNode.java:145-152 | two handlers to one remote address: as written the pending one survives shutdown, corrected it is stopped |

## Left out

- Threads, executors and interleaving: every loop iteration and every pool task is one atomic step, and the order of steps is the caller's choice. The interrupts sent by `stop` and `shutdownNow` are not modelled. A pool task submitted after `shutdownNow` is rejected in Java; the model does not represent the pool.
- Sockets: binding, connecting (with its 4-second timeout), stream creation, reads, writes and multicast membership are inputs. TTL, address reuse and the 1024-byte datagram buffer with its truncation are left out.
- JSON parsing is an oracle. The line parser's answer arrives as `Messages.Decoded` and the announce parser's as `Discovery.ParsedAnnounce`. The model does not prove that parsing inverts `Wire.Encode`.
- Wire.Encode: the model does not prove that the encoding is injective, nor that it matches the serializer's number formatting for every value. Only the line safety the framing needs is stated.
- Discovery.PayloadText: the discovery serializer also escapes `<`, `>`, `&`, `=` and `'`, and the model does not. Only line safety is stated about the text.
- The wall clock and `UUID.randomUUID` are inputs (`NodeState.Env`). `Connect` draws two ids from one `Env`.
- The UI is assumed present. The `ui != null` checks only drop events.
- The map iteration order is fixed to insertion order, which is one legal order.
- The remote key of a socket without a remote address is a random UUID in the accept loop. The model keys such sockets by their endpoint text.
- Message history, the Swing window and the bootstrap are not part of this model.
- Discovery.Start: when the multicast socket cannot be opened, the node's `start` throws after listening. `NodeStart.Listen` records this as the `DiscoveryFailed` outcome.
- NodeProtocol.HandleChat: its contract states the null-id case and what stays unchanged. The delivery, flood and dedup behaviour for a CHAT with an id is stated by `DuplicateChatIsDropped`, `FirstChatIsFlooded` and `ChatWithoutSenderFails`.
- NodeLifecycle.OnDatagram: the node passes datagrams through the corrected `Discovery.Receive`, so at the node a malformed datagram is skipped instead of ending discovery as `DiscoveryService.java:95-101` does. The as-written loop is `Discovery.ReceiveAsWritten` (Findings).
- NodeStart.StartAsWritten: with every attempted port busy, the accept thread's failure report and the "listening" report race in Java. The model places the accept-loop report first.
- NodeLifecycle.Connect: `connectAsync` with a `null` host or an out-of-range port throws inside the pool task, so the dial vanishes silently. A connection whose streams fail still reports "connected".

## Findings

| source | as written | input that shows it | evidently intended | confidence | as-written member | corrected member |
|---|---|---|---|---|---|---|
| src/main/java/edu/unifor/clysman/chat/net/PeerNode.java:72-80 | the probe builds the socket address inside a `try` that catches only `IOException`, for ports up to `configuredPort + 49` | configured port 65535 with that port taken: the probe reaches 65536, `InetSocketAddress` throws `IllegalArgumentException` out of `start`, the running flag stays set and every later `start` returns at once | numbers past 65535 count as ports that cannot be bound, and a probe that binds no port makes `start` fail and reset the flag | medium, not executed | NodeStart.StartAsWritten, NodeStart.LastPortBusyCrashesStart | NodeStart.Start |
| src/main/java/edu/unifor/clysman/chat/net/PeerNode.java:72-86 | the loop assigns `ss = new ServerSocket()` before each `bind`, and `start` fails only when `ss == null` | configured port 5000 with ports 5000 to 5049 all taken: after 50 failed binds `ss` is an unbound socket, so `start` records port 5050, starts the accept loop (whose `accept` fails at once), announces 5050 and reports listening on it, with the running flag set | a probe that binds no port makes `start` fail and reset the flag | medium, not executed | NodeStart.StartAsWritten, NodeStart.AllPortsBusyListensNowhere | NodeStart.Start |
| src/main/java/edu/unifor/clysman/chat/net/DiscoveryService.java:95-101 | the receive loop parses each datagram inside a `try` that catches only `IOException` | a datagram whose text is `hello` sent to 230.0.0.1:4446: the parser's syntax exception ends the receive thread, and no announce is reported afterwards although the service says it is running | a malformed datagram is skipped like one of the wrong type | medium, not executed | Discovery.ReceiveAsWritten, Discovery.BadDatagramEndsDiscovery | Discovery.Receive |
| src/main/java/edu/unifor/clysman/chat/net/PeerNode.java:145-152 | `onHandlerStopped` removes the pending entry under its remote key whichever handler it names, and `shutdown` snapshots the pending map only after stopping the connected handlers | two outbound connections to /10.0.0.2:5000, the first greeted and the second still pending under the same key: stopping the first removes the second's pending entry, so `shutdown` never stops the second | `shutdown` stops every handler held in either map, both snapshots taken before any stop | low, not executed | NodeLifecycle.ShutdownAsWritten, NodeLifecycle.ShutdownMissesSharedKey | NodeLifecycle.Shutdown |
