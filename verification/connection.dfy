/**
 * One TCP connection (net/ConnectionHandler.java) as a small state machine. The
 * reader and writer threads become single steps: `ReadStep` is one iteration of
 * the reader loop, `WriteStep` one iteration of the writer loop. Each operation
 * returns the handler's new state and the calls it makes on its owning node, in
 * order, as `Notice`s.
 */
module Connection {
  import opened Wrappers
  import opened JavaInts
  import opened Peers
  import opened Messages
  import opened Wire

  /** The socket's remote address: its printed form, host address and port. */
  datatype Endpoint = Endpoint(text: string, host: string, port: int32)

  /**
   * `remote` is `None` when the socket reports no remote address. `closed` records
   * that the socket has been closed (a closed socket cannot open its streams
   * again). `queue` is the outbound queue of serialized lines, oldest first, and
   * `written` everything the writer has flushed to the socket so far.
   */
  datatype Handler = Handler(
    remote: Option<Endpoint>,
    running: bool,
    closed: bool,
    queue: seq<string>,
    written: string,
    peerInfo: Option<PeerInfo>)

  /** The calls a handler makes on its node: `onHandlerStarted`, `onHandlerStopped`, `onLineReceived`. */
  datatype Notice = Started | Stopped | LineReceived(line: string)

  /** A fresh handler around a connected socket: not running, nothing queued, no peer yet. */
  function Create(remote: Option<Endpoint>): (h: Handler) {
    Handler(remote, false, false, [], [], None)
  }

  /** The key under which the node files a pending handler; "unknown" without a remote address. */
  function RemoteKey(h: Handler): (k: string)
    ensures h.remote.Some? ==> k == h.remote.value.text
    ensures h.remote.None? ==> k == "unknown"
  {
    match h.remote
    case None => "unknown"
    case Some(e) => e.text
  }

  /** The remote host address, "unknown" when there is none. */
  function RemoteHost(h: Handler): (host: string)
    ensures h.remote.Some? ==> host == h.remote.value.host
    ensures h.remote.None? ==> host == "unknown"
  {
    match h.remote
    case None => "unknown"
    case Some(e) => e.host
  }

  /** The remote port; an unconnected socket reports 0. */
  function RemotePort(h: Handler): (port: int32)
    ensures h.remote.Some? ==> port == h.remote.value.port
    ensures h.remote.None? ==> port == 0
  {
    match h.remote
    case None => 0
    case Some(e) => e.port
  }

  /**
   * `stop`: a compare-and-set from running to stopped. Only the call that wins it
   * closes the socket and tells the node; every other call does nothing.
   */
  function Stop(h: Handler): (r: (Handler, seq<Notice>))
    ensures r.1 == (if h.running then [Stopped] else [])
    ensures !r.0.running
    ensures r.0.queue == h.queue && r.0.written == h.written && r.0.peerInfo == h.peerInfo
  {
    if !h.running then (h, [])
    else (h.(running := false, closed := true), [Stopped])
  }

  /**
   * `start`: a compare-and-set from stopped to running, then opening the streams.
   * `streamsOk` is whether the socket's streams open; on a closed socket they never
   * do. When they fail the handler stops again at once, so the node hears
   * `Stopped` and never `Started`.
   */
  function Start(h: Handler, streamsOk: bool): (r: (Handler, seq<Notice>))
    ensures h.running ==> r == (h, [])
    ensures !h.running ==> (r.1 == [Started] <==> streamsOk && !h.closed)
    ensures !h.running ==> (r.1 == [Stopped] <==> !streamsOk || h.closed)
    ensures r.0.running <==> h.running || (streamsOk && !h.closed)
    ensures r.0.queue == h.queue && r.0.written == h.written && r.0.peerInfo == h.peerInfo
  {
    if h.running then (h, [])
    else
      var started := h.(running := true);
      if !streamsOk || h.closed then Stop(started)
      else (started, [Started])
  }

  /** `send`: one serialized line at the tail of the queue, and only while running. */
  function Send(h: Handler, m: Message): (h': Handler)
    ensures h'.queue == if h.running then h.queue + [Encode(m)] else h.queue
    ensures h'.running == h.running && h'.written == h.written && h'.peerInfo == h.peerInfo
  {
    if h.running then h.(queue := h.queue + [Encode(m)]) else h
  }

  /** What one `readLine` call returns: a line, `null` at end of stream, or an I/O error. */
  datatype ReadResult = Line(text: string) | EndOfStream | ReadError

  /**
   * One iteration of the reader loop. A line goes to the node; end of stream or
   * an error leaves the loop, whose `finally` stops the handler. A handler that is
   * no longer running leaves the loop without reading.
   */
  function ReadStep(h: Handler, result: ReadResult): (r: (Handler, seq<Notice>))
    ensures !h.running ==> r == (h, [])
    ensures h.running && result.Line? ==> r == (h, [LineReceived(result.text)])
    ensures h.running && !result.Line? ==> r.1 == [Stopped] && !r.0.running
  {
    if !h.running then (h, [])
    else
      match result
      case Line(text) => (h, [LineReceived(text)])
      case _ => Stop(h)
  }

  /**
   * One iteration of the writer loop: take the oldest queued line and write it
   * followed by "\n". `ok` is whether the write and flush succeed; a failure stops
   * the handler and the taken line is lost. With an empty queue the writer is
   * blocked and nothing happens.
   */
  function WriteStep(h: Handler, ok: bool): (r: (Handler, seq<Notice>))
    ensures !h.running || h.queue == [] ==> r == (h, [])
    ensures h.running && h.queue != [] && ok ==>
              r == (h.(queue := h.queue[1..], written := h.written + h.queue[0] + "\n"), [])
    ensures h.running && h.queue != [] && !ok ==>
              r.1 == [Stopped] && r.0.queue == h.queue[1..] && r.0.written == h.written
  {
    if !h.running || h.queue == [] then (h, [])
    else
      var taken := h.(queue := h.queue[1..]);
      if ok then (taken.(written := h.written + h.queue[0] + "\n"), [])
      else Stop(taken)
  }

  /** Every queued line is a single line: true of everything `Send` enqueues. */
  predicate QueueSafe(h: Handler) {
    forall i :: 0 <= i < |h.queue| ==> LineSafe(h.queue[i])
  }

  /** The operations that drive a handler, from its owner or its own threads. */
  datatype Op =
    | StartOp(streamsOk: bool)
    | StopOp
    | SendOp(m: Message)
    | ReadOp(result: ReadResult)
    | WriteOp(ok: bool)

  /** One operation. */
  function Step(h: Handler, op: Op): (Handler, seq<Notice>) {
    match op
    case StartOp(ok) => Start(h, ok)
    case StopOp => Stop(h)
    case SendOp(m) => (Send(h, m), [])
    case ReadOp(result) => ReadStep(h, result)
    case WriteOp(ok) => WriteStep(h, ok)
  }

  /** A sequence of operations, first to last, with all the notices in order. */
  function Run(h: Handler, ops: seq<Op>): (Handler, seq<Notice>)
    decreases |ops|
  {
    if ops == [] then (h, [])
    else
      var (h1, n1) := Step(h, ops[0]);
      var (h2, n2) := Run(h1, ops[1..]);
      (h2, n1 + n2)
  }

  /** How many `Stopped` notices a sequence holds. */
  function CountStopped(ns: seq<Notice>): (c: nat) {
    if ns == [] then 0 else (if ns[0] == Stopped then 1 else 0) + CountStopped(ns[1..])
  }

  /** How many `Started` notices a sequence holds. */
  function CountStarted(ns: seq<Notice>): (c: nat) {
    if ns == [] then 0 else (if ns[0] == Started then 1 else 0) + CountStarted(ns[1..])
  }

  /** How many start calls a sequence of operations makes. */
  function CountStarts(ops: seq<Op>): (c: nat) {
    if ops == [] then 0 else (if ops[0].StartOp? then 1 else 0) + CountStarts(ops[1..])
  }

  /** A flag as a count: 1 when set, 0 when not. */
  function B2I(b: bool): (c: nat) {
    if b then 1 else 0
  }

  /** Notice counts distribute over concatenation. */
  lemma {:induction false} CountConcat(a: seq<Notice>, b: seq<Notice>)
    ensures CountStopped(a + b) == CountStopped(a) + CountStopped(b)
    ensures CountStarted(a + b) == CountStarted(a) + CountStarted(b)
  {
    if a == [] {
      assert a + b == b;
    } else {
      assert (a + b)[1..] == a[1..] + b;
      CountConcat(a[1..], b);
    }
  }

  /**
   * The stop notification of one operation: a step emits exactly one `Stopped`
   * when it ends a running period that was open before it or that it opened itself
   * (a start whose streams fail), and none otherwise; it emits `Started` only for a
   * start that leaves the handler running.
   */
  lemma StepNotices(h: Handler, op: Op)
    ensures var (h', ns) := Step(h, op);
      && CountStopped(ns) + B2I(h'.running) == B2I(h.running || op.StartOp?)
      && CountStarted(ns) == B2I(op.StartOp? && !h.running && h'.running)
  {
  }

  /**
   * Exactly-once stop notification over any run: every running period, counting
   * one already open at the outset, is closed by at most one `Stopped`, and every
   * `Stopped` and every `Started` is paid for by a start call (or the open
   * period). A stopped handler that is started again and stopped again does
   * notify again: nothing guards against a restart.
   */
  lemma {:induction false} RunNotices(h: Handler, ops: seq<Op>)
    ensures var (h', ns) := Run(h, ops);
      && CountStopped(ns) + B2I(h'.running) <= B2I(h.running) + CountStarts(ops)
      && CountStarted(ns) <= CountStarts(ops)
    decreases |ops|
  {
    if ops != [] {
      var (h1, n1) := Step(h, ops[0]);
      var (h2, n2) := Run(h1, ops[1..]);
      StepNotices(h, ops[0]);
      RunNotices(h1, ops[1..]);
      CountConcat(n1, n2);
    }
  }

  /** Stopping twice notifies once. */
  lemma StopTwice(h: Handler)
    requires h.running
    ensures var (h1, n1) := Stop(h); var (h2, n2) := Stop(h1);
      n1 + n2 == [Stopped] && h2 == h1
  {
  }

  /** A stopped handler is not guarded against a later start: it notifies `Stopped` a second time. */
  lemma RestartNotifiesAgain(h: Handler, streamsOk: bool)
    requires h.running
    ensures var (h1, n1) := Stop(h); var (h2, n2) := Start(h1, streamsOk);
      n1 == [Stopped] && n2 == [Stopped] && !h2.running
  {
  }

  /** Sending keeps every queued line a single line. */
  lemma SendKeepsQueueSafe(h: Handler, m: Message)
    requires QueueSafe(h)
    ensures QueueSafe(Send(h, m))
  {
  }

  /** The writer drained `n` times with every write succeeding. */
  function Drain(h: Handler, n: nat): Handler
    decreases n
  {
    if n == 0 then h else Drain(WriteStep(h, true).0, n - 1)
  }

  /**
   * FIFO output: a running writer that drains its queue writes the queued lines in
   * order, each followed by "\n", after what it had already written.
   */
  lemma {:induction false} DrainWritesQueue(h: Handler)
    requires h.running
    ensures Drain(h, |h.queue|).written == h.written + Frame(h.queue)
    ensures Drain(h, |h.queue|).queue == []
    decreases |h.queue|
  {
    if h.queue != [] {
      var h1 := WriteStep(h, true).0;
      assert h1.queue == h.queue[1..] && h1.written == h.written + h.queue[0] + "\n" && h1.running;
      DrainWritesQueue(h1);
      assert h.written + Frame(h.queue) == h1.written + Frame(h1.queue);
    }
  }

  /** The node hearing each line in turn. */
  function Received(lines: seq<string>): (ns: seq<Notice>)
    ensures |ns| == |lines| && forall i :: 0 <= i < |lines| ==> ns[i] == LineReceived(lines[i])
  {
    if lines == [] then [] else [LineReceived(lines[0])] + Received(lines[1..])
  }

  /** The reader fed the lines of a stream one by one while the handler runs. */
  function ReadAll(h: Handler, lines: seq<string>): (r: (Handler, seq<Notice>))
    decreases |lines|
  {
    if lines == [] then (h, [])
    else
      var (h1, n1) := ReadStep(h, Line(lines[0]));
      var (h2, n2) := ReadAll(h1, lines[1..]);
      (h2, n1 + n2)
  }

  /** A running reader hands the node every line, in arrival order, and keeps running. */
  lemma {:induction false} ReadAllForwardsInOrder(h: Handler, lines: seq<string>)
    requires h.running
    ensures ReadAll(h, lines).0 == h
    ensures ReadAll(h, lines).1 == Received(lines)
    decreases |lines|
  {
    if lines != [] {
      ReadAllForwardsInOrder(h, lines[1..]);
    }
  }

  /** The messages a running handler was asked to send, in order, as lines. */
  function Sends(h: Handler, ms: seq<Message>): (h': Handler)
    decreases |ms|
  {
    if ms == [] then h else Sends(Send(h, ms[0]), ms[1..])
  }

  lemma {:induction false} SendsAppend(h: Handler, ms: seq<Message>)
    requires h.running
    ensures Sends(h, ms).running && Sends(h, ms).written == h.written
    ensures Sends(h, ms).queue == h.queue + Encodings(ms)
    decreases |ms|
  {
    if ms != [] {
      SendsAppend(Send(h, ms[0]), ms[1..]);
      QueueThenRest(h.queue, Encode(ms[0]), Encodings(ms[1..]));
    }
  }

  /**
   * Regrouping one queued line with the rest. Stated apart, with nothing else in
   * scope, so that `SendsAppend` does not search for it among its other facts.
   */
  lemma QueueThenRest(q: seq<string>, x: string, rest: seq<string>)
    ensures (q + [x]) + rest == q + ([x] + rest)
  {
  }

  /**
   * End to end over one connection: messages sent on a running handler with an
   * empty queue, once the writer has drained them, reach the reader on the other
   * side as exactly their encodings, in the order they were sent.
   */
  lemma DeliveredInOrder(h: Handler, ms: seq<Message>, peer: Handler)
    requires h.running && h.queue == [] && peer.running
    ensures var out := Drain(Sends(h, ms), |ms|);
      && out.written == h.written + Frame(Encodings(ms))
      && ReadAll(peer, ReadLines(Frame(Encodings(ms)))).1 == Received(Encodings(ms))
  {
    var sent := Sends(h, ms);
    SendsAppend(h, ms);
    assert sent.queue == Encodings(ms);
    DrainWritesQueue(sent);
    MessagesRoundTrip(ms);
    ReadAllForwardsInOrder(peer, Encodings(ms));
  }
}
