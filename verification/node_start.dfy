/**
 * Starting a node (PeerNode.start): a compare-and-set guard, then probing for a
 * listening port from the configured one onwards, then starting discovery.
 * Which ports can be bound is an input, the set `free`; whether the multicast
 * socket opens is the input `multicastOk`.
 */
module NodeStart {
  import opened Wrappers
  import opened JavaInts
  import opened NodeState
  import Discovery

  /** A port number `InetSocketAddress` accepts; any other makes it throw `IllegalArgumentException`. */
  predicate PortInRange(p: int) {
    0 <= p <= 65535
  }

  /**
   * How one probe loop ends: bound to a port, out of attempts with nothing ever
   * tried, out of attempts after every bind failed (the socket object is kept,
   * unbound, and the counter stands at `port`), or an unchecked exception at `port`.
   */
  datatype Probe = Bound(port: int) | Exhausted | AllBusy(port: int) | Threw(port: int)

  /**
   * The probe loop as written, from `port` up to the exclusive `bound`. A port the
   * socket address rejects throws an exception that `catch (IOException)` does not
   * catch, so it escapes the loop.
   */
  function ProbeFrom(port: int, bound: int, free: set<int>): (r: Probe)
    ensures r.Bound? ==> port <= r.port < bound && r.port in free && PortInRange(r.port)
    ensures r.Threw? ==> port <= r.port < bound && !PortInRange(r.port)
    ensures r.Exhausted? ==> forall q :: port <= q < bound ==> PortInRange(q) && q !in free
    ensures !r.AllBusy?
    decreases bound - port
  {
    if port >= bound then Exhausted
    else if !PortInRange(port) then Threw(port)
    else if port in free then Bound(port)
    else ProbeFrom(port + 1, bound, free)
  }

  /** A wrapped `int` sum that still lies above `x` did not wrap. */
  lemma BoundAboveIsExact(x: int32, d: nat)
    requires d < 0x8000_0000 && x < Wrap32(x + d)
    ensures Wrap32(x + d) == x + d
  {
  }

  /**
   * `start`'s loop as written: `port < configuredPort + 50`, where the sum is a Java
   * `int`. The loop assigns `ss = new ServerSocket()` before each `bind`, so once its
   * body has run `ss` is not `null`, even if no bind succeeded.
   */
  function ProbeAsWritten(configured: int32, free: set<int>): (r: Probe)
    ensures r == Exhausted <==> configured >= Wrap32(configured + PORT_ATTEMPTS)
    ensures r.AllBusy? ==>
              && r.port == configured + PORT_ATTEMPTS == Wrap32(configured + PORT_ATTEMPTS)
              && forall q :: configured <= q < r.port ==> PortInRange(q) && q !in free
    ensures r.Bound? ==> configured <= r.port < configured + PORT_ATTEMPTS && r.port in free && PortInRange(r.port)
    ensures r.Threw? ==> configured <= r.port < configured + PORT_ATTEMPTS && !PortInRange(r.port)
  {
    var bound := Wrap32(configured + PORT_ATTEMPTS);
    if configured >= bound then Exhausted
    else
      BoundAboveIsExact(configured, PORT_ATTEMPTS);
      match ProbeFrom(configured, bound, free)
      case Exhausted => AllBusy(bound)
      case other => other
  }

  /**
   * The probe as evidently intended: the first free port among the attempts,
   * treating a number that is not a port as one that cannot be bound.
   */
  function FirstFree(port: int, bound: int, free: set<int>): (r: Option<int>)
    ensures r.Some? ==> port <= r.value < bound && PortInRange(r.value) && r.value in free
    ensures r.Some? ==> forall q :: port <= q < r.value && PortInRange(q) ==> q !in free
    ensures r.None? ==> forall q :: port <= q < bound && PortInRange(q) ==> q !in free
    decreases bound - port
  {
    if port >= bound then None
    else if PortInRange(port) && port in free then Some(port)
    else FirstFree(port + 1, bound, free)
  }

  /**
   * Where every attempted number is a port, the loop as written and the intended
   * probe agree: both find the first free port, or both run out.
   */
  lemma {:induction false} ProbeAgreesOnPorts(port: int, bound: int, free: set<int>)
    requires 0 <= port && bound <= 65536
    ensures ProbeFrom(port, bound, free)
            == match FirstFree(port, bound, free) case None => Exhausted case Some(p) => Bound(p)
    decreases bound - port
  {
    if port < bound && port !in free {
      ProbeAgreesOnPorts(port + 1, bound, free);
    }
  }

  /** How `start` ends. */
  datatype StartOutcome =
    | AlreadyRunning
    | StartedOn(port: int32)
    | NoFreePort
    | DiscoveryFailed(port: int32)
    | Crashed(at: int)

  /** The node once bound to `port`: listening, with a discovery service started for that port. */
  function Listen(n: Node, port: int32, multicastOk: bool): (r: (Node, StartOutcome, seq<Event>))
    requires Valid(n)
    ensures Valid(r.0) && r.0.running && r.0.listening && r.0.listenPort == port
    ensures r.0 == n.(running := true, listenPort := port, listening := true, discovery := r.0.discovery)
    ensures r.0.discovery.Some? && r.0.discovery.value.myPort == port && r.0.discovery.value.myId == n.myId
    ensures r.1 == (if multicastOk then StartedOn(port) else DiscoveryFailed(port))
    ensures r.2 == (if multicastOk then [Status(Listening(port, n.myId))] else [])
  {
    var (service, ok) := Discovery.Start(Discovery.Create(n.myId, n.myName, port), multicastOk);
    var n1 := n.(running := true, listenPort := port, listening := true, discovery := Some(service));
    if ok then (n1, StartedOn(port), [Status(Listening(port, n.myId))])
    else (n1, DiscoveryFailed(port), [])
  }

  /**
   * `start` as written. On a running node it does nothing. Otherwise it binds the
   * first free port of the attempts. Only when the loop bound wraps below the
   * configured port does the loop not run, leaving `ss` `null`: then the flag is
   * reset and `start` fails. When every attempted port is busy, `start` goes on with
   * the unbound socket: it records the counter, one past the last attempt, as its
   * port, starts discovery announcing it and reports that it listens there, while
   * the accept loop fails on its first `accept` and reports that. (The accept
   * thread is started first, so its report is placed first.) A probe that reaches
   * a number above 65535 throws out of `start` with the flag still set. A
   * discovery failure also throws out of `start`, but only after the node is
   * listening.
   */
  function StartAsWritten(n: Node, free: set<int>, multicastOk: bool): (r: (Node, StartOutcome, seq<Event>))
    requires Valid(n)
    ensures Valid(r.0)
    ensures n.running ==> r == (n, AlreadyRunning, [])
    ensures r.1 == NoFreePort ==> r == (n, NoFreePort, []) && n.configuredPort >= Wrap32(n.configuredPort + PORT_ATTEMPTS)
    ensures r.1.Crashed? ==> r == (n.(running := true), r.1, []) && !PortInRange(r.1.at)
    ensures (r.1.StartedOn? || r.1.DiscoveryFailed?) ==>
              && r.0.running && r.0.listenPort == r.1.port
              && r.0.discovery.Some? && r.0.discovery.value.myPort == r.1.port
    ensures (r.1.StartedOn? || r.1.DiscoveryFailed?) && r.0.listening ==>
              n.configuredPort <= r.1.port < n.configuredPort + PORT_ATTEMPTS && r.1.port in free
    ensures (r.1.StartedOn? || r.1.DiscoveryFailed?) && !r.0.listening ==>
              && r.1.port == n.configuredPort + PORT_ATTEMPTS
              && (forall q :: n.configuredPort <= q < r.1.port ==> q !in free)
              && |r.2| >= 1 && r.2[0] == Status(AcceptLoopEnded)
  {
    if n.running then (n, AlreadyRunning, [])
    else
      match ProbeAsWritten(n.configuredPort, free)
      case Exhausted => (n, NoFreePort, [])
      case Threw(p) => (n.(running := true), Crashed(p), [])
      case Bound(p) => Listen(n, p as int32, multicastOk)
      case AllBusy(p) =>
        var (n1, o, e) := Listen(n, p as int32, multicastOk);
        (n1.(listening := false), o, [Status(AcceptLoopEnded)] + e)
  }

  /**
   * `start` as evidently intended: numbers beyond the port range count as ports
   * that cannot be bound, so a node that finds no port is left stopped and can be
   * started again.
   */
  function Start(n: Node, free: set<int>, multicastOk: bool): (r: (Node, StartOutcome, seq<Event>))
    requires Valid(n)
    ensures Valid(r.0)
    ensures n.running ==> r == (n, AlreadyRunning, [])
    ensures !n.running ==> !r.1.Crashed? && !r.1.AlreadyRunning?
    ensures r.1 == NoFreePort <==> !n.running && forall q :: n.configuredPort <= q < n.configuredPort + PORT_ATTEMPTS && PortInRange(q) ==> q !in free
    ensures r.1 == NoFreePort ==> r == (n, NoFreePort, [])
    ensures (r.1.StartedOn? || r.1.DiscoveryFailed?) ==>
              && r.0.running && r.0.listening && r.0.listenPort == r.1.port
              && n.configuredPort <= r.1.port < n.configuredPort + PORT_ATTEMPTS && r.1.port in free
              && forall q :: n.configuredPort <= q < r.1.port && PortInRange(q) ==> q !in free
  {
    if n.running then (n, AlreadyRunning, [])
    else
      match FirstFree(n.configuredPort, n.configuredPort + PORT_ATTEMPTS, free)
      case None => (n, NoFreePort, [])
      case Some(p) => Listen(n, p as int32, multicastOk)
  }

  /** Starting twice is starting once. */
  lemma StartIsIdempotent(n: Node, free: set<int>, free': set<int>, ok: bool, ok': bool)
    requires Valid(n)
    requires var (n1, o, e) := Start(n, free, ok); o != NoFreePort
    ensures var (n1, o, e) := Start(n, free, ok); Start(n1, free', ok') == (n1, AlreadyRunning, [])
  {
  }

  /**
   * For configured ports whose attempts stay within the port range, the fix
   * changes nothing as long as some attempted port is free.
   */
  lemma StartAgreesWithinRange(n: Node, free: set<int>, ok: bool)
    requires Valid(n) && 0 <= n.configuredPort <= 65536 - PORT_ATTEMPTS
    requires exists q :: n.configuredPort <= q < n.configuredPort + PORT_ATTEMPTS && q in free
    ensures StartAsWritten(n, free, ok) == Start(n, free, ok)
  {
    ProbeAgreesOnPorts(n.configuredPort, n.configuredPort + PORT_ATTEMPTS, free);
  }

  /**
   * The discrepancy: configured port 65535 with that port taken. The loop as
   * written goes on to 65536, which throws out of `start` with the flag still set,
   * so every later `start` is a silent no-op. The intended probe reports that no
   * port is free and leaves the node startable.
   */
  lemma LastPortBusyCrashesStart(n: Node, free: set<int>, ok: bool)
    requires Valid(n) && !n.running && n.configuredPort == 65535 && 65535 !in free
    ensures var (n1, o, e) := StartAsWritten(n, free, ok);
      o == Crashed(65536) && n1.running && StartAsWritten(n1, free + {65535}, ok).1 == AlreadyRunning
    ensures var (n1, o, e) := Start(n, free, ok);
      o == NoFreePort && !n1.running && Start(n1, free + {65535}, ok).0.listenPort == 65535
  {
    assert ProbeFrom(65536, Wrap32(65535 + PORT_ATTEMPTS), free) == Threw(65536);
    assert ProbeAsWritten(65535, free) == Threw(65536);
    assert FirstFree(65536, 65535 + PORT_ATTEMPTS, free) == None;
    assert FirstFree(65535, 65535 + PORT_ATTEMPTS, free + {65535}) == Some(65535);
  }

  /**
   * The discrepancy when every attempted port is busy: as written, `start` succeeds
   * on an unbound socket. The node runs, claims the port one past the last attempt,
   * announces it, reports that it listens there and that its accept loop ended,
   * and cannot be started again. The intended start reports that no port is free
   * and leaves the node as it was.
   */
  lemma AllPortsBusyListensNowhere(n: Node, free: set<int>, ok: bool)
    requires Valid(n) && !n.running && 0 <= n.configuredPort <= 65536 - PORT_ATTEMPTS
    requires forall q :: n.configuredPort <= q < n.configuredPort + PORT_ATTEMPTS ==> q !in free
    ensures var (n1, o, e) := StartAsWritten(n, free, ok);
      && o == (if ok then StartedOn(n.configuredPort + PORT_ATTEMPTS) else DiscoveryFailed(n.configuredPort + PORT_ATTEMPTS))
      && n1.running && !n1.listening && n1.listenPort == n.configuredPort + PORT_ATTEMPTS
      && e[0] == Status(AcceptLoopEnded)
      && StartAsWritten(n1, free, ok).1 == AlreadyRunning
    ensures Start(n, free, ok) == (n, NoFreePort, [])
  {
    ProbeAgreesOnPorts(n.configuredPort, n.configuredPort + PORT_ATTEMPTS, free);
  }
}
