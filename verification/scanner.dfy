/** The per-port loop of `scan` (port_scanner.py) with the network replaced
    by injected capabilities: host name resolution, one connection attempt
    on a fresh socket under the profile's timeout, and the service-name
    database. Every port is tried once, in list order; a zero result code
    is OPEN (named by the database, or "unknown"), any other code is
    CLOSED, an exception is ERROR, and an interrupt ends the scan. */
module Scanner {
  import opened Results
  import opened Timing

  /** What one attempt comes back with: `connect_ex`'s result code, an
      exception other than an interrupt (with its message), or the user's
      interrupt (`KeyboardInterrupt`). */
  datatype Attempt = Connected(code: int) | Raised(reason: string) | Interrupted

  /** The classification of one port. */
  datatype Outcome = Open(port: int, service: string) | Closed(port: int) | Failed(port: int, reason: string)

  /** `gethostbyname`, a connection attempt to (address, port) under a
      timeout in milliseconds, and the `getservbyport` table as a partial map. */
  datatype Network = Network(
    resolve: string -> Option<string>,
    connect: (string, int, nat) -> Attempt,
    services: map<int, string>)

  /** The outcomes of the ports visited, and whether an interrupt stopped
      the loop before the end of the list. */
  datatype Run = Run(outcomes: seq<Outcome>, interrupted: bool)

  /** `getservbyport(port)`, with "unknown" when the lookup raises. */
  function ServiceName(services: map<int, string>, port: int): string {
    if port in services then services[port] else "unknown"
  }

  /** The outcome `o` is what the attempt `a` on `port` classifies as. */
  ghost predicate ClassifiedAs(o: Outcome, port: int, a: Attempt, services: map<int, string>) {
    && o.port == port
    && (o.Open? <==> a == Connected(0))
    && (o.Closed? <==> a.Connected? && a.code != 0)
    && (o.Failed? <==> a.Raised?)
    && (o.Open? ==> o.service == (if port in services then services[port] else "unknown"))
    && (o.Failed? ==> o.reason == a.reason)
  }

  function Classify(port: int, a: Attempt, services: map<int, string>): Outcome
    requires !a.Interrupted?
  {
    match a
    case Connected(code) => if code == 0 then Open(port, ServiceName(services, port)) else Closed(port)
    case Raised(reason) => Failed(port, reason)
  }

  /** `for port in ports`: one outcome per port, in list order, each the
      classification of that port's attempt, up to the first interrupt;
      an interrupt leaves no outcome for its port or any later one. */
  function Sweep(ports: seq<int>, address: string, timeoutMs: nat, net: Network): (r: Run)
    ensures |r.outcomes| <= |ports|
    ensures !r.interrupted ==> |r.outcomes| == |ports|
    ensures r.interrupted ==> |r.outcomes| < |ports| && net.connect(address, ports[|r.outcomes|], timeoutMs).Interrupted?
    ensures r.interrupted <==> exists i :: 0 <= i < |ports| && net.connect(address, ports[i], timeoutMs).Interrupted?
    ensures forall i :: 0 <= i < |r.outcomes| ==>
      && !net.connect(address, ports[i], timeoutMs).Interrupted?
      && ClassifiedAs(r.outcomes[i], ports[i], net.connect(address, ports[i], timeoutMs), net.services)
  {
    if |ports| == 0 then
      Run([], false)
    else
      var a := net.connect(address, ports[0], timeoutMs);
      if a.Interrupted? then
        Run([], true)
      else
        var rest := Sweep(ports[1..], address, timeoutMs, net);
        assert forall i :: 1 <= i < |ports| ==> ports[i] == ports[1..][i - 1];
        Run([Classify(ports[0], a, net.services)] + rest.outcomes, rest.interrupted)
  }

  /** The printed report: every OPEN outcome, and CLOSED and ERROR outcomes
      only with `show_all`, in the order they were produced. */
  function Visible(outcomes: seq<Outcome>, showAll: bool): (v: seq<Outcome>)
    ensures forall o :: o in v <==> o in outcomes && (showAll || o.Open?)
    ensures |v| <= |outcomes|
    ensures showAll ==> v == outcomes
  {
    if |outcomes| == 0 then
      []
    else
      var rest := Visible(outcomes[1..], showAll);
      assert forall o :: o in outcomes <==> o == outcomes[0] || o in outcomes[1..];
      if showAll || outcomes[0].Open? then [outcomes[0]] + rest else rest
  }

  /** Filtering commutes with appending: each outcome's line can be printed
      as soon as its port is done. */
  lemma {:induction false} VisibleStreams(a: seq<Outcome>, b: seq<Outcome>, showAll: bool)
    ensures Visible(a + b, showAll) == Visible(a, showAll) + Visible(b, showAll)
  {
    if |a| > 0 {
      assert (a + b)[1..] == a[1..] + b;
      VisibleStreams(a[1..], b, showAll);
    } else {
      assert a + b == b;
    }
  }

  datatype ScanError = InvalidHost(host: string)

  /** What the user sees: the printed lines, and whether the scan ended with
      "Interrupted by user." (and exit status 1). */
  datatype Report = Report(lines: seq<Outcome>, interrupted: bool)

  /** `scan(target, ports, t_level, show_all)`: fails before any probe when
      the host does not resolve; otherwise every printed line is about a
      port of the list, and without `show_all` every printed line is OPEN. */
  function Scan(target: string, ports: seq<int>, level: int, showAll: bool, net: Network): (r: Result<Report, ScanError>)
    ensures r.Err? <==> net.resolve(target).None?
    ensures r.Err? ==> r.error == InvalidHost(target)
    ensures r.Ok? ==> forall o :: o in r.value.lines ==> o.port in ports
    ensures r.Ok? && !showAll ==> forall o :: o in r.value.lines ==> o.Open?
    ensures r.Ok? ==> |r.value.lines| <= |ports|
  {
    match net.resolve(target)
    case None => Err(InvalidHost(target))
    case Some(address) =>
      var run := Sweep(ports, address, ProfileFor(level).timeoutMs, net);
      assert forall o :: o in run.outcomes ==> o.port in ports by {
        forall o | o in run.outcomes ensures o.port in ports {
          var i :| 0 <= i < |run.outcomes| && run.outcomes[i] == o;
        }
      }
      Ok(Report(Visible(run.outcomes, showAll), run.interrupted))
  }

  /** The attempt the scan makes on `port` for `target` at `level`. */
  function AttemptOn(target: string, port: int, level: int, net: Network): Attempt
    requires net.resolve(target).Some?
  {
    net.connect(net.resolve(target).value, port, ProfileFor(level).timeoutMs)
  }

  /** A completed sweep keeps the OPEN outcome of every port whose attempt
      connected, even without `show_all`. */
  lemma OpenIsShown(ports: seq<int>, address: string, timeoutMs: nat, net: Network, i: nat)
    requires !Sweep(ports, address, timeoutMs, net).interrupted
    requires i < |ports| && net.connect(address, ports[i], timeoutMs) == Connected(0)
    ensures Sweep(ports, address, timeoutMs, net).outcomes[i] in Visible(Sweep(ports, address, timeoutMs, net).outcomes, false)
    ensures Sweep(ports, address, timeoutMs, net).outcomes[i].port == ports[i]
  {
    var outcomes := Sweep(ports, address, timeoutMs, net).outcomes;
    assert outcomes[i] in outcomes;
  }

  /** Without `show_all`, an outcome kept for a port is an attempt that
      connected. */
  lemma ShownIsOpen(ports: seq<int>, address: string, timeoutMs: nat, net: Network, o: Outcome)
    requires o in Visible(Sweep(ports, address, timeoutMs, net).outcomes, false)
    ensures net.connect(address, o.port, timeoutMs) == Connected(0)
  {
    var outcomes := Sweep(ports, address, timeoutMs, net).outcomes;
    var j :| 0 <= j < |outcomes| && outcomes[j] == o;
    assert ClassifiedAs(o, ports[j], net.connect(address, ports[j], timeoutMs), net.services);
  }

  /** Without `show_all`, a completed sweep keeps an outcome for a port of
      the list exactly when that port's attempt connected. */
  lemma OpenOnlyRun(ports: seq<int>, address: string, timeoutMs: nat, net: Network, port: int)
    requires !Sweep(ports, address, timeoutMs, net).interrupted
    requires port in ports
    ensures (exists o :: o in Visible(Sweep(ports, address, timeoutMs, net).outcomes, false) && o.port == port)
        <==> net.connect(address, port, timeoutMs) == Connected(0)
  {
    var lines := Visible(Sweep(ports, address, timeoutMs, net).outcomes, false);
    if net.connect(address, port, timeoutMs) == Connected(0) {
      var i :| 0 <= i < |ports| && ports[i] == port;
      OpenIsShown(ports, address, timeoutMs, net, i);
    }
    if exists o :: o in lines && o.port == port {
      var o :| o in lines && o.port == port;
      ShownIsOpen(ports, address, timeoutMs, net, o);
    }
  }

  /** Without `show_all`, a completed scan prints a line for a port of the
      list exactly when that port's attempt connected: a closed or failing
      port leaves no trace, an open one always shows. */
  lemma OpenOnlyReport(target: string, ports: seq<int>, level: int, net: Network, port: int)
    requires Scan(target, ports, level, false, net).Ok?
    requires !Scan(target, ports, level, false, net).value.interrupted
    requires port in ports
    ensures (exists o :: o in Scan(target, ports, level, false, net).value.lines && o.port == port)
        <==> AttemptOn(target, port, level, net) == Connected(0)
  {
    OpenOnlyRun(ports, net.resolve(target).value, ProfileFor(level).timeoutMs, net, port);
  }

  /** With `show_all`, a completed scan prints one line per port of the
      list, in list order, each the port's classification. */
  lemma ShowAllReport(target: string, ports: seq<int>, level: int, net: Network)
    requires Scan(target, ports, level, true, net).Ok?
    requires !Scan(target, ports, level, true, net).value.interrupted
    ensures var lines := Scan(target, ports, level, true, net).value.lines;
      && |lines| == |ports|
      && forall i :: 0 <= i < |ports| ==>
        ClassifiedAs(lines[i], ports[i], AttemptOn(target, ports[i], level, net), net.services)
  {
  }

  /** An interrupt at some port stops the scan there: the lines printed are
      about earlier ports only, and nothing is printed for that port or any
      later one. */
  lemma InterruptStops(target: string, ports: seq<int>, level: int, showAll: bool, net: Network, k: nat)
    requires net.resolve(target).Some?
    requires k < |ports| && AttemptOn(target, ports[k], level, net).Interrupted?
    requires forall i :: 0 <= i < k ==> !AttemptOn(target, ports[i], level, net).Interrupted?
    ensures Scan(target, ports, level, showAll, net).Ok?
    ensures Scan(target, ports, level, showAll, net).value.interrupted
    ensures forall o :: o in Scan(target, ports, level, showAll, net).value.lines ==> o.port in ports[..k]
  {
    var address := net.resolve(target).value;
    var run := Sweep(ports, address, ProfileFor(level).timeoutMs, net);
    var n := |run.outcomes|;
    assert n == k;
    forall o | o in Scan(target, ports, level, showAll, net).value.lines
      ensures o.port in ports[..k]
    {
      var j :| 0 <= j < n && run.outcomes[j] == o;
      assert ports[..k][j] == ports[j];
    }
  }
}
