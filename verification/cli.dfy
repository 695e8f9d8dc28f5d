/** The `__main__` block of port_scanner.py without argparse and the banner:
    a missing target stops the program, the port list comes from `-p` or
    from the fixed default list, an empty parsed list stops the program, and
    otherwise the scan runs. Every stop, a host that does not resolve, an
    uncaught `ValueError` or `OverflowError` from the parser and an interrupt all end with exit
    status 1; a scan that reaches the end of its list ends with 0. */
module Cli {
  import opened Results
  import opened PortSpec
  import opened Scanner

  /** Used when `-p` is absent or empty. Note that it is not in ascending
      order: the scan visits 3306, then 139, then 135. */
  const DefaultPorts: seq<int> := [21, 22, 23, 25, 80, 443, 445, 8080, 8443, 3306, 139, 135]

  datatype CliError =
    | MissingTarget
    | BadSpec(cause: ParseError)
    | NoValidPorts
    | UnresolvedHost(host: string)

  /** Python's truthiness of an optional argument: absent or empty is false. */
  predicate Given(arg: Option<string>) {
    arg.Some? && arg.value != ""
  }

  /** `if args.ports: ... else: ports = [21, 22, ...]`: the default list when
      `-p` is absent or empty; otherwise the parsed list, which must not be
      empty, and whose exception ends the program. Whatever is returned is a
      non-empty list of valid ports, and a parsed one is ascending without
      duplicates. */
  function ChoosePorts(spec: Option<string>): (r: Result<seq<int>, CliError>)
    ensures !Given(spec) ==> r == Ok(DefaultPorts)
    ensures Given(spec) ==> (r.Ok? <==> ParsePorts(spec.value).Ok? && ParsePorts(spec.value).value != [])
    ensures Given(spec) ==> (r == Err(NoValidPorts) <==> ParsePorts(spec.value) == Ok([]))
    ensures Given(spec) && ParsePorts(spec.value).Ok? && ParsePorts(spec.value).value != [] ==>
      r == Ok(ParsePorts(spec.value).value)
    ensures Given(spec) && ParsePorts(spec.value).Err? ==> r == Err(BadSpec(ParsePorts(spec.value).error))
    ensures Given(spec) && r.Ok? ==> StrictlyAscending(r.value)
    ensures r.Ok? ==> |r.value| > 0 && forall p :: p in r.value ==> IsPort(p)
  {
    if Given(spec) then
      match ParsePorts(spec.value)
      case Err(e) => Err(BadSpec(e))
      case Ok(ports) => if ports == [] then Err(NoValidPorts) else Ok(ports)
    else
      Ok(DefaultPorts)
  }

  /** The whole program: a missing target stops it first, a rejected port
      list next, an unresolvable host after that; otherwise it is the scan
      of the chosen ports, and every printed line is about one of them. */
  function RunProgram(target: Option<string>, spec: Option<string>, level: int, showAll: bool, net: Network)
    : (r: Result<Report, CliError>)
    ensures !Given(target) ==> r == Err(MissingTarget)
    ensures r.Ok? ==> ChoosePorts(spec).Ok?
    ensures r.Ok? ==> forall o :: o in r.value.lines ==> o.port in ChoosePorts(spec).value
    ensures Given(target) && ChoosePorts(spec).Err? ==> r == Err(ChoosePorts(spec).error)
    ensures Given(target) && ChoosePorts(spec).Ok? ==>
      && (r.Err? <==> net.resolve(target.value).None?)
      && (r.Err? ==> r.error == UnresolvedHost(target.value))
      && (r.Ok? ==> r.value == Scan(target.value, ChoosePorts(spec).value, level, showAll, net).value)
  {
    if !Given(target) then
      Err(MissingTarget)
    else
      var ports :- ChoosePorts(spec);
      match Scan(target.value, ports, level, showAll, net)
      case Err(InvalidHost(h)) => Err(UnresolvedHost(h))
      case Ok(report) => Ok(report)
  }

  /** The process exit status. */
  function ExitStatus(r: Result<Report, CliError>): nat {
    if r.Ok? && !r.value.interrupted then 0 else 1
  }

  /** The program exits with 0 exactly when a target was given, the ports
      were chosen without error, the host resolved and no interrupt came. */
  lemma ExitZero(target: Option<string>, spec: Option<string>, level: int, showAll: bool, net: Network)
    ensures ExitStatus(RunProgram(target, spec, level, showAll, net)) == 0 <==>
      && Given(target)
      && ChoosePorts(spec).Ok?
      && net.resolve(target.value).Some?
      && !Sweep(ChoosePorts(spec).value, net.resolve(target.value).value,
                Timing.ProfileFor(level).timeoutMs, net).interrupted
  {
  }

  /** A list that parses to no valid port at all (`"0,70000"`) is rejected
      rather than scanned as empty. */
  lemma OutOfRangeOnlyIsRejected(spec: string)
    requires spec != ""
    requires ParsePorts(spec).Ok?
    requires forall p :: !(IsPort(p) && Mentions(spec, p))
    ensures ChoosePorts(Some(spec)) == Err(NoValidPorts)
  {
    var r := ParsePorts(spec).value;
    forall p
      ensures p !in r && multiset(r)[p] == 0
    {
      assert !(IsPort(p) && Mentions(spec, p));
    }
    assert multiset(r) == multiset{};
  }

  /** The default list holds twelve distinct valid ports, and it is not
      ascending, so a scan without `-p` does not probe in port order. */
  lemma DefaultPortsShape()
    ensures |DefaultPorts| == 12
    ensures forall i :: 0 <= i < |DefaultPorts| ==> IsPort(DefaultPorts[i])
    ensures forall i, j :: 0 <= i < j < |DefaultPorts| ==> DefaultPorts[i] != DefaultPorts[j]
    ensures !StrictlyAscending(DefaultPorts)
  {
    assert DefaultPorts[9] > DefaultPorts[10];
  }
}
