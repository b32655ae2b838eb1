/**
 * The fleet health check of `tools/device_fleet_health.py`: reading the
 * `adb devices -l` listing, tallying phase events and test points in a
 * device's output, narrowing the fleet to the requested serials, and the
 * pass/failure rule for one device and for the whole run. The adb calls,
 * the instrumentation run and its clock are parameters.
 */
module FleetHealth {
  import opened Wrappers
  import opened Text
  import opened JsonValues
  import opened PhaseEvents
  import opened TestPoints
  import opened LaunchConfig

  const ListHeader := "List of devices"
  const ReadyState := "device"
  const ErrorType := "error"

  datatype DeviceRecord = DeviceRecord(serial: string, state: string, attributes: map<string, string>)

  // ---------------------------------------------------------------------------
  // `adb devices -l`

  /** One `key:value` token, cut at the first `:`, kept when both halves are non-empty. */
  function AttributeOf(token: string): (r: Option<(string, string)>)
    ensures r.Some? ==> r.value.0 != [] && r.value.1 != [] && !Contains(r.value.0, ":")
    ensures r.Some? ==> r.value.0 + ":" + r.value.1 == token
    ensures !Contains(token, ":") ==> r.None?
  {
    match SplitFirst(token, ":")
    case Some((key, value)) => if key != [] && value != [] then Some((key, value)) else None
    case None => None
  }

  /** The attributes of the tokens after the state; a later key wins. */
  function Attributes(tokens: seq<string>): (m: map<string, string>)
    ensures forall k | k in m :: k != [] && m[k] != [] && !Contains(k, ":")
    ensures forall k | k in m :: exists i | 0 <= i < |tokens| :: tokens[i] == k + ":" + m[k]
  {
    var m := KeyedLast(tokens, AttributeOf);
    forall k | k in m
      ensures k != [] && m[k] != [] && !Contains(k, ":") && exists i | 0 <= i < |tokens| :: tokens[i] == k + ":" + m[k]
    {
      var i :| 0 <= i < |tokens| && AttributeOf(tokens[i]) == Some((k, m[k]));
      assert tokens[i] == k + ":" + m[k];
    }
    m
  }

  /** One line of the listing: blank lines, the header and lone serials give no record. */
  function DeviceOfLine(line: string): (r: Option<DeviceRecord>)
    ensures Strip(line) == [] || StartsWith(Strip(line), ListHeader) ==> r.None?
    ensures |SplitWhitespace(Strip(line))| < 2 ==> r.None?
    ensures r.Some? ==> r.value.serial != [] && r.value.state != []
    ensures r.Some? ==> forall c | c in r.value.serial + r.value.state :: !IsSpace(c)
  {
    var stripped := Strip(line);
    if stripped == [] || StartsWith(stripped, ListHeader) then None
    else
      var parts := SplitWhitespace(stripped);
      if |parts| < 2 then None
      else Some(DeviceRecord(parts[0], parts[1], Attributes(parts[2..])))
  }

  /** `parse_devices_output`. */
  function ParseDevicesOutput(raw: string): (r: seq<DeviceRecord>)
    ensures forall k | 0 <= k < |r| :: r[k].serial != [] && r[k].state != []
  {
    FilterMap(Lines(raw), DeviceOfLine)
  }

  /** The header does not fit a line made of a space-free serial, one space and a space-free state. */
  lemma NotHeader(serial: string, state: string)
    requires forall i | 0 <= i < |serial| :: !IsSpace(serial[i])
    requires forall i | 0 <= i < |state| :: !IsSpace(state[i])
    ensures !StartsWith(serial + " " + state, ListHeader)
  {
    var s := serial + " " + state;
    if |ListHeader| <= |s| {
      var p := if |serial| == 4 then 7 else 4;
      assert !IsSpace(s[p]) by {
        if p < |serial| {
          assert s[p] == serial[p];
        } else {
          assert s[p] == state[p - |serial| - 1];
        }
      }
      assert ListHeader[p] == ' ';
      assert s[..|ListHeader|][p] != ListHeader[p];
    }
  }

  /** A line `<serial> <state>` is read back as that device, with no attributes. */
  lemma DeviceLineOf(serial: string, state: string)
    requires serial != [] && forall i | 0 <= i < |serial| :: !IsSpace(serial[i])
    requires state != [] && forall i | 0 <= i < |state| :: !IsSpace(state[i])
    ensures DeviceOfLine(serial + " " + state) == Some(DeviceRecord(serial, state, map[]))
  {
    var line := serial + " " + state;
    assert Strip(line) == line by {
      LineTrimmed(serial, state);
    }
    assert !StartsWith(line, ListHeader) by {
      NotHeader(serial, state);
    }
    assert SplitWhitespace(line) == [serial, state] by {
      SplitWhitespaceTwo(serial, " ", state);
    }
    assert Attributes([]) == map[];
  }

  lemma LineTrimmed(serial: string, state: string)
    requires serial != [] && forall i | 0 <= i < |serial| :: !IsSpace(serial[i])
    requires state != [] && forall i | 0 <= i < |state| :: !IsSpace(state[i])
    ensures Strip(serial + " " + state) == serial + " " + state
  {
    var line := serial + " " + state;
    StripPadded([], line, []);
    assert [] + line + [] == line;
  }

  /** A lone `key:value` token gives exactly that attribute. */
  lemma AttributeTokenOf(key: string, value: string)
    requires key != [] && value != [] && !Contains(key, ":")
    ensures Attributes([key + ":" + value]) == map[key := value]
  {
    var token := key + ":" + value;
    var r := SplitFirst(token, ":");
    assert r.Some? by {
      assert OccursAt(token, ":", |key|);
      ContainsAt(token, ":", |key|);
    }
    SplitFirstUnique(r.value.0, r.value.1, key, value, ":");
    assert FilterMap([token], AttributeOf) == [(key, value)];
    assert LastWins([(key, value)]) == map[key := value] by {
      assert [(key, value)][..0] == [];
    }
  }

  // ---------------------------------------------------------------------------
  // Phase and test point tallies

  /** The phase event of a line, if it is one. */
  function PhaseParser(decode: string -> Option<Json>): string -> Option<PhaseEvent> {
    line => ParsePhaseEvent(line, decode)
  }

  /** The phase events among the lines, in order. */
  function ParsedEvents(lines: seq<string>, decode: string -> Option<Json>): seq<PhaseEvent> {
    FilterMap(lines, PhaseParser(decode))
  }

  predicate IsErrorEvent(e: PhaseEvent) {
    Lower(e.phaseType) == ErrorType
  }

  function TypesOf(events: seq<PhaseEvent>): (r: seq<string>)
    ensures |r| == |events| && forall i | 0 <= i < |events| :: r[i] == events[i].phaseType
  {
    seq(|events|, i requires 0 <= i < |events| => events[i].phaseType)
  }

  /** The event tally: how often each type occurs, and the error events in order. */
  datatype PhaseSummary = PhaseSummary(counts: multiset<string>, errors: seq<PhaseEvent>)

  /** The error events of the lines, in order. */
  function PhaseErrors(lines: seq<string>, decode: string -> Option<Json>): seq<PhaseEvent> {
    Filter(ParsedEvents(lines, decode), IsErrorEvent)
  }

  /** One more event adds its type to the counts and, if it is an error, itself to the errors. */
  lemma SummaryStep(events: seq<PhaseEvent>, e: PhaseEvent)
    ensures multiset(TypesOf(events + [e])) == multiset(TypesOf(events)) + multiset{e.phaseType}
    ensures Filter(events + [e], IsErrorEvent) == Filter(events, IsErrorEvent) + (if IsErrorEvent(e) then [e] else [])
  {
    assert TypesOf(events + [e]) == TypesOf(events) + [e.phaseType];
    assert (events + [e])[..|events|] == events;
  }

  /** The tally of a sequence of events. */
  method SummarizeEvents(events: seq<PhaseEvent>) returns (summary: PhaseSummary)
    ensures |summary.counts| == |events|
    ensures summary.counts == multiset(TypesOf(events))
    ensures summary.errors == Filter(events, IsErrorEvent)
  {
    summary := PhaseSummary(multiset{}, []);
    for i := 0 to |events|
      invariant summary.counts == multiset(TypesOf(events[..i]))
      invariant summary.errors == Filter(events[..i], IsErrorEvent)
    {
      var e := events[i];
      assert events[..i + 1] == events[..i] + [e];
      SummaryStep(events[..i], e);
      summary := PhaseSummary(summary.counts + multiset{e.phaseType},
                              summary.errors + (if IsErrorEvent(e) then [e] else []));
    }
    assert events[..|events|] == events;
  }

  /**
   * `gather_phase_metrics`: the counts add up to the number of lines that
   * are phase events, each type counted as often as it occurs, and the
   * errors are the events whose type is `error` in any case, in order.
   */
  method GatherPhaseMetrics(lines: seq<string>, decode: string -> Option<Json>) returns (summary: PhaseSummary)
    ensures |summary.counts| == |ParsedEvents(lines, decode)|
    ensures summary.counts == multiset(TypesOf(ParsedEvents(lines, decode)))
    ensures summary.errors == PhaseErrors(lines, decode)
  {
    summary := SummarizeEvents(ParsedEvents(lines, decode));
  }

  /** The test point of a line, if it names one. */
  function PointOf(line: string): Option<TestPoint> {
    match ParseTestpoint(line)
    case Some(ev) => Some(ev.0)
    case None => None
  }

  /** `gather_testpoint_metrics`: each parsed test point counted once, other lines ignored. */
  method GatherTestpointMetrics(lines: seq<string>) returns (counts: multiset<TestPoint>)
    ensures counts == multiset(FilterMap(lines, PointOf))
    ensures |counts| <= |lines|
  {
    counts := CountPresent(lines, PointOf);
  }

  // ---------------------------------------------------------------------------
  // Choosing the devices

  /** `filter_devices`: no filter keeps every record; otherwise the requested serials, in order. */
  function FilterDevices(records: seq<DeviceRecord>, devices: Option<seq<string>>): (r: seq<DeviceRecord>)
    ensures devices.None? || devices.value == [] ==> r == records
    ensures devices.Some? && devices.value != [] ==>
      forall d :: d in r <==> d in records && d.serial in devices.value
    ensures |r| <= |records|
  {
    if devices.None? || devices.value == [] then records
    else
      var wanted := set s | s in devices.value;
      Filter(records, (d: DeviceRecord) => d.serial in wanted)
  }

  /** The filter works record by record, so it keeps the listing's order. */
  lemma FilterDevicesAppend(a: seq<DeviceRecord>, b: seq<DeviceRecord>, devices: Option<seq<string>>)
    ensures FilterDevices(a + b, devices) == FilterDevices(a, devices) + FilterDevices(b, devices)
  {
    if devices.Some? && devices.value != [] {
      var wanted := set s | s in devices.value;
      FilterAppend(a, b, (d: DeviceRecord) => d.serial in wanted);
    }
  }

  // ---------------------------------------------------------------------------
  // One device's verdict

  /** Why a device failed; `ReasonText` gives the message printed for it. */
  datatype FailureReason =
    | ResolutionFailed(message: string)
    | ComponentNotFound
    | TimedOut
    | ExitedWith(code: int)
    | PhaseErrorsReported
    | ReportedFailure
    | DeviceState(state: string)

  const ExitedPrefix: string := "Instrumentation exited with code "

  /** The human-readable message a failure reason is reported with; never empty. */
  function ReasonText(reason: FailureReason): (r: string)
    ensures r != []
    ensures reason.ExitedWith? ==> StartsWith(r, ExitedPrefix)
  {
    match reason
    case ResolutionFailed(message) => "Instrumentation resolution failed: " + message
    case ComponentNotFound => "Instrumentation component not found"
    case TimedOut => "Instrumentation timed out"
    case ExitedWith(code) => ExitedPrefix + IntToString(code)
    case PhaseErrorsReported => "Harness reported phase errors"
    case ReportedFailure => "Instrumentation reported failure"
    case DeviceState(state) => "Device state is " + state
  }

  /** The exit code can be read back from the message that reports it. */
  lemma ReasonTextExitCode(code: int)
    ensures ParseInt(ReasonText(ExitedWith(code))[|ExitedPrefix|..]) == Some(code)
  {
    var r := ReasonText(ExitedWith(code));
    assert r[|ExitedPrefix|..] == IntToString(code);
    IntToStringRoundTrip(code);
  }

  /** What the instrumentation run produced: whether it was killed on timeout, its exit code, its output. */
  datatype RunOutcome = RunOutcome(timedOut: bool, exitCode: Option<int>, lines: seq<string>)

  datatype HealthcheckResult = HealthcheckResult(
    serial: string,
    state: string,
    component: Option<string>,
    passed: bool,
    failure: Option<FailureReason>)

  /** A usable component: resolution returned a non-empty one. */
  predicate Resolved(resolution: Result<Option<string>, string>) {
    resolution.Success? && resolution.value.Some? && resolution.value.value != []
  }

  /**
   * `execute_healthcheck` for a device, given what the component lookup
   * returned (or the message it raised) and the run's outcome: the device
   * passes exactly when nothing went wrong, a failing device always has a
   * reason, and the first cause in the order timeout, exit code, phase
   * errors decides it.
   */
  function ExecuteHealthcheck(record: DeviceRecord, resolution: Result<Option<string>, string>,
                              run: RunOutcome, decode: string -> Option<Json>): (r: HealthcheckResult)
    ensures r.serial == record.serial && r.state == record.state
    ensures r.passed <==> r.failure.None?
    ensures r.passed <==>
      Resolved(resolution) && !run.timedOut && run.exitCode == Some(0) && PhaseErrors(run.lines, decode) == []
    ensures resolution.Failure? ==> r.failure == Some(ResolutionFailed(resolution.error))
    ensures resolution.Success? && !Resolved(resolution) ==> r.failure == Some(ComponentNotFound)
    ensures Resolved(resolution) && run.timedOut ==> r.failure == Some(TimedOut)
    ensures Resolved(resolution) && !run.timedOut && run.exitCode.Some? && run.exitCode.value != 0 ==>
      r.failure == Some(ExitedWith(run.exitCode.value))
    ensures Resolved(resolution) && r.failure == Some(PhaseErrorsReported) ==> PhaseErrors(run.lines, decode) != []
    ensures (Resolved(resolution) && !run.timedOut && (run.exitCode.None? || run.exitCode == Some(0)) &&
             PhaseErrors(run.lines, decode) != []) ==> r.failure == Some(PhaseErrorsReported)
    ensures Resolved(resolution) && !run.timedOut && run.exitCode.None? && PhaseErrors(run.lines, decode) == [] ==>
      r.failure == Some(ReportedFailure)
  {
    if !Resolved(resolution) then
      var reason := if resolution.Failure? then ResolutionFailed(resolution.error) else ComponentNotFound;
      HealthcheckResult(record.serial, record.state, None, false, Some(reason))
    else
      var errors := PhaseErrors(run.lines, decode);
      var passed := !run.timedOut && run.exitCode == Some(0) && errors == [];
      var failure :=
        if passed then None
        else if run.timedOut then Some(TimedOut)
        else if run.exitCode.Some? && run.exitCode.value != 0 then Some(ExitedWith(run.exitCode.value))
        else if errors != [] then Some(PhaseErrorsReported)
        else Some(ReportedFailure);
      HealthcheckResult(record.serial, record.state, resolution.value, passed, failure)
  }

  // ---------------------------------------------------------------------------
  // The whole run

  /**
   * What the fleet run learns about one device: how its component lookup
   * ended and how its instrumentation run went. Only devices in the ready
   * state are probed.
   */
  type Probe = DeviceRecord -> (Result<Option<string>, string>, RunOutcome)

  /** The result of one device: one not in the `device` state fails without being probed. */
  function ResultFor(record: DeviceRecord, probe: Probe, decode: string -> Option<Json>): (r: HealthcheckResult)
    ensures r.serial == record.serial
    ensures record.state != ReadyState ==> !r.passed && r.failure == Some(DeviceState(record.state))
    ensures r.passed ==> record.state == ReadyState
  {
    if record.state != ReadyState then
      HealthcheckResult(record.serial, record.state, None, false, Some(DeviceState(record.state)))
    else
      var (resolution, run) := probe(record);
      ExecuteHealthcheck(record, resolution, run, decode)
  }

  function Results(records: seq<DeviceRecord>, probe: Probe, decode: string -> Option<Json>): (rs: seq<HealthcheckResult>)
    ensures |rs| == |records|
    ensures forall i | 0 <= i < |records| :: rs[i] == ResultFor(records[i], probe, decode)
  {
    seq(|records|, i requires 0 <= i < |records| => ResultFor(records[i], probe, decode))
  }

  predicate AllPassed(results: seq<HealthcheckResult>) {
    forall i | 0 <= i < |results| :: results[i].passed
  }

  /**
   * `main`: the exit code of a run, or the error of the `--extra-arg` it
   * could not parse. `listing` is the output of `adb devices -l` (`None`
   * when adb failed), `devices` the `--device` serials, and `written`
   * whether the JSON report was written (`None` without `--output-json`).
   */
  function FleetMain(listing: Option<string>, devices: Option<seq<string>>, extraArgs: seq<string>,
                     probe: Probe, decode: string -> Option<Json>, written: Option<bool>): (r: Result<int, string>)
    ensures listing.None? ==> r == Success(2)
    ensures listing.Some? && FilterDevices(ParseDevicesOutput(listing.value), devices) == [] ==> r == Success(1)
    ensures r.Failure? ==> ParseExtraArgs(extraArgs).Failure?
    ensures r.Success? ==> r.value == 0 || r.value == 1 || r.value == 2
    ensures r == Success(0) <==>
      && listing.Some?
      && FilterDevices(ParseDevicesOutput(listing.value), devices) != []
      && ParseExtraArgs(extraArgs).Success?
      && written != Some(false)
      && AllPassed(Results(FilterDevices(ParseDevicesOutput(listing.value), devices), probe, decode))
  {
    match listing
    case None => Success(2)
    case Some(raw) =>
      var records := FilterDevices(ParseDevicesOutput(raw), devices);
      if records == [] then Success(1)
      else
        match ParseExtraArgs(extraArgs)
        case Failure(item) => Failure(item)
        case Success(_) =>
          var results := Results(records, probe, decode);
          if written == Some(false) then Success(1)
          else if AllPassed(results) then Success(0)
          else Success(1)
  }

  /** One device outside the `device` state fails the whole run. */
  lemma UnreadyDeviceFailsRun(listing: string, devices: Option<seq<string>>, extraArgs: seq<string>,
                              probe: Probe, decode: string -> Option<Json>, written: Option<bool>, i: nat)
    requires i < |FilterDevices(ParseDevicesOutput(listing), devices)|
    requires FilterDevices(ParseDevicesOutput(listing), devices)[i].state != ReadyState
    ensures FleetMain(Some(listing), devices, extraArgs, probe, decode, written) != Success(0)
  {
    var records := FilterDevices(ParseDevicesOutput(listing), devices);
    assert !Results(records, probe, decode)[i].passed;
  }
}
