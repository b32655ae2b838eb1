/**
 * `HarnessContext`: what the screenshot script learns from the
 * instrumentation's output, as an immutable record advanced by pure step
 * functions. Messages printed to stderr are recorded as `Notice`s so that
 * the once-only guidance can be stated; their wording is not modelled.
 */
module HarnessSession {
  import opened Wrappers
  import opened Text
  import opened Sorting
  import opened JsonValues
  import opened TestPoints
  import opened PhaseEvents
  import opened PackageNames

  /**
   * What the context consults outside itself: the `pm list packages` output
   * of the device (`None` without a device or when the command fails) and
   * the JSON decoder.
   */
  datatype Env = Env(pm: Option<string>, decode: string -> Option<Json>)

  /** `(component, operation, attempt)`, the key phase events are grouped by. */
  type GroupKey = (string, string, int)

  function KeyOf(e: PhaseEvent): GroupKey {
    (e.component, e.operation, e.attempt)
  }

  /** What the phase timeline prints for one group. */
  datatype GroupSummary = GroupSummary(
    key: GroupKey,
    phases: seq<string>,
    context: map<string, string>,
    checkpoint: Option<Json>,
    detail: Option<Json>,
    error: Option<(Json, Json)>,
    nextAttempt: Option<int>)

  datatype Notice =
    | SystemCrashGuidance
    | MissingInstrumentationGuidance
    | PackageWarning(fallback: string)
    | PhaseAlert(event: PhaseEvent)
    | PhaseTimeline(groups: seq<GroupSummary>)

  datatype NoticeKind = SystemCrashKind | MissingInstrumentationKind | PackageWarningKind | AlertKind | TimelineKind

  function KindOf(n: Notice): NoticeKind {
    match n
    case SystemCrashGuidance => SystemCrashKind
    case MissingInstrumentationGuidance => MissingInstrumentationKind
    case PackageWarning(_) => PackageWarningKind
    case PhaseAlert(_) => AlertKind
    case PhaseTimeline(_) => TimelineKind
  }

  /** How many notices of kind `k` were printed. */
  function Count(ns: seq<Notice>, k: NoticeKind): nat {
    if ns == [] then 0
    else Count(ns[..|ns| - 1], k) + (if KindOf(ns[|ns| - 1]) == k then 1 else 0)
  }

  lemma CountAppend(ns: seq<Notice>, n: Notice, k: NoticeKind)
    ensures Count(ns + [n], k) == Count(ns, k) + (if KindOf(n) == k then 1 else 0)
  {
    assert (ns + [n])[..|ns|] == ns;
  }

  datatype Context = Context(
    package: Option<string>,
    readyFlags: seq<string>,
    doneFlags: seq<string>,
    captureCompleted: bool,
    systemCrash: bool,
    processCrash: bool,
    missingInstrumentation: bool,
    packageWarningEmitted: bool,
    systemCrashGuidanceEmitted: bool,
    missingInstrumentationGuidanceEmitted: bool,
    testpoints: Dispatcher,
    invocations: seq<Invocation>,
    components: set<string>,
    candidates: set<string>,
    phaseEvents: seq<PhaseEvent>,
    groups: map<GroupKey, seq<PhaseEvent>>,
    phaseGuidanceEmitted: bool,
    notices: seq<Notice>)

  const EmptyContext: Context := Context(
    None, [], [], false, false, false, false, false, false, false,
    EmptyDispatcher, [], {}, {}, [], map[], false, [])

  // ---------------------------------------------------------------------------
  // Invariant

  /** The events of group `k`, in arrival order. */
  function EventsWithKey(events: seq<PhaseEvent>, k: GroupKey): (r: seq<PhaseEvent>)
    ensures |r| <= |events|
    ensures forall i | 0 <= i < |r| :: KeyOf(r[i]) == k
  {
    if events == [] then []
    else
      var last := events[|events| - 1];
      EventsWithKey(events[..|events| - 1], k) + (if KeyOf(last) == k then [last] else [])
  }

  predicate GroupsValid(c: Context) {
    && (forall k | k in c.groups :: c.groups[k] == EventsWithKey(c.phaseEvents, k) && c.groups[k] != [])
    && (forall i | 0 <= i < |c.phaseEvents| :: KeyOf(c.phaseEvents[i]) in c.groups)
  }

  predicate NoticesValid(c: Context) {
    && Count(c.notices, SystemCrashKind) == (if c.systemCrashGuidanceEmitted then 1 else 0)
    && Count(c.notices, MissingInstrumentationKind) == (if c.missingInstrumentationGuidanceEmitted then 1 else 0)
    && Count(c.notices, PackageWarningKind) == (if c.packageWarningEmitted then 1 else 0)
    && Count(c.notices, TimelineKind) == (if c.phaseGuidanceEmitted then 1 else 0)
    && (c.systemCrashGuidanceEmitted ==> c.systemCrash)
    && (c.missingInstrumentationGuidanceEmitted ==> c.missingInstrumentation)
  }

  predicate FlagsValid(c: Context) {
    && Distinct(c.readyFlags)
    && (forall i | 0 <= i < |c.readyFlags| :: c.readyFlags[i] != [] && Strip(c.readyFlags[i]) == c.readyFlags[i])
    && (forall i | 0 <= i < |c.doneFlags| :: c.doneFlags[i] != [] && Strip(c.doneFlags[i]) == c.doneFlags[i])
    && (c.package.Some? ==> c.package.value != [] && c.package.value in c.candidates)
  }

  /**
   * What holds of every context the script builds: each guidance message,
   * the package warning and the timeline printed at most once (and exactly
   * when its flag is set), ready flags distinct, flags trimmed and non-empty,
   * the package among the candidates, and every phase event in its group.
   */
  predicate Valid(c: Context) {
    NoticesValid(c) && FlagsValid(c) && GroupsValid(c)
  }

  lemma EmptyContextValid()
    ensures Valid(EmptyContext)
  {
  }

  // ---------------------------------------------------------------------------
  // Package names

  /** `_normalize_package`. */
  function NormalizePackage(candidate: string, pm: Option<string>): (r: Option<string>)
    ensures r.Some? ==> r.value != []
    ensures Strip(candidate) == [] ==> r.None?
    ensures r == NormalizePackageName(Strip(candidate), pm)
  {
    var value := Strip(candidate);
    StripIdempotent(candidate);
    if value == [] then None
    else
      var normalized := NormalizePackageName(value, pm);
      if normalized.Some? && normalized.value != [] then normalized else None
  }

  /** `package or fallback`, for an optional package. */
  function PackageOr(package: Option<string>, fallback: string): string {
    if package.Some? && package.value != [] then package.value else fallback
  }

  /** `_maybe_set_package`: the context after the attempt, and whether a package was set. */
  function MaybeSetPackage(c: Context, candidate: string, suppressWarning: bool, env: Env): (r: (Context, bool))
    ensures r.1 <==> NormalizePackage(candidate, env.pm).Some?
    ensures r.1 ==> r.0 == c.(package := NormalizePackage(candidate, env.pm),
                              candidates := c.candidates + {NormalizePackage(candidate, env.pm).value})
    ensures !r.1 && (suppressWarning || c.packageWarningEmitted) ==> r.0 == c
    ensures !r.1 && !suppressWarning && !c.packageWarningEmitted ==>
      r.0 == c.(packageWarningEmitted := true,
                notices := c.notices + [PackageWarning(PackageOr(c.package, if candidate != [] then candidate else "<unknown>"))])
  {
    var normalized := NormalizePackage(candidate, env.pm);
    if normalized.Some? then
      (c.(package := normalized, candidates := c.candidates + {normalized.value}), true)
    else if !suppressWarning && !c.packageWarningEmitted then
      var fallback := PackageOr(c.package, if candidate != [] then candidate else "<unknown>");
      (c.(packageWarningEmitted := true, notices := c.notices + [PackageWarning(fallback)]), false)
    else (c, false)
  }

  lemma MaybeSetPackageValid(c: Context, candidate: string, suppressWarning: bool, env: Env)
    requires Valid(c)
    ensures Valid(MaybeSetPackage(c, candidate, suppressWarning, env).0)
  {
    var r := MaybeSetPackage(c, candidate, suppressWarning, env);
    var normalized := NormalizePackage(candidate, env.pm);
    if normalized.Some? {
      SetPackageValid(c, normalized.value);
    } else if !suppressWarning && !c.packageWarningEmitted {
      WarnPackageValid(c, PackageOr(c.package, if candidate != [] then candidate else "<unknown>"));
    }
  }

  /** Setting a non-empty package, recorded among the candidates, keeps a context valid. */
  lemma SetPackageValid(c: Context, package: string)
    requires Valid(c) && package != []
    ensures Valid(c.(package := Some(package), candidates := c.candidates + {package}))
  {
  }

  /** The first package warning keeps a context valid. */
  lemma WarnPackageValid(c: Context, fallback: string)
    requires Valid(c) && !c.packageWarningEmitted
    ensures Valid(c.(packageWarningEmitted := true, notices := c.notices + [PackageWarning(fallback)]))
  {
    CountAppend(c.notices, PackageWarning(fallback), SystemCrashKind);
    CountAppend(c.notices, PackageWarning(fallback), MissingInstrumentationKind);
    CountAppend(c.notices, PackageWarning(fallback), PackageWarningKind);
    CountAppend(c.notices, PackageWarning(fallback), TimelineKind);
  }

  /** `HarnessContext(fallback_package)`: a usable fallback is taken without a warning. */
  function Init(fallbackPackage: Option<string>, env: Env): (r: Context)
    ensures Valid(r)
    ensures r.notices == []
    ensures fallbackPackage.Some? && fallbackPackage.value != [] ==> r.package == NormalizePackage(fallbackPackage.value, env.pm)
    ensures fallbackPackage.None? ==> r.package.None?
  {
    EmptyContextValid();
    if fallbackPackage.Some? && fallbackPackage.value != [] then
      MaybeSetPackageValid(EmptyContext, fallbackPackage.value, true, env);
      MaybeSetPackage(EmptyContext, fallbackPackage.value, true, env).0
    else EmptyContext
  }

  /** A normalized package name, when there is one, joins the candidates. */
  function WithCandidate(c: Context, normalized: Option<string>): (r: Context)
    ensures r.candidates == c.candidates + (match normalized case Some(p) => {p} case None => {})
    ensures r == c.(candidates := r.candidates)
  {
    match normalized
    case Some(p) => c.(candidates := c.candidates + {p})
    case None => c
  }

  lemma WithCandidateValid(c: Context, normalized: Option<string>)
    requires Valid(c)
    ensures Valid(WithCandidate(c, normalized))
  {
  }

  /** `add_candidate_package`: only a name that normalizes is added. */
  function AddCandidatePackage(c: Context, candidate: string, env: Env): (r: Context)
    ensures NormalizePackage(candidate, env.pm).Some? ==>
      r == c.(candidates := c.candidates + {NormalizePackage(candidate, env.pm).value})
    ensures NormalizePackage(candidate, env.pm).None? ==> r == c
  {
    WithCandidate(c, NormalizePackage(candidate, env.pm))
  }

  /** The candidate a trimmed component contributes: its normalized package part, if any. */
  function ComponentCandidate(trimmed: string, env: Env): Option<string> {
    var package := Strip(Before(trimmed, "/"));
    if package != [] then NormalizePackage(package, env.pm) else None
  }

  /**
   * `register_instrumentation_component`: a non-blank component is recorded
   * and its package part offered as a candidate; nothing else changes.
   */
  function RegisterInstrumentationComponent(c: Context, component: string, env: Env): (r: Context)
    ensures Strip(component) == [] ==> r == c
    ensures Strip(component) != [] ==> r.components == c.components + {Strip(component)}
    ensures Strip(component) != [] ==>
      r.candidates == c.candidates + (match ComponentCandidate(Strip(component), env) case Some(p) => {p} case None => {})
    ensures r == c.(components := r.components, candidates := r.candidates)
  {
    var trimmed := Strip(component);
    if trimmed == [] then c
    else WithCandidate(c.(components := c.components + {trimmed}), ComponentCandidate(trimmed, env))
  }

  lemma RegisterInstrumentationComponentValid(c: Context, component: string, env: Env)
    requires Valid(c)
    ensures Valid(RegisterInstrumentationComponent(c, component, env))
  {
    var trimmed := Strip(component);
    if trimmed != [] {
      var c1 := c.(components := c.components + {trimmed});
      assert Valid(c1);
      WithCandidateValid(c1, ComponentCandidate(trimmed, env));
    }
  }

  // ---------------------------------------------------------------------------
  // Output lines

  /** `_handle_phase_event`: record the event in its group; an abort or retry is announced. */
  function HandlePhaseEvent(c: Context, e: PhaseEvent): (r: Context)
    ensures r.phaseEvents == c.phaseEvents + [e]
    ensures KeyOf(e) in r.groups && r.groups[KeyOf(e)] == (if KeyOf(e) in c.groups then c.groups[KeyOf(e)] else []) + [e]
    ensures forall k | k in c.groups && k != KeyOf(e) :: k in r.groups && r.groups[k] == c.groups[k]
    ensures r.groups.Keys == c.groups.Keys + {KeyOf(e)}
    ensures r.notices == c.notices + (if e.phaseType == "abort" || e.phaseType == "retry" then [PhaseAlert(e)] else [])
    ensures r == c.(phaseEvents := r.phaseEvents, groups := r.groups, notices := r.notices)
  {
    var key := KeyOf(e);
    var group := if key in c.groups then c.groups[key] else [];
    var alerts := if e.phaseType == "abort" || e.phaseType == "retry" then [PhaseAlert(e)] else [];
    c.(phaseEvents := c.phaseEvents + [e], groups := c.groups[key := group + [e]], notices := c.notices + alerts)
  }

  lemma EventsWithKeyAppend(events: seq<PhaseEvent>, e: PhaseEvent, k: GroupKey)
    ensures EventsWithKey(events + [e], k) == EventsWithKey(events, k) + (if KeyOf(e) == k then [e] else [])
  {
    assert (events + [e])[..|events|] == events;
  }

  /** A key none of the events carries has no events. */
  lemma {:induction false} EventsWithKeyAbsent(events: seq<PhaseEvent>, k: GroupKey)
    requires forall i | 0 <= i < |events| :: KeyOf(events[i]) != k
    ensures EventsWithKey(events, k) == []
    decreases |events|
  {
    if events != [] {
      EventsWithKeyAbsent(events[..|events| - 1], k);
    }
  }

  lemma HandlePhaseEventGroups(c: Context, e: PhaseEvent)
    requires GroupsValid(c)
    ensures GroupsValid(HandlePhaseEvent(c, e))
  {
    var r := HandlePhaseEvent(c, e);
    forall k | k in r.groups
      ensures r.groups[k] == EventsWithKey(r.phaseEvents, k) && r.groups[k] != []
    {
      EventsWithKeyAppend(c.phaseEvents, e, k);
      if k == KeyOf(e) && k !in c.groups {
        EventsWithKeyAbsent(c.phaseEvents, k);
      }
    }
  }

  /** A phase alert changes no count the invariant keeps. */
  lemma AlertNoticeValid(c: Context, e: PhaseEvent)
    requires NoticesValid(c)
    ensures NoticesValid(c.(notices := c.notices + [PhaseAlert(e)]))
  {
    CountAppend(c.notices, PhaseAlert(e), SystemCrashKind);
    CountAppend(c.notices, PhaseAlert(e), MissingInstrumentationKind);
    CountAppend(c.notices, PhaseAlert(e), PackageWarningKind);
    CountAppend(c.notices, PhaseAlert(e), TimelineKind);
  }

  lemma HandlePhaseEventNotices(c: Context, e: PhaseEvent)
    requires NoticesValid(c)
    ensures NoticesValid(HandlePhaseEvent(c, e))
  {
    var r := HandlePhaseEvent(c, e);
    var c1 := c.(phaseEvents := r.phaseEvents, groups := r.groups);
    assert NoticesValid(c1);
    if r.notices != c.notices {
      AlertNoticeValid(c1, e);
      assert r == c1.(notices := c1.notices + [PhaseAlert(e)]);
    } else {
      assert r == c1;
    }
  }

  lemma HandlePhaseEventValid(c: Context, e: PhaseEvent)
    requires Valid(c)
    ensures Valid(HandlePhaseEvent(c, e))
  {
    HandlePhaseEventGroups(c, e);
    HandlePhaseEventNotices(c, e);
  }

  const SystemCrashMarker: string := "System has crashed"
  const ProcessCrashMarker: string := "Process crashed"
  const MissingInstrumentationMarker: string := "Unable to find instrumentation info for"

  /** The testpoint step of `observe_line`: dispatch a parsed testpoint to the callbacks. */
  function ObserveTestpoint(c: Context, ev: Option<Event>): (r: Context)
    ensures ev.None? ==> r == c
    ensures ev.Some? ==>
      r == c.(testpoints := Dispatch(c.testpoints, ev.value.0, ev.value.1).0,
              invocations := c.invocations + Dispatch(c.testpoints, ev.value.0, ev.value.1).1)
  {
    match ev
    case Some((p, detail)) =>
      var (d, calls) := Dispatch(c.testpoints, p, detail);
      c.(testpoints := d, invocations := c.invocations + calls)
    case None => c
  }

  /** The phase-event step of `observe_line`. */
  function ObservePhase(c: Context, parsed: Option<PhaseEvent>): (r: Context)
    ensures parsed.None? ==> r == c
    ensures parsed.Some? ==> r == HandlePhaseEvent(c, parsed.value)
  {
    match parsed
    case Some(e) => HandlePhaseEvent(c, e)
    case None => c
  }

  /** The marker step of `observe_line`: flags are raised, never lowered. */
  function ObserveMarkers(c: Context, systemCrash: bool, processCrash: bool, missing: bool): (r: Context)
    ensures r.systemCrash == (c.systemCrash || systemCrash)
    ensures r.processCrash == (c.processCrash || processCrash)
    ensures r.missingInstrumentation == (c.missingInstrumentation || missing)
    ensures r == c.(systemCrash := r.systemCrash, processCrash := r.processCrash, missingInstrumentation := r.missingInstrumentation)
  {
    c.(systemCrash := c.systemCrash || systemCrash,
       processCrash := c.processCrash || processCrash,
       missingInstrumentation := c.missingInstrumentation || missing)
  }

  lemma ObserveTestpointValid(c: Context, ev: Option<Event>)
    requires Valid(c)
    ensures Valid(ObserveTestpoint(c, ev))
  {
  }

  lemma ObservePhaseValid(c: Context, parsed: Option<PhaseEvent>)
    requires Valid(c)
    ensures Valid(ObservePhase(c, parsed))
  {
    if parsed.Some? {
      HandlePhaseEventValid(c, parsed.value);
    }
  }

  lemma ObserveMarkersValid(c: Context, systemCrash: bool, processCrash: bool, missing: bool)
    requires Valid(c)
    ensures Valid(ObserveMarkers(c, systemCrash, processCrash, missing))
  {
  }

  /**
   * `"System has crashed" in line`, or the same on a line starting with
   * `INSTRUMENTATION_ABORTED` (which the first test already covers).
   */
  function SystemCrashSeen(stripped: string): (r: bool)
    ensures r == Contains(stripped, SystemCrashMarker)
  {
    Contains(stripped, SystemCrashMarker)
      || (StartsWith(stripped, "INSTRUMENTATION_ABORTED") && Contains(stripped, SystemCrashMarker))
  }

  /**
   * `observe_line`: testpoints are dispatched, phase events recorded, and the
   * crash and missing-instrumentation flags raised by their markers; the
   * flags are never lowered. (`INSTRUMENTATION_ABORTED` lines carrying the
   * system-crash marker are already caught by the marker alone.)
   */
  function ObserveLine(c: Context, line: string, env: Env): (r: Context)
    ensures r.package == c.package && r.readyFlags == c.readyFlags && r.doneFlags == c.doneFlags
    ensures r.captureCompleted == c.captureCompleted && r.candidates == c.candidates
    ensures r.phaseEvents == c.phaseEvents + (match ParsePhaseEvent(Strip(line), env.decode) case Some(e) => [e] case None => [])
    ensures r.systemCrash == (c.systemCrash || Contains(Strip(line), SystemCrashMarker))
  {
    var stripped := Strip(line);
    ObserveStepsRecord(c, ParseTestpoint(stripped), ParsePhaseEvent(stripped, env.decode),
      SystemCrashSeen(stripped), Contains(stripped, ProcessCrashMarker), Contains(stripped, MissingInstrumentationMarker));
    ObserveStepsFlags(c, ParseTestpoint(stripped), ParsePhaseEvent(stripped, env.decode),
      SystemCrashSeen(stripped), Contains(stripped, ProcessCrashMarker), Contains(stripped, MissingInstrumentationMarker));
    var c1 := ObserveTestpoint(c, ParseTestpoint(stripped));
    var c2 := ObservePhase(c1, ParsePhaseEvent(stripped, env.decode));
    ObserveMarkers(c2, SystemCrashSeen(stripped), Contains(stripped, ProcessCrashMarker),
      Contains(stripped, MissingInstrumentationMarker))
  }

  /**
   * `observe_line` as written: a phase payload that is JSON but not an
   * object raises out of the handler, and so out of the output loop, before
   * any crash marker is looked at; every other line is observed as above.
   */
  function ObserveLineAsWritten(c: Context, line: string, env: Env): (r: Result<Context, string>)
    ensures r.Failure? <==> ParsePhaseEventAsWritten(Strip(line), env.decode).Raised?
    ensures r.Success? ==> r.value == ObserveLine(c, line, env)
  {
    match ParsePhaseEventAsWritten(Strip(line), env.decode)
    case Raised(error) => Failure(error)
    case _ => Success(ObserveLine(c, line, env))
  }

  /** `observe_line` raises each flag exactly when the stripped line carries its marker. */
  lemma ObserveLineFlags(c: Context, line: string, env: Env)
    ensures var r := ObserveLine(c, line, env);
      && r.systemCrash == (c.systemCrash || Contains(Strip(line), SystemCrashMarker))
      && r.processCrash == (c.processCrash || Contains(Strip(line), ProcessCrashMarker))
      && r.missingInstrumentation == (c.missingInstrumentation || Contains(Strip(line), MissingInstrumentationMarker))
  {
    var stripped := Strip(line);
    ObserveStepsFlags(c, ParseTestpoint(stripped), ParsePhaseEvent(stripped, env.decode),
      SystemCrashSeen(stripped), Contains(stripped, ProcessCrashMarker), Contains(stripped, MissingInstrumentationMarker));
  }

  /** What `observe_line` records, and that it touches nothing else. */
  lemma ObserveLineRecords(c: Context, line: string, env: Env)
    ensures var r := ObserveLine(c, line, env);
      && r.phaseEvents == c.phaseEvents + (match ParsePhaseEvent(Strip(line), env.decode) case Some(e) => [e] case None => [])
      && r.testpoints.events == c.testpoints.events + (match ParseTestpoint(Strip(line)) case Some(ev) => [ev] case None => [])
      && r.package == c.package && r.readyFlags == c.readyFlags && r.doneFlags == c.doneFlags
      && r.captureCompleted == c.captureCompleted && r.candidates == c.candidates
      && r.packageWarningEmitted == c.packageWarningEmitted && r.phaseGuidanceEmitted == c.phaseGuidanceEmitted
      && r.systemCrashGuidanceEmitted == c.systemCrashGuidanceEmitted
      && r.missingInstrumentationGuidanceEmitted == c.missingInstrumentationGuidanceEmitted
  {
    var stripped := Strip(line);
    ObserveStepsRecord(c, ParseTestpoint(stripped), ParsePhaseEvent(stripped, env.decode),
      SystemCrashSeen(stripped), Contains(stripped, ProcessCrashMarker), Contains(stripped, MissingInstrumentationMarker));
  }

  lemma ObserveStepsFlags(c: Context, ev: Option<Event>, parsed: Option<PhaseEvent>, sys: bool, proc: bool, missing: bool)
    ensures var r := ObserveMarkers(ObservePhase(ObserveTestpoint(c, ev), parsed), sys, proc, missing);
      && r.systemCrash == (c.systemCrash || sys) && r.processCrash == (c.processCrash || proc)
      && r.missingInstrumentation == (c.missingInstrumentation || missing)
  {
  }

  lemma ObserveStepsRecord(c: Context, ev: Option<Event>, parsed: Option<PhaseEvent>, sys: bool, proc: bool, missing: bool)
    ensures var r := ObserveMarkers(ObservePhase(ObserveTestpoint(c, ev), parsed), sys, proc, missing);
      && r.phaseEvents == c.phaseEvents + (match parsed case Some(e) => [e] case None => [])
      && r.testpoints.events == c.testpoints.events + (match ev case Some(x) => [x] case None => [])
      && r.package == c.package && r.readyFlags == c.readyFlags && r.doneFlags == c.doneFlags
      && r.captureCompleted == c.captureCompleted && r.candidates == c.candidates
      && r.packageWarningEmitted == c.packageWarningEmitted && r.phaseGuidanceEmitted == c.phaseGuidanceEmitted
      && r.systemCrashGuidanceEmitted == c.systemCrashGuidanceEmitted
      && r.missingInstrumentationGuidanceEmitted == c.missingInstrumentationGuidanceEmitted
  {
  }

  lemma ObserveLineValid(c: Context, line: string, env: Env)
    requires Valid(c)
    ensures Valid(ObserveLine(c, line, env))
  {
    var stripped := Strip(line);
    var ev := ParseTestpoint(stripped);
    var parsed := ParsePhaseEvent(stripped, env.decode);
    ObserveTestpointValid(c, ev);
    ObservePhaseValid(ObserveTestpoint(c, ev), parsed);
    ObserveMarkersValid(ObservePhase(ObserveTestpoint(c, ev), parsed), SystemCrashSeen(stripped),
      Contains(stripped, ProcessCrashMarker), Contains(stripped, MissingInstrumentationMarker));
  }

  const ReadyFlagMarker: string := "Writing screenshot ready flag to "
  const DoneFlagMarker: string := "completion signal at "
  const PackageMarker: string := "Resolved screenshot harness package name: "

  /** The ready-flag step: a new, non-empty path is appended; known paths keep their place. */
  function AddReadyFlag(c: Context, path: string): (r: Context)
    ensures |c.readyFlags| <= |r.readyFlags| <= |c.readyFlags| + 1 && r.readyFlags[..|c.readyFlags|] == c.readyFlags
    ensures Elems(r.readyFlags) == Elems(c.readyFlags) + (if path != [] then {path} else {})
    ensures r == c.(readyFlags := r.readyFlags)
  {
    if path != [] && path !in c.readyFlags then
      ElemsAppend(c.readyFlags, path);
      c.(readyFlags := c.readyFlags + [path])
    else c
  }

  lemma AddReadyFlagValid(c: Context, path: string)
    requires Valid(c) && Strip(path) == path
    ensures Valid(AddReadyFlag(c, path))
  {
    if path != [] && path !in c.readyFlags {
      var r := AddReadyFlag(c, path);
      assert forall i | 0 <= i < |c.readyFlags| :: r.readyFlags[i] == c.readyFlags[i];
      assert r.readyFlags[|c.readyFlags|] == path;
    }
  }

  /** `maybe_collect_ready_flag`. */
  function CollectReadyFlag(c: Context, line: string): (r: Context)
    ensures SearchGroup(line, ReadyFlagMarker).None? ==> r == c
    ensures SearchGroup(line, ReadyFlagMarker).Some? ==>
      r == AddReadyFlag(c, Strip(SearchGroup(line, ReadyFlagMarker).value))
  {
    match SearchGroup(line, ReadyFlagMarker)
    case None => c
    case Some(g) => AddReadyFlag(c, Strip(g))
  }

  lemma CollectReadyFlagValid(c: Context, line: string)
    requires Valid(c)
    ensures Valid(CollectReadyFlag(c, line))
  {
    match SearchGroup(line, ReadyFlagMarker)
    case None =>
    case Some(g) =>
      StripIdempotent(g);
      AddReadyFlagValid(c, Strip(g));
  }

  lemma ElemsAppend<T>(s: seq<T>, x: T)
    ensures Elems(s + [x]) == Elems(s) + {x}
  {
  }

  /** The flags a done-flag announcement names: its comma-separated items, trimmed, empty ones dropped. */
  function DoneItems(raw: string): (r: seq<string>)
    ensures forall i | 0 <= i < |r| :: r[i] != [] && Strip(r[i]) == r[i]
  {
    StrippedNonEmpty(Split(raw, ","))
  }

  /** `maybe_collect_done_flags`: an announcement replaces the done flags wholesale. */
  function CollectDoneFlags(c: Context, line: string): (r: Context)
    ensures SearchGroup(line, DoneFlagMarker).Some? ==>
      r == c.(doneFlags := DoneItems(SearchGroup(line, DoneFlagMarker).value))
    ensures SearchGroup(line, DoneFlagMarker).None? ==> r == c
  {
    match SearchGroup(line, DoneFlagMarker)
    case None => c
    case Some(raw) => c.(doneFlags := DoneItems(raw))
  }

  lemma CollectDoneFlagsValid(c: Context, line: string)
    requires Valid(c)
    ensures Valid(CollectDoneFlags(c, line))
  {
  }

  /** The done flags after an announcement do not depend on the ones before it. */
  lemma DoneFlagsReplaced(c: Context, d: Context, line: string)
    requires SearchGroup(line, DoneFlagMarker).Some?
    ensures CollectDoneFlags(c, line).doneFlags == CollectDoneFlags(d, line).doneFlags
  {
  }

  /**
   * The package step for an announced, stripped name: a usable name becomes
   * the package; otherwise the warning is printed unless it already was.
   */
  function AnnouncePackage(c: Context, candidate: string, env: Env): (r: Context)
    requires candidate != []
    ensures NormalizePackage(candidate, env.pm).Some? ==> r.package == NormalizePackage(candidate, env.pm)
    ensures NormalizePackage(candidate, env.pm).None? ==> r.package == c.package && r.packageWarningEmitted
    ensures r == c.(package := r.package, candidates := r.candidates,
                    packageWarningEmitted := r.packageWarningEmitted, notices := r.notices)
  {
    var (c1, found) := MaybeSetPackage(c, candidate, false, env);
    if found || c1.packageWarningEmitted then c1
    else
      assert false;
      c1.(packageWarningEmitted := true, notices := c1.notices + [PackageWarning(PackageOr(c1.package, "<unknown>"))])
  }

  /** `maybe_collect_package`. */
  function CollectPackage(c: Context, line: string, env: Env): (r: Context)
    ensures SearchGroup(line, PackageMarker).None? || Strip(SearchGroup(line, PackageMarker).value) == [] ==> r == c
    ensures SearchGroup(line, PackageMarker).Some? && Strip(SearchGroup(line, PackageMarker).value) != [] ==>
      r == AnnouncePackage(c, Strip(SearchGroup(line, PackageMarker).value), env)
    ensures r == c.(package := r.package, candidates := r.candidates,
                    packageWarningEmitted := r.packageWarningEmitted, notices := r.notices)
  {
    match SearchGroup(line, PackageMarker)
    case None => c
    case Some(g) =>
      var candidate := Strip(g);
      if candidate == [] then c else AnnouncePackage(c, candidate, env)
  }

  lemma AnnouncePackageValid(c: Context, candidate: string, env: Env)
    requires Valid(c) && candidate != []
    ensures Valid(AnnouncePackage(c, candidate, env))
  {
    MaybeSetPackageValid(c, candidate, false, env);
  }

  lemma CollectPackageValid(c: Context, line: string, env: Env)
    requires Valid(c)
    ensures Valid(CollectPackage(c, line, env))
  {
    match SearchGroup(line, PackageMarker)
    case None =>
    case Some(g) =>
      if Strip(g) != [] {
        AnnouncePackageValid(c, Strip(g), env);
      }
  }

  // ---------------------------------------------------------------------------
  // Guidance

  /** `maybe_emit_system_crash_guidance`. */
  function MaybeEmitSystemCrashGuidance(c: Context): (r: Context)
    ensures r.systemCrashGuidanceEmitted == (c.systemCrashGuidanceEmitted || c.systemCrash)
    ensures c.systemCrash && !c.systemCrashGuidanceEmitted ==> r.notices == c.notices + [SystemCrashGuidance]
    ensures !(c.systemCrash && !c.systemCrashGuidanceEmitted) ==> r == c
    ensures r == c.(systemCrashGuidanceEmitted := r.systemCrashGuidanceEmitted, notices := r.notices)
  {
    if !c.systemCrash || c.systemCrashGuidanceEmitted then c
    else c.(systemCrashGuidanceEmitted := true, notices := c.notices + [SystemCrashGuidance])
  }

  /** `maybe_emit_missing_instrumentation_guidance`. */
  function MaybeEmitMissingInstrumentationGuidance(c: Context): (r: Context)
    ensures r.missingInstrumentationGuidanceEmitted == (c.missingInstrumentationGuidanceEmitted || c.missingInstrumentation)
    ensures c.missingInstrumentation && !c.missingInstrumentationGuidanceEmitted ==>
      r.notices == c.notices + [MissingInstrumentationGuidance]
    ensures !(c.missingInstrumentation && !c.missingInstrumentationGuidanceEmitted) ==> r == c
    ensures r == c.(missingInstrumentationGuidanceEmitted := r.missingInstrumentationGuidanceEmitted, notices := r.notices)
  {
    if !c.missingInstrumentation || c.missingInstrumentationGuidanceEmitted then c
    else c.(missingInstrumentationGuidanceEmitted := true, notices := c.notices + [MissingInstrumentationGuidance])
  }

  lemma GuidanceValid(c: Context)
    requires Valid(c)
    ensures Valid(MaybeEmitSystemCrashGuidance(c))
    ensures Valid(MaybeEmitMissingInstrumentationGuidance(c))
  {
    SystemCrashGuidanceValid(c);
    MissingInstrumentationGuidanceValid(c);
  }

  lemma SystemCrashGuidanceValid(c: Context)
    requires Valid(c)
    ensures Valid(MaybeEmitSystemCrashGuidance(c))
  {
    CountAppend(c.notices, SystemCrashGuidance, SystemCrashKind);
    CountAppend(c.notices, SystemCrashGuidance, MissingInstrumentationKind);
    CountAppend(c.notices, SystemCrashGuidance, PackageWarningKind);
    CountAppend(c.notices, SystemCrashGuidance, TimelineKind);
  }

  lemma MissingInstrumentationGuidanceValid(c: Context)
    requires Valid(c)
    ensures Valid(MaybeEmitMissingInstrumentationGuidance(c))
  {
    CountAppend(c.notices, MissingInstrumentationGuidance, SystemCrashKind);
    CountAppend(c.notices, MissingInstrumentationGuidance, MissingInstrumentationKind);
    CountAppend(c.notices, MissingInstrumentationGuidance, PackageWarningKind);
    CountAppend(c.notices, MissingInstrumentationGuidance, TimelineKind);
  }

  /** Asking for guidance a second time prints nothing more. */
  lemma GuidanceOnce(c: Context)
    ensures MaybeEmitSystemCrashGuidance(MaybeEmitSystemCrashGuidance(c)) == MaybeEmitSystemCrashGuidance(c)
    ensures MaybeEmitMissingInstrumentationGuidance(MaybeEmitMissingInstrumentationGuidance(c)) ==
      MaybeEmitMissingInstrumentationGuidance(c)
  {
  }

  // ---------------------------------------------------------------------------
  // Phase timeline

  /** The facts the timeline reports the latest of. */
  datatype EventFact = HasContext | HasCheckpoint | HasDetail | HasError

  predicate Has(e: PhaseEvent, f: EventFact) {
    match f
    case HasContext => e.context != map[]
    case HasCheckpoint => Truthy(e.checkpoint)
    case HasDetail => Truthy(e.detail)
    case HasError => Truthy(e.errorType) || Truthy(e.errorMessage)
  }

  /** `next((e for e in reversed(events) if ...), None)`, as an index. */
  function LastWith(events: seq<PhaseEvent>, f: EventFact): (r: Option<nat>)
    ensures r.Some? ==> r.value < |events| && Has(events[r.value], f)
    ensures r.Some? ==> forall j | r.value < j < |events| :: !Has(events[j], f)
    ensures r.None? ==> forall j | 0 <= j < |events| :: !Has(events[j], f)
  {
    if events == [] then None
    else if Has(events[|events| - 1], f) then Some(|events| - 1)
    else LastWith(events[..|events| - 1], f)
  }

  /** Event `i` is the latest of the group carrying fact `f`. */
  predicate LatestWith(events: seq<PhaseEvent>, i: int, f: EventFact) {
    0 <= i < |events| && Has(events[i], f) && forall j | i < j < |events| :: !Has(events[j], f)
  }

  /** The search finds exactly the latest event carrying the fact. */
  lemma LastWithUnique(events: seq<PhaseEvent>, f: EventFact)
    ensures forall i | LatestWith(events, i, f) :: LastWith(events, f) == Some(i)
  {
  }

  /** The phase types of a group, in order (`" -> ".join(...)`). */
  function Phases(events: seq<PhaseEvent>): (r: seq<string>)
    ensures |r| == |events| && forall i | 0 <= i < |events| :: r[i] == events[i].phaseType
  {
    seq(|events|, i requires 0 <= i < |events| => events[i].phaseType)
  }

  /** What the timeline prints for one group. */
  function Summarize(key: GroupKey, events: seq<PhaseEvent>): (s: GroupSummary)
    ensures s.key == key && s.phases == Phases(events)
    ensures events != [] ==>
      var final := events[|events| - 1];
      s.nextAttempt.Some? <==> final.phaseType == "retry" && final.nextAttempt.Some? && final.nextAttempt.value != 0
    ensures s.checkpoint.Some? <==> exists i | 0 <= i < |events| :: Truthy(events[i].checkpoint)
    ensures s.error.Some? <==> exists i | 0 <= i < |events| :: Truthy(events[i].errorType) || Truthy(events[i].errorMessage)
    ensures forall i | LatestWith(events, i, HasContext) :: s.context == events[i].context
    ensures events != [] && (forall i | 0 <= i < |events| :: !Has(events[i], HasContext)) ==>
      s.context == events[|events| - 1].context
    ensures forall i | LatestWith(events, i, HasCheckpoint) :: s.checkpoint == Some(events[i].checkpoint)
    ensures forall i | LatestWith(events, i, HasDetail) :: s.detail == Some(events[i].detail)
    ensures (forall i | 0 <= i < |events| :: !Has(events[i], HasDetail)) ==> s.detail.None?
    ensures forall i | LatestWith(events, i, HasError) :: s.error == Some((events[i].errorType, events[i].errorMessage))
  {
    if events == [] then GroupSummary(key, [], map[], None, None, None, None)
    else
      var final := events[|events| - 1];
      var next := if final.phaseType == "retry" && final.nextAttempt.Some? && final.nextAttempt.value != 0
        then final.nextAttempt else None;
      GroupSummary(key, Phases(events), LatestContext(events), LatestCheckpoint(events), LatestDetail(events),
                   LatestError(events), next)
  }

  /** The context of the latest event that has one, else the final event's. */
  function LatestContext(events: seq<PhaseEvent>): (r: map<string, string>)
    requires events != []
    ensures forall i | LatestWith(events, i, HasContext) :: r == events[i].context
    ensures (forall i | 0 <= i < |events| :: !Has(events[i], HasContext)) ==> r == events[|events| - 1].context
  {
    LastWithUnique(events, HasContext);
    match LastWith(events, HasContext) case Some(i) => events[i].context case None => events[|events| - 1].context
  }

  /** The checkpoint of the latest event that has one. */
  function LatestCheckpoint(events: seq<PhaseEvent>): (r: Option<Json>)
    ensures r.Some? <==> exists i | 0 <= i < |events| :: Truthy(events[i].checkpoint)
    ensures forall i | LatestWith(events, i, HasCheckpoint) :: r == Some(events[i].checkpoint)
  {
    LastWithUnique(events, HasCheckpoint);
    match LastWith(events, HasCheckpoint) case Some(i) => Some(events[i].checkpoint) case None => None
  }

  /** The detail of the latest event that has one. */
  function LatestDetail(events: seq<PhaseEvent>): (r: Option<Json>)
    ensures forall i | LatestWith(events, i, HasDetail) :: r == Some(events[i].detail)
    ensures (forall i | 0 <= i < |events| :: !Has(events[i], HasDetail)) ==> r.None?
  {
    LastWithUnique(events, HasDetail);
    match LastWith(events, HasDetail) case Some(i) => Some(events[i].detail) case None => None
  }

  /** The error type and message of the latest event that has either. */
  function LatestError(events: seq<PhaseEvent>): (r: Option<(Json, Json)>)
    ensures r.Some? <==> exists i | 0 <= i < |events| :: Truthy(events[i].errorType) || Truthy(events[i].errorMessage)
    ensures forall i | LatestWith(events, i, HasError) :: r == Some((events[i].errorType, events[i].errorMessage))
  {
    LastWithUnique(events, HasError);
    match LastWith(events, HasError)
    case Some(i) => Some((events[i].errorType, events[i].errorMessage))
    case None => None
  }

  /** The group keys of the events, in arrival order (with repeats). */
  function KeysOf(events: seq<PhaseEvent>): (r: seq<GroupKey>)
    ensures |r| == |events| && forall i | 0 <= i < |events| :: r[i] == KeyOf(events[i])
  {
    seq(|events|, i requires 0 <= i < |events| => KeyOf(events[i]))
  }

  /** The timeline: one summary per group, groups in sorted key order. */
  function Timeline(c: Context): (t: seq<GroupSummary>)
    ensures |t| <= |c.phaseEvents|
  {
    var keys := SortUnique(KeysOf(c.phaseEvents), TripleLess);
    seq(|keys|, i requires 0 <= i < |keys| =>
      Summarize(keys[i], if keys[i] in c.groups then c.groups[keys[i]] else []))
  }

  /** The timeline's groups come in strictly increasing key order. */
  lemma TimelineSorted(c: Context)
    ensures var t := Timeline(c); forall i, j | 0 <= i < j < |t| :: TripleLess(t[i].key, t[j].key)
  {
    TripleLessOrder();
    SortUniqueSorted(KeysOf(c.phaseEvents), TripleLess);
  }

  /** Under the invariant every summary is of a recorded group, with its phases in arrival order. */
  lemma TimelineOfGroups(c: Context)
    requires GroupsValid(c)
    ensures var t := Timeline(c);
      forall i | 0 <= i < |t| :: t[i].key in c.groups && t[i].phases == Phases(c.groups[t[i].key])
  {
    var keys := SortUnique(KeysOf(c.phaseEvents), TripleLess);
    TripleLessOrder();
    SortUniqueSorted(KeysOf(c.phaseEvents), TripleLess);
    var t := Timeline(c);
    forall i | 0 <= i < |t|
      ensures t[i].key in c.groups
    {
      assert keys[i] in Elems(keys);
    }
  }

  /** Under the invariant every recorded group has a summary. */
  lemma TimelineCoversGroups(c: Context)
    requires GroupsValid(c)
    ensures var t := Timeline(c); forall k | k in c.groups :: exists i | 0 <= i < |t| :: t[i].key == k
  {
    var keys := SortUnique(KeysOf(c.phaseEvents), TripleLess);
    TripleLessOrder();
    SortUniqueSorted(KeysOf(c.phaseEvents), TripleLess);
    var t := Timeline(c);
    forall k | k in c.groups
      ensures exists i | 0 <= i < |t| :: t[i].key == k
    {
      var j := EventOfGroup(c.phaseEvents, k);
      assert KeysOf(c.phaseEvents)[j] == k;
      assert k in Elems(keys);
      var i :| 0 <= i < |keys| && keys[i] == k;
      assert t[i].key == k;
    }
  }

  /** A non-empty group comes from some event. */
  lemma {:induction false} EventOfGroup(events: seq<PhaseEvent>, k: GroupKey) returns (j: nat)
    requires EventsWithKey(events, k) != []
    ensures j < |events| && KeyOf(events[j]) == k
    decreases |events|
  {
    var last := events[|events| - 1];
    if KeyOf(last) == k {
      j := |events| - 1;
    } else {
      j := EventOfGroup(events[..|events| - 1], k);
    }
  }

  /** `maybe_emit_phase_guidance`: the timeline, printed once and only when there are groups. */
  function MaybeEmitPhaseGuidance(c: Context): (r: Context)
    ensures c.phaseGuidanceEmitted || c.groups == map[] ==> r == c
    ensures !c.phaseGuidanceEmitted && c.groups != map[] ==>
      r == c.(phaseGuidanceEmitted := true, notices := c.notices + [PhaseTimeline(Timeline(c))])
  {
    if c.phaseGuidanceEmitted || c.groups == map[] then c
    else c.(phaseGuidanceEmitted := true, notices := c.notices + [PhaseTimeline(Timeline(c))])
  }

  lemma MaybeEmitPhaseGuidanceValid(c: Context)
    requires Valid(c)
    ensures Valid(MaybeEmitPhaseGuidance(c))
  {
    if !c.phaseGuidanceEmitted && c.groups != map[] {
      TimelineAppendValid(c, Timeline(c));
    }
  }

  lemma TimelineAppendValid(c: Context, groups: seq<GroupSummary>)
    requires Valid(c) && !c.phaseGuidanceEmitted
    ensures Valid(c.(phaseGuidanceEmitted := true, notices := c.notices + [PhaseTimeline(groups)]))
  {
    var n := PhaseTimeline(groups);
    CountAppend(c.notices, n, SystemCrashKind);
    CountAppend(c.notices, n, MissingInstrumentationKind);
    CountAppend(c.notices, n, PackageWarningKind);
    CountAppend(c.notices, n, TimelineKind);
  }

  lemma PhaseGuidanceOnce(c: Context)
    ensures MaybeEmitPhaseGuidance(MaybeEmitPhaseGuidance(c)) == MaybeEmitPhaseGuidance(c)
  {
  }

  /** Under the invariant no message meant for once is ever printed twice. */
  lemma NoticesAtMostOnce(c: Context)
    requires Valid(c)
    ensures Count(c.notices, SystemCrashKind) <= 1 && Count(c.notices, MissingInstrumentationKind) <= 1
    ensures Count(c.notices, PackageWarningKind) <= 1 && Count(c.notices, TimelineKind) <= 1
  {
  }
}
