# NovaPDF Reader harness tooling — a Dafny model

This project models the Python tooling that drives the NovaPDF Reader Android
screenshot harness and its CI housekeeping. Each script is modelled as pure
Dafny functions over immutable data, with its properties proved.

- **Screenshot harness** (`tools/capture_screenshots.py`). It covers:
  - classifying the instrumentation output stream into testpoints, phase events (`HARNESS PHASE: {json}`), handshake flag announcements and crash markers;
  - the harness session state built from those events;
  - package-name sanitising and normalising;
  - cache-name sanitising;
  - resolving the instrumentation component, wildcards included;
  - the ready-payload and done-flag handshake;
  - the retry policy of `run_instrumentation_once` and `main`;
  - launch-argument handling;
  - parsing of device process listings;
  - choosing the native-crash artifacts directory.
- **Fleet health** (`tools/device_fleet_health.py`): parsing of `adb devices` output, device filtering, the reason for a health-check failure, and the exit code.
- **Baseline profile guard** (`tools/scripts/baseline_profile_guard.py`): which changed paths call for a baseline-profile reminder.
- **Log markers** (`tools/scripts/verify_log_markers.py`): which required markers a log contains and which of its any-of marker groups it satisfies.
- **Macrobenchmark coverage** (`tools/verify_macrobenchmark_coverage.py`): which required benchmarks a report covers.
- **CI log aggregation** (`tools/aggregate_ci_logs.py`): collision-free staging names and the export manifest.
- **Performance result retention** (`tools/scripts/retire_performance_results.py`): dating each run and partitioning the runs by the retention cutoff.
- **Device resource snapshot** (`tools/device_resource_snapshot.py`): parsing `/proc/meminfo`, `/proc/stat` and the CPU count.
- **Auto fixer** (`tools/auto_fixer/auto_fixer.py`): configuration from the environment, the failure excerpt, check polling, and the bounded fix loop.

Shared modules:

| Module | Models |
|---|---|
| `Wrappers` | `Option` and `Result`, and the list helpers |
| `Text` | the Python string operations the scripts use: `strip`, `split`, `splitlines`, `find`/`rfind`, slicing, `int`/`str` |
| `Sorting` | `sorted` with duplicates removed, over strings, pairs and triples (`StrLess`, `PairLess`, `TripleLess`) |
| `JsonValues` | decoded JSON values and Python's `int()` on them |

Effects become parameters of the model:

- JSON decoding is passed in as a function (`decode: string -> Option<Json>`).
- So is `datetime.fromisoformat` (`IsoParser`).
- The output of every external command is passed in as data.

## Model

| member | source | states |
|---|---|---|
| TestPoints.FromLabel | tools/testpoints.py:11-26 | a label maps to the test point printed as exactly that label, and a label no test point prints as maps to no test point (the `ValueError`) |
| TestPoints.FromLabelOfLabel | tools/testpoints.py:11-26 | every test point's label maps back to that test point |
| TestPoints.SplitName | tools/testpoints.py:40-44 | the name part is a prefix of the payload; a detail, when present, is non-blank and already trimmed |
| TestPoints.ParseTestpoint | tools/testpoints.py:31-49 | a test point is returned only for a line whose stripped form carries the `HARNESS TESTPOINT: ` prefix and a non-blank payload; any detail is non-blank and trimmed |
| TestPoints.ParseFromParts | tools/testpoints.py:31-49 | the parse is the label lookup of the trimmed name before the first `:`, paired with the trimmed detail; an unknown label gives no result instead of raising |
| TestPoints.PlainNameNoColon | tools/testpoints.py:40-44 | a colon-free name takes the no-detail branch |
| TestPoints.ParsePlainName | tools/testpoints.py:31-49 | a prefixed bare name parses to its label lookup with no detail |
| TestPoints.DetailPayload | tools/testpoints.py:35-38 | the payload of `PREFIX + name + ": " + detail` is `name + ": " + detail` |
| TestPoints.DetailSplit | tools/testpoints.py:40-42 | such a payload splits at its first `:` into the name and the detail |
| TestPoints.ParsePlainNameDetail | tools/testpoints.py:31-49 | a prefixed `name: detail` marker parses to the name's label lookup with the detail |
| TestPoints.ParseLabelRoundTrip | tools/testpoints.py:11-49 | printing a test point's bare marker and parsing it gives back that test point with no detail |
| TestPoints.ParseDetailRoundTrip | tools/testpoints.py:11-49 | printing `<label>: <detail>` for a trimmed non-blank detail and parsing it gives back the test point and the detail |
| TestPoints.Register | tools/testpoints.py:62-63 | the callback is appended to its point's list; the other points' lists, the catch-all list and the event log are unchanged |
| TestPoints.RegisterAny | tools/testpoints.py:65-66 | the callback is appended to the catch-all list; nothing else changes |
| TestPoints.Notify | tools/testpoints.py:70-73 | one invocation per callback, in list order, each with the dispatched point and detail |
| TestPoints.Dispatch | tools/testpoints.py:68-73 | exactly one event is appended; the point's callbacks run first and then the catch-all callbacks, each in registration order; the registrations are unchanged |
| TestPoints.Extend | tools/testpoints.py:75-77 | the event log becomes the old log followed by the input events; registrations are unchanged |
| TestPoints.ExtendConcat | tools/testpoints.py:75-77 | extending by `a + b` is extending by `a` and then by `b`, for both the state and the invocations |
| TestPoints.DispatchScenario | tools/testpoints.py:62-73 | with one point callback and one catch-all callback, a `ui_loaded` event reaches the point callback first and then the catch-all |
| JsonValues.Get | tools/capture_screenshots.py:79-83 | `data.get(key)`: an absent key reads as `null`, a present key as its value |
| JsonValues.PyStr | tools/capture_screenshots.py:100-101 | `str()` of a decoded value: the scalar rendering for `str`/`int`/`float`/`bool`, `"None"` for `null` |
| JsonValues.PyInt | tools/capture_screenshots.py:118-126 | `int()` of a decoded value: ints as they are, strings through integer parsing, floats truncated, `null`/lists/dicts rejected |
| PhaseEvents.CoerceInt | tools/capture_screenshots.py:118-126 | ints are kept, and so are bools (1/0); strings go through integer parsing; every other value gives `None` |
| PhaseEvents.ContextOf | tools/capture_screenshots.py:95-101 | the context holds exactly the keys of a dict whose values are `str`/`int`/`float`/`bool`, each rendered with `str()`; a value that is not a dict gives an empty context |
| PhaseEvents.EventOf | tools/capture_screenshots.py:103-115 | the event carries the record's non-empty `type`, `component` and `operation`, the coerced attempt, the kept context, and the coerced `timestampMs` and `nextAttempt` |
| PhaseEvents.ParsePhaseEvent | tools/capture_screenshots.py:65-115 | an event is returned exactly when the stripped line has the `HARNESS PHASE: ` prefix and its payload decodes to an object with `event == "harness_phase"`, non-empty string `type`, `component` and `operation`, and an integer-coercible `attempt`; the event is built from that object; a line without the prefix gives `None` |
| PhaseEvents.ParsePhaseEventAsWritten | tools/capture_screenshots.py:65-80 | the source raises exactly when the payload is valid JSON but not an object, because it calls `.get` on it |
| PhaseEvents.CorrectedAgreesWhenNotRaised | tools/capture_screenshots.py:65-115 | wherever the source returns rather than raises, the total parser returns the same thing |
| PhaseEvents.ArrayPayloadRaises | tools/capture_screenshots.py:78-80 | `HARNESS PHASE: [1]` makes the source raise, while the total parser returns `None` |
| PhaseEvents.ValidRecordScenario | tools/test_harness_phases.py:14-37 | a complete phase record parses to the expected event, with its scalar context entries rendered as strings |
| PhaseEvents.SampleContext | tools/capture_screenshots.py:95-101 | the context `{"docId": "abc", "page": 3}` is kept as `{"docId": "abc", "page": "3"}` |
| PhaseEvents.BadAttemptScenario | tools/test_harness_phases.py:40-63 | a record whose attempt is `"not-a-number"` is rejected |
| CacheNames.MapUnsafe | tools/capture_screenshots.py:770-781 | alphanumerics, `.`, `-` and `_` are kept in place and every other character, whitespace included, becomes `_`; the length is unchanged |
| CacheNames.Collapse | tools/capture_screenshots.py:34-35 | after `re.sub(c + "+", c, …)` there are no two adjacent `c`s; the first and last characters and the safe alphabet are preserved |
| CacheNames.CollapseKeepsNoRun | tools/capture_screenshots.py:782-783 | collapsing the periods does not bring back a run of underscores |
| CacheNames.CollapseNoRun | tools/capture_screenshots.py:782-783 | collapsing is the identity on a string with no run to collapse |
| CacheNames.Sanitize | tools/capture_screenshots.py:770-784 | `_sanitize` output holds only alphanumerics, `.`, `-` and `_`; it has no runs of `_` or `.`, does not start or end with `_` or `.`, and is no longer than its input |
| CacheNames.SanitizeFixes | tools/capture_screenshots.py:770-784 | a non-empty string that already has that form is left unchanged |
| CacheNames.SanitizeIdempotent | tools/capture_screenshots.py:770-784 | sanitizing twice is sanitizing once |
| CacheNames.DefaultDocumentFixed | tools/capture_screenshots.py:758-767 | the `"document"` fallback is itself a sanitized name |
| CacheNames.SanitizeCacheName | tools/capture_screenshots.py:758-767 | the result is always non-empty and sanitized; it is the stripped value's sanitization when that is non-empty; when that is empty and the fallback's sanitization is not, it is exactly the fallback's; otherwise `"document"` |
| CacheNames.SanitizedTrimmed | tools/capture_screenshots.py:758-760 | a sanitized name has no surrounding whitespace |
| CacheNames.SanitizeCacheNameIdempotent | tools/capture_screenshots.py:758-767 | a sanitized cache name sanitizes to itself, whatever the fallback |
| CacheNames.PageText | tools/capture_screenshots.py:1064 | `f"{n:04d}"` is at least four characters long |
| CacheNames.ZeroPadValue | tools/capture_screenshots.py:1064 | zero-padding a number's digits keeps their value |
| CacheNames.PageTextRoundTrip | tools/capture_screenshots.py:1064 | `int(f"{n:04d}") == n` for every integer, negative ones included |
| CacheNames.PageNumber | tools/capture_screenshots.py:1063 | a truthy `pageNumber` is passed through `int()`; otherwise the page is `int(pageIndex) + 1`, and 1 when `pageIndex` is absent |
| CacheNames.FileName | tools/capture_screenshots.py:1064 | the file name starts with the document name and ends with `.png` |
| CacheNames.FileNamePage | tools/capture_screenshots.py:1064 | the part between `_page` and `.png` reads back as the page number |
| CacheNames.CaptureFileName | tools/capture_screenshots.py:1055-1064 | a stored name's document part is non-empty and sanitized; a payload that is JSON but not an object raises at `data.get`; for an object, a name results exactly when the page number can be computed, and then its page is that number and its document is the cache name of the document id with the fallback id as fallback |
| CacheNames.CaptureFileNameOfObject | tools/capture_screenshots.py:1055-1064 | for an object payload with a page number, the file name starts with the sanitized document id and the page number reads back from between the separator and `.png` |
| CacheNames.NonJsonPayload | tools/capture_screenshots.py:1056-1059 | a payload that is not JSON is stored as the default document, page 1 |
| CacheNames.SanitizeJoinsWords | tools/capture_screenshots.py:770-784 | two alphanumeric words joined by a space sanitize to the words joined by `_` |
| CacheNames.CaptureOfWords | tools/capture_screenshots.py:1055-1064 | a two-word `documentId` with a `pageIndex` is stored under `<word>_<word>` and the next page |
| CacheNames.PageFromIndex | tools/capture_screenshots.py:1063 | without a page number, the page is the page index plus one |
| CacheNames.CaptureScenario | tools/capture_screenshots.py:1055-1064 | `{"documentId": "Doc 1", "pageIndex": 0}` is stored as document `Doc_1`, page 1 |
| CacheNames.FileNameScenario | tools/capture_screenshots.py:1064 | that capture's file name is `Doc_1_page0001.png` |
| PackageNames.KeepPackageChars | tools/capture_screenshots.py:326 | `re.sub(r"[^A-Za-z0-9._]", "", s)` keeps only package characters, no more than the input; a string made only of them is unchanged; the result is non-empty exactly when the input has one |
| PackageNames.KeepPackageCharsAppend | tools/capture_screenshots.py:326 | dropping characters distributes over concatenation |
| PackageNames.GlobLiteral | tools/capture_screenshots.py:282-287 | a wildcard pattern without `*` matches exactly itself |
| PackageNames.GlobLiteralPrefix | tools/capture_screenshots.py:282-287 | a common literal prefix is matched character by character |
| PackageNames.GlobStarMatchesAll | tools/capture_screenshots.py:282 | `*` becomes `.*`, which matches any name |
| PackageNames.GlobMatchEndsWithTail | tools/capture_screenshots.py:282-303 | any name a pattern matches ends with the pattern's text after its last `*` |
| PackageNames.ListedPackages | tools/capture_screenshots.py:289-294 | the names taken from `package:` lines are trimmed, at most one per line |
| PackageNames.Matching | tools/capture_screenshots.py:289-296 | the matches are exactly the listed names the pattern matches, in listing order |
| PackageNames.FirstEndingWith | tools/capture_screenshots.py:303-305 | the first listed name ending with the suffix, or none when no name does |
| PackageNames.ChooseMatch | tools/capture_screenshots.py:298-308 | no match gives `None`; otherwise the choice is one of the matches |
| PackageNames.ResolveSanitizedPackage | tools/capture_screenshots.py:276-308 | without a device, or when `pm list packages` fails, there is no resolution; a resolved name is a listed package that the pattern matches |
| PackageNames.ChooseMatchIsFirst | tools/capture_screenshots.py:298-308 | the suffix preference never changes the answer, because every match already ends with that suffix: the first match is chosen |
| PackageNames.ResolveIsFirstMatch | tools/capture_screenshots.py:276-308 | resolution yields the first listed package the pattern matches |
| PackageNames.NormalizePackageName | tools/capture_screenshots.py:311-330 | blank input gives `None`; a trimmed value matching `^[A-Za-z0-9._]+$` is returned as it is; otherwise a wildcard the device resolves to a non-empty package gives that package, and anything else gives its package characters, or `None` when there are none; a result is never empty |
| PackageNames.NormalizeTrimmed | tools/capture_screenshots.py:311-330 | a normalised name carries no surrounding whitespace |
| PackageNames.NormalizeWithDevice | tools/capture_screenshots.py:276-330 | with a device listing, a malformed wildcard becomes the first listed package the pattern matches, and its package characters (or `None`) when the pattern matches none |
| PackageNames.NormalizeWithoutDevice | tools/capture_screenshots.py:311-330 | without a device, the result is the package characters of the trimmed input, or `None` when there are none |
| PackageNames.NormalizeIdempotent | tools/capture_screenshots.py:311-330 | without a device, normalising a normalised name changes nothing |
| PackageNames.NormalizeDropsTrailing | tools/capture_screenshots.py:326-328 | a trailing disallowed character is dropped from an otherwise valid name |
| PackageNames.NormalizeTrimsPadding | tools/capture_screenshots.py:315-320 | surrounding whitespace is trimmed from a valid name |
| PackageNames.NormalizeNoPackageChars | tools/capture_screenshots.py:326-330 | a candidate without a single package character normalises to `None` |
| PackageNames.NormalizeScenarioPunctuation | tools/test_capture_screenshots_state_machine.py:60-64 | `com.example.App!` normalises to `com.example.App` |
| PackageNames.NormalizeScenarioNothingUsable | tools/capture_screenshots.py:326-330 | `???` normalises to `None` |
| PackageNames.NormalizeScenarioPadding | tools/capture_screenshots.py:315-320 | `"  com.example.app "` normalises to `com.example.app` |
| HarnessSession.EmptyContextValid | tools/capture_screenshots.py:788-806 | the attributes a new context starts with meet the context invariant |
| HarnessSession.NormalizePackage | tools/capture_screenshots.py:971-983 | a blank candidate gives nothing; otherwise the answer is `normalize_package_name` of the trimmed candidate, and a name it gives is never empty |
| HarnessSession.MaybeSetPackage | tools/capture_screenshots.py:955-969 | the answer is true exactly when the candidate normalises; then the name becomes the package and joins the candidates; otherwise, unless suppressed or already printed, the warning naming `package or candidate or "<unknown>"` is printed once; in every other case nothing changes |
| HarnessSession.MaybeSetPackageValid | tools/capture_screenshots.py:955-969 | setting the package keeps the context invariant |
| HarnessSession.SetPackageValid | tools/capture_screenshots.py:962-964 | a non-empty package recorded among the candidates keeps the invariant |
| HarnessSession.WarnPackageValid | tools/capture_screenshots.py:965-968 | the first package warning keeps the invariant |
| HarnessSession.Init | tools/capture_screenshots.py:788-808 | a new context meets the invariant and has printed nothing; a non-empty fallback becomes the package exactly as `_normalize_package` gives it, with the warning suppressed; without a fallback there is no package |
| HarnessSession.WithCandidate | tools/capture_screenshots.py:985-988 | a normalised name, when present, joins the candidates; nothing else changes |
| HarnessSession.WithCandidateValid | tools/capture_screenshots.py:985-988 | adding a candidate keeps the invariant |
| HarnessSession.AddCandidatePackage | tools/capture_screenshots.py:985-988 | only a candidate that normalises is added, as its normalised name; nothing else changes |
| HarnessSession.RegisterInstrumentationComponent | tools/capture_screenshots.py:990-997 | a blank component changes nothing; otherwise the trimmed component is recorded and the normalised package part before `/`, when there is one, joins the candidates; nothing else changes |
| HarnessSession.RegisterInstrumentationComponentValid | tools/capture_screenshots.py:990-997 | registering a component keeps the invariant |
| HarnessSession.EventsWithKey | tools/capture_screenshots.py:1005-1006 | a group holds only events with its `(component, operation, attempt)` key, and no more events than were seen |
| HarnessSession.HandlePhaseEvent | tools/capture_screenshots.py:1003-1008 | the event is appended to the event list and to its group, which is created if new; other groups are unchanged; an `abort` or `retry` event adds an alert; nothing else changes |
| HarnessSession.EventsWithKeyAppend | tools/capture_screenshots.py:1003-1006 | after one more event, a group is what it was, plus that event when the event carries the group's key |
| HarnessSession.EventsWithKeyAbsent | tools/capture_screenshots.py:1005-1006 | a key that no event carries has an empty group |
| HarnessSession.HandlePhaseEventGroups | tools/capture_screenshots.py:1003-1006 | every group stays exactly the arrival-ordered events with its key, and every event keeps a group |
| HarnessSession.AlertNoticeValid | tools/capture_screenshots.py:1007-1008 | a phase alert changes no count that the invariant bounds |
| HarnessSession.HandlePhaseEventNotices | tools/capture_screenshots.py:1003-1008 | handling an event keeps the once-only notice counts |
| HarnessSession.HandlePhaseEventValid | tools/capture_screenshots.py:1003-1008 | handling a phase event keeps the invariant |
| HarnessSession.ObserveTestpoint | tools/capture_screenshots.py:812-815 | a parsed test point is dispatched and the callbacks that fired are recorded; no test point changes nothing |
| HarnessSession.ObservePhase | tools/capture_screenshots.py:816-818 | a parsed phase event is handled; no event changes nothing |
| HarnessSession.ObserveMarkers | tools/capture_screenshots.py:819-826 | each crash or missing-instrumentation flag becomes its old value or the marker's presence, so no flag is ever lowered; nothing else changes |
| HarnessSession.ObserveTestpointValid | tools/capture_screenshots.py:812-815 | dispatching a test point keeps the invariant |
| HarnessSession.ObservePhaseValid | tools/capture_screenshots.py:816-818 | recording a phase event keeps the invariant |
| HarnessSession.ObserveMarkersValid | tools/capture_screenshots.py:819-826 | raising flags keeps the invariant |
| HarnessSession.SystemCrashSeen | tools/capture_screenshots.py:819-822 | the `INSTRUMENTATION_ABORTED` test adds nothing: the flag is raised exactly when the line contains "System has crashed" |
| HarnessSession.ObserveLine | tools/capture_screenshots.py:810-826 | observing a line appends its phase event when it has one, sets the crash flag exactly when it was set or the line carries the crash marker, and leaves the package, flags, capture mark and candidates alone |
| HarnessSession.ObserveLineAsWritten | tools/capture_screenshots.py:810-816 | the line handler raises exactly when the phase payload is JSON but not an object; otherwise it observes the line as `ObserveLine` does |
| HarnessSession.ObserveLineFlags | tools/capture_screenshots.py:810-826 | after `observe_line`, each flag is set exactly when it was set before or the stripped line carries its marker |
| HarnessSession.ObserveLineRecords | tools/capture_screenshots.py:810-818 | `observe_line` appends the line's phase event and test point, when it has them, and leaves the package, ready and done flags, capture mark, candidates and once-only marks alone |
| HarnessSession.ObserveStepsFlags | tools/capture_screenshots.py:812-826 | the three steps of `observe_line` together raise the flags as the marker step alone does |
| HarnessSession.ObserveStepsRecord | tools/capture_screenshots.py:812-818 | the three steps of `observe_line` together record the event and test point and touch nothing else |
| HarnessSession.ObserveLineValid | tools/capture_screenshots.py:810-826 | observing a line keeps the invariant |
| HarnessSession.AddReadyFlag | tools/capture_screenshots.py:926-928 | the existing flags keep their order as a prefix; the set of flags grows by the path exactly when it is non-empty; at most one flag is added |
| HarnessSession.AddReadyFlagValid | tools/capture_screenshots.py:926-928 | adding a trimmed path keeps the flags distinct, trimmed and non-empty |
| HarnessSession.CollectReadyFlag | tools/capture_screenshots.py:923-928 | without the ready-flag marker nothing changes; with it, the trimmed text after the marker is offered as a ready flag |
| HarnessSession.CollectReadyFlagValid | tools/capture_screenshots.py:923-928 | collecting a ready flag keeps the invariant |
| HarnessSession.DoneItems | tools/capture_screenshots.py:934-936 | every item kept from a done-flag announcement is trimmed and non-empty |
| HarnessSession.CollectDoneFlags | tools/capture_screenshots.py:930-936 | an announcement replaces the done flags with its items; without one nothing changes |
| HarnessSession.CollectDoneFlagsValid | tools/capture_screenshots.py:930-936 | collecting done flags keeps the invariant |
| HarnessSession.DoneFlagsReplaced | tools/capture_screenshots.py:930-936 | the done flags after an announcement do not depend on the ones before it |
| HarnessSession.AnnouncePackage | tools/capture_screenshots.py:942-953 | a usable announced name becomes the package; otherwise the package is unchanged and the warning has been printed; only the package, candidates, warning mark and notices can change |
| HarnessSession.CollectPackage | tools/capture_screenshots.py:938-953 | without the marker, or with a blank name after it, nothing changes; otherwise the trimmed name is announced; only the package, candidates, warning mark and notices can change |
| HarnessSession.AnnouncePackageValid | tools/capture_screenshots.py:942-953 | announcing a package keeps the invariant |
| HarnessSession.CollectPackageValid | tools/capture_screenshots.py:938-953 | collecting a package keeps the invariant, so the warning stays printed at most once |
| HarnessSession.MaybeEmitSystemCrashGuidance | tools/capture_screenshots.py:834-855 | the guidance is printed exactly when a system crash was seen and it was not printed before; afterwards it counts as printed; otherwise nothing changes |
| HarnessSession.MaybeEmitMissingInstrumentationGuidance | tools/capture_screenshots.py:857-872 | the guidance is printed exactly when missing instrumentation was seen and it was not printed before; afterwards it counts as printed; otherwise nothing changes |
| HarnessSession.GuidanceValid | tools/capture_screenshots.py:834-872 | printing either guidance keeps the invariant |
| HarnessSession.GuidanceOnce | tools/capture_screenshots.py:834-872 | asking for either guidance a second time prints nothing more |
| HarnessSession.LastWith | tools/capture_screenshots.py:888-906 | the last event of a group that has the property, with none after it; nothing when no event has it |
| HarnessSession.LastWithUnique | tools/capture_screenshots.py:888-906 | the search finds exactly the latest event that has the property |
| HarnessSession.LatestContext | tools/capture_screenshots.py:888-891 | the context of the latest event with a non-empty one, else the final event's |
| HarnessSession.LatestCheckpoint | tools/capture_screenshots.py:892-896 | the checkpoint of the latest event that has one; none exactly when no event has one |
| HarnessSession.LatestDetail | tools/capture_screenshots.py:897-899 | the detail of the latest event that has one; none when no event has one |
| HarnessSession.LatestError | tools/capture_screenshots.py:900-914 | the error type and message of the latest event that has either; none exactly when no event has one |
| HarnessSession.Phases | tools/capture_screenshots.py:882 | a group's phase types, one per event, in arrival order |
| HarnessSession.Summarize | tools/capture_screenshots.py:882-920 | a summary shows the group's phases; it shows `next attempt` exactly when the final event is a `retry` with a non-zero `next_attempt`; it shows a checkpoint, or an error, exactly when some event has one; the context, checkpoint, detail and error shown are those of the latest event that has one, and the context falls back to the final event's |
| HarnessSession.KeysOf | tools/capture_screenshots.py:1005 | one key per event, in arrival order |
| HarnessSession.Timeline | tools/capture_screenshots.py:874-921 | the timeline has no more summaries than there are events |
| HarnessSession.TimelineSorted | tools/capture_screenshots.py:878-881 | the groups come in strictly increasing `(component, operation, attempt)` order, not in the order they were first seen |
| HarnessSession.TimelineOfGroups | tools/capture_screenshots.py:878-882 | every summary belongs to a recorded group and shows its phases in arrival order |
| HarnessSession.TimelineCoversGroups | tools/capture_screenshots.py:878-881 | every recorded group has a summary |
| HarnessSession.EventOfGroup | tools/capture_screenshots.py:1005-1006 | a non-empty group comes from some event with its key |
| HarnessSession.MaybeEmitPhaseGuidance | tools/capture_screenshots.py:874-921 | when the timeline was printed before or there are no groups, nothing changes; otherwise the timeline is printed and marked printed |
| HarnessSession.MaybeEmitPhaseGuidanceValid | tools/capture_screenshots.py:874-921 | printing the timeline keeps the invariant |
| HarnessSession.PhaseGuidanceOnce | tools/capture_screenshots.py:874-921 | asking for the timeline a second time prints nothing more |
| HarnessSession.NoticesAtMostOnce | tools/capture_screenshots.py:834-921 | in a context that meets the invariant, each guidance message, the package warning and the timeline have been printed at most once |
| HarnessSession.CountAppend | tools/capture_screenshots.py:834-921 | printing a notice raises only its own kind's count, and by one |
| Handshake.FirstReadable | tools/capture_screenshots.py:1043-1052 | the first ready flag whose read gives non-blank text, with every earlier one failing or blank; nothing when all do |
| Handshake.ReadReadyPayload | tools/capture_screenshots.py:1040-1052 | a payload needs a package and is the non-blank, stripped read of a ready flag before which every flag read failed or was blank; with a package and no payload, every flag read failed or was blank |
| Handshake.ReadReadyPayloadFirst | tools/capture_screenshots.py:1040-1052 | when flag `i` reads non-blank and every earlier flag reads nothing, the payload is flag `i`'s read |
| Handshake.FirstReadableIs | tools/capture_screenshots.py:1043-1052 | the first readable flag is the readable one before which no flag reads anything |
| Handshake.CollectLineValid | tools/capture_screenshots.py:810-826 | observing a line and collecting package, ready flag and done flags from it keeps the context invariant |
| Handshake.CollectLineDoneFlags | tools/capture_screenshots.py:1671-1673 | a line announcing done flags leaves exactly those flags in the context after collection |
| Handshake.CaptureWith | tools/capture_screenshots.py:1681-1687 | when the payload names a file, one screenshot under that name is recorded, signalling the current done flags, and the context is marked captured; a naming error is raised instead and nothing else changes |
| Handshake.TryCapture | tools/capture_screenshots.py:1675-1687 | nothing happens unless the context is ready (not captured, a package, ready and done flags) and a payload can be read; then the payload is captured |
| Handshake.HandleLine | tools/capture_screenshots.py:1668-1687 | once an exception has ended the loop, lines change nothing; otherwise the line is collected and the capture check follows |
| Handshake.CaptureWithValid | tools/capture_screenshots.py:1681-1687 | capturing in an uncaptured session keeps the session invariant: one screenshot exactly when the context says captured |
| Handshake.HandleLineValid | tools/capture_screenshots.py:1668-1687 | handling a line keeps the session invariant |
| Handshake.CollectLineKeepsCapture | tools/capture_screenshots.py:810-826 | collecting a line never changes the capture mark |
| Handshake.CollectPackageKeepsCapture | tools/capture_screenshots.py:938-953 | collecting a package never changes the capture mark |
| Handshake.CollectFlagsKeepCapture | tools/capture_screenshots.py:923-936 | collecting ready and done flags never changes the capture mark |
| Handshake.RunLinesValid | tools/capture_screenshots.py:1668-1687 | the output loop keeps the session invariant over any lines |
| Handshake.RunLinesAfterRaise | tools/capture_screenshots.py:1666-1687 | once an exception has ended the loop, the remaining output changes nothing |
| Handshake.RunLinesExtends | tools/capture_screenshots.py:1666-1687 | the loop only appends screenshots; those taken before stay, in order |
| Handshake.HandleLineExtends | tools/capture_screenshots.py:1668-1687 | one line appends at most the screenshot it captures and keeps the earlier ones |
| Handshake.TryCaptureExtends | tools/capture_screenshots.py:1675-1687 | the capture check keeps the earlier screenshots as a prefix |
| Handshake.AtMostOneCapture | tools/capture_screenshots.py:1675-1687 | a run that starts without a screenshot takes at most one, whatever its output |
| Handshake.EmptyPayloadNoCapture | tools/capture_screenshots.py:1681-1683 | when no payload can be read, a line only collects; no screenshot is taken |
| Handshake.EmitGuidanceValid | tools/capture_screenshots.py:1701-1717 | the guidance printed at the end of a failed run keeps the invariant |
| Handshake.Conclude | tools/capture_screenshots.py:1706-1756 | the exit code is 0 exactly when the process exited with 0 and a screenshot was taken; a non-zero process exit code is passed on; a timeout, an unknown exit or a missing screenshot gives 1; the screenshots and crash flags are kept |
| Handshake.RunOnce | tools/capture_screenshots.py:1603-1756 | a failed setup (bad extras, no component, install or launch failure) returns 1 with the prepared context and no screenshot; exit code 0 means the harness launched, streamed, exited with 0 and the capture completed |
| Handshake.ConcludeValid | tools/capture_screenshots.py:1706-1756 | the final steps keep the invariant and at most one screenshot |
| Handshake.RunOnceValid | tools/capture_screenshots.py:1603-1756 | every finished run keeps the invariant and has at most one screenshot |
| RetryController.Decide | tools/capture_screenshots.py:1790-1825 | exit code 0 stops with 0 and changes nothing; a stop passes the run's exit code on; a re-run after install happens exactly when missing instrumentation is seen, auto-install is neither skipped nor tried, and the install succeeds; a re-run after a system crash exactly when that does not apply, a crash is seen, the single crash retry is unused and the Activity Manager recovers; install is tried at most once and crash retries never exceed one |
| RetryController.RetryLoop | tools/capture_screenshots.py:1780-1827 | `main` runs the harness one to three times and returns the last run's exit code; the controller trace starts with auto-install attempted only when it is skipped and no crash retries, every re-run is the one `Decide` grants for that run's controller, and the last run is the one `Decide` stops at; every run before the last failed; each reason for a re-run happens at most once, an install re-run only after missing instrumentation with auto-install allowed and succeeding, a crash re-run only after a system crash and a recovery |
| RetryController.ThreeRunsPossible | tools/capture_screenshots.py:1796-1815 | the bound of three is reached: a run missing instrumentation, then one crashing the system server, each get a re-run |
| RetryController.SkipMeansNoInstallRetry | tools/capture_screenshots.py:1796-1803 | with auto-install skipped a missing instrumentation never causes a re-run |
| LaunchConfig.ParseExtraArgs | tools/capture_screenshots.py:1375-1382 | parsing succeeds exactly when every item contains `=`; each item is then its key, `=`, and its value, with no `=` in the key, one pair per item; on failure the error is an item without `=` |
| LaunchConfig.ParseFormattedExtras | tools/capture_screenshots.py:1375-1382 | round trip: extras whose keys hold no `=`, written as `key=value`, parse back to the same extras |
| LaunchConfig.Usable | tools/capture_screenshots.py:1433-1437 | a value is usable exactly when it is present and non-blank, and then it is given trimmed |
| LaunchConfig.PackagePart | tools/capture_screenshots.py:1441-1452 | the part of a component before `/`, trimmed, only when non-empty |
| LaunchConfig.DeriveFallbackPackage | tools/capture_screenshots.py:1426-1456 | a derived package is trimmed and non-empty; the first usable of, in order, the `testPackageName` extra (the last one given), the package part of `targetInstrumentation`, the `novapdfTestAppId` extra and the package part of the component (or of the requested instrumentation) is returned |
| LaunchConfig.TargetPackage | tools/capture_screenshots.py:1439-1443 | a target package comes only from a set, non-empty `targetInstrumentation` extra |
| LaunchConfig.ComponentSource | tools/capture_screenshots.py:1451 | the component when it is given and non-empty, else the requested instrumentation |
| LaunchConfig.EnsureTestPackageArgument | tools/capture_screenshots.py:1385-1423 | extras already naming a non-blank test package are returned unchanged; otherwise the appended `testPackageName` is the normalised explicit package (`--test-package`, else `NOVAPDF_SCREENSHOT_TEST_PACKAGE`), else the normalised fallback, and nothing is appended when neither exists |
| LaunchConfig.ExplicitPackage | tools/capture_screenshots.py:1396-1400 | `--test-package` when non-empty, else the environment variable, trimmed, and only when that leaves something |
| LaunchConfig.Normalized | tools/capture_screenshots.py:1407-1413 | the normalised package when normalisation finds one, else the candidate itself; always trimmed and non-empty |
| LaunchConfig.EnsureTestPackageIdempotent | tools/capture_screenshots.py:1385-1423 | calling it on its own result, as `run_instrumentation_once` does, adds nothing more |
| LaunchConfig.ParseOptionalBool | tools/capture_screenshots.py:629-639 | `True` exactly for a trimmed, lower-cased value among 1/true/t/yes/y/on, `False` exactly for one among 0/false/f/no/n/off, nothing for a missing or blank value |
| LaunchConfig.ParseOptionalBoolPadded | tools/capture_screenshots.py:632 | surrounding whitespace does not change the reading |
| LaunchConfig.VirtualizationUnavailable | tools/capture_screenshots.py:642-659 | unavailable exactly when a connected device is not demanded and either nested virtualization is disabled or acceleration is `software` or `none`; a demanded device always overrides |
| LaunchConfig.EntryOf | tools/capture_screenshots.py:147-161 | a line sets an entry only with a non-empty, trimmed key |
| LaunchConfig.SetDefault | tools/capture_screenshots.py:161 | `setdefault`: variables already set keep their values; an unset variable is set only by the entry that names it, to its value |
| LaunchConfig.LoadEnvironmentKeeps | tools/capture_screenshots.py:135-161 | loading the file never overrides a variable that is already set |
| LaunchConfig.LoadEnvironment | tools/capture_screenshots.py:135-161 | loading the file keeps every variable already set |
| LaunchConfig.LoadEnvironmentFirstEntry | tools/capture_screenshots.py:135-161 | an unset variable ends up set exactly when some line of the file names it, and to the value of the first such line |
| DeviceListings.ProcessOfColumns | tools/capture_screenshots.py:1468-1473 | a row gives a process exactly when it has at least three columns with a non-blank name; the pid is non-empty and the name trimmed |
| DeviceListings.ProcessOfLine | tools/capture_screenshots.py:1462-1473 | blank rows and `PID`/`USER` headers (in any case) give nothing; a process has a non-empty pid and a trimmed name |
| DeviceListings.ParseProcessListing | tools/capture_screenshots.py:1459-1474 | every listed process comes from some row, and every row that reads as a process is listed |
| DeviceListings.RowColumns | tools/capture_screenshots.py:1468 | `split(None, 2)` of a `pid user name` row is exactly those three columns, the name keeping its inner spaces |
| DeviceListings.DigitsNoSpace | tools/capture_screenshots.py:1468 | a numeric pid holds no whitespace |
| DeviceListings.DigitRowNotHeader | tools/capture_screenshots.py:1465-1467 | a row starting with a digit is never taken for a header |
| DeviceListings.RowTrimmed | tools/capture_screenshots.py:1462 | a `pid user name` row with no outer padding is its own stripped form |
| DeviceListings.ColumnsOf | tools/capture_screenshots.py:1468-1473 | the columns of such a row give back its pid and name |
| DeviceListings.TrimmedRow | tools/capture_screenshots.py:1462-1473 | a trimmed, non-header row reads as its columns do |
| DeviceListings.ProcessRowOf | tools/capture_screenshots.py:1459-1474 | round trip: the row `pid user name` of a numeric pid gives back that pid and name |
| DeviceListings.ComponentOfLine | tools/capture_screenshots.py:478-483 | only lines starting with `instrumentation:` name a component; it is non-empty, trimmed and holds no space |
| DeviceListings.ExtractInstrumentationComponents | tools/capture_screenshots.py:475-484 | every component comes from some line, and every line naming a component contributes it |
| DeviceListings.ComponentLineOf | tools/capture_screenshots.py:478-483 | round trip: the line `instrumentation:<component> <rest>` gives back the component |
| DeviceListings.TargetValue | tools/capture_screenshots.py:499-502 | a `targetPackage=` line's value, only when non-blank, and trimmed |
| DeviceListings.Classify | tools/capture_screenshots.py:493-502 | a target line carries a non-empty, trimmed package; header lines are checked first |
| DeviceListings.ExtractInstrumentationTarget | tools/capture_screenshots.py:487-504 | a target package found is non-empty and trimmed |
| DeviceListings.OwnerOfCons | tools/capture_screenshots.py:494-496 | the block a line lies in is decided by the last header before it |
| DeviceListings.TargetOfTail | tools/capture_screenshots.py:492-503 | whether a line is a target of the component is decided the same way after the first line is consumed |
| DeviceListings.TargetIsFirstInBlock | tools/capture_screenshots.py:487-504 | the answer is the package of the first target line inside a block of the component; when there is no such line, there is no answer |
| CrashArtifacts.ArtifactReason | tools/capture_screenshots.py:1256 | the directory reason is never empty and always sanitised; it is `_sanitize(reason)` whenever that is non-empty |
| CrashArtifacts.DefaultReasonSanitized | tools/capture_screenshots.py:1256 | the fallback reason `diagnostics` is already sanitised |
| CrashArtifacts.Candidate | tools/capture_screenshots.py:1270-1271 | attempt 0 is `<timestamp>-<reason>`; attempt n > 0 appends `-<n>` |
| CrashArtifacts.CandidatesDistinct | tools/capture_screenshots.py:1269-1271 | different attempts name different directories |
| CrashArtifacts.CreateArtifactDirectory | tools/capture_screenshots.py:1259-1295 | a root that cannot be created stops before any directory is tried; otherwise 1 to 65 directories are tried, in order: the 64 candidates, then the `-<millis>` fallback; every candidate tried before the last one already existed; the result is the last directory tried, newly created (or existing, for the fallback) on success and failing to be created on failure |
| InstrumentationResolver.After | tools/capture_screenshots.py:579 | `partition("/")[2]`: when the separator occurs, the text is its part before, the separator, and the result; otherwise the result is empty |
| InstrumentationResolver.FirstWhere | tools/capture_screenshots.py:571-593 | the first element with the property, none earlier having it; nothing exactly when no element has it |
| InstrumentationResolver.Preferred | tools/capture_screenshots.py:571-593 | what one listing settles: an exact `package/runner` match whenever one is listed, else a component whose package and runner parts match; nothing exactly when no component matches either way |
| InstrumentationResolver.FirstListed | tools/capture_screenshots.py:568-596 | the first component of the first non-empty listing; nothing exactly when every listing is empty |
| InstrumentationResolver.ResolveFromTwoPhases | tools/capture_screenshots.py:556-605 | a preferred match in any listing beats every fallback, even one from an earlier listing; only without one is the first-seen component used |
| InstrumentationResolver.ResolveFromNone | tools/capture_screenshots.py:556-615 | nothing is resolved exactly when no listing names any component |
| InstrumentationResolver.ResolveOnce | tools/capture_screenshots.py:556-615 | the resolved component is the first listing's preferred match, else the first component listed; nothing exactly when every listing is empty |
| InstrumentationResolver.FirstPreferredListed | tools/capture_screenshots.py:571-593 | a preferred component is one a listing names |
| InstrumentationResolver.RequestOf | tools/capture_screenshots.py:711-719 | the requested package is the trimmed text before the first `/` and holds no `/` |
| InstrumentationResolver.Queries | tools/capture_screenshots.py:721-724 | the package is queried first when there is one, and an unfiltered listing always comes last |
| InstrumentationResolver.ResolveInstrumentationComponent | tools/capture_screenshots.py:710-755 | a component found on the first pass is used without installing anything; otherwise, with auto-install skipped nothing is found, and without it the debug APKs are installed and the component is what the same queries resolve to afterwards |
| InstrumentationResolver.WildcardAsWrittenFallsBack | tools/capture_screenshots.py:164-171 | as written, the pattern compiled for a wildcard package never expands `*`, so a wildcard package with a literal runner matches no listed component and the first one listed is used |
| InstrumentationResolver.WildcardExpandedMatches | tools/capture_screenshots.py:545-593 | with `*` expanded, the same request picks the component the pattern names |
| InstrumentationResolver.ScenarioParts | tools/capture_screenshots.py:164-171 | the sample request `pkg.*/Runner2` meets the wildcard lemmas' conditions |
| InstrumentationResolver.ScenarioGlobMatches | tools/capture_screenshots.py:164-171 | `pkg.*/Runner2`, expanded, matches `pkg.b/Runner2` |
| InstrumentationResolver.ScenarioGlobRejects | tools/capture_screenshots.py:164-171 | `pkg.*/Runner2`, expanded, does not match `pkg.a/Runner1` |
| InstrumentationResolver.WildcardScenarioAsWritten | tools/capture_screenshots.py:164-171 | as written, `pkg.*/Runner2` over `[pkg.a/Runner1, pkg.b/Runner2]` resolves to `pkg.a/Runner1` |
| InstrumentationResolver.WildcardScenarioExpanded | tools/capture_screenshots.py:545-593 | expanded, the same request resolves to `pkg.b/Runner2` |
| FleetHealth.AttributeOf | tools/device_fleet_health.py:116-120 | a token gives an attribute only when it contains `:`; the key holds no `:`, key and value are non-empty, and key, `:` and value rebuild the token |
| FleetHealth.Attributes | tools/device_fleet_health.py:114-120 | every attribute has a non-empty key without `:` and a non-empty value, and comes from a `key:value` token of the line |
| FleetHealth.DeviceOfLine | tools/device_fleet_health.py:104-121 | blank lines, the `List of devices` header and lines with fewer than two tokens give no device; a device's serial and state are non-empty and hold no whitespace |
| FleetHealth.ParseDevicesOutput | tools/device_fleet_health.py:101-122 | every record has a non-empty serial and state |
| FleetHealth.NotHeader | tools/device_fleet_health.py:105 | a line made of a space-free serial, a space and a space-free state is never the header |
| FleetHealth.DeviceLineOf | tools/device_fleet_health.py:101-122 | round trip: the line `<serial> <state>` reads back as that device, with no attributes |
| FleetHealth.LineTrimmed | tools/device_fleet_health.py:104 | such a line is its own stripped form |
| FleetHealth.AttributeTokenOf | tools/device_fleet_health.py:115-120 | round trip: a lone `key:value` token gives exactly that attribute |
| FleetHealth.TypesOf | tools/device_fleet_health.py:138 | one phase type per event, in order |
| FleetHealth.SummaryStep | tools/device_fleet_health.py:134-140 | one more event adds its type to the counts and, if its type is `error` in any case, itself to the end of the errors |
| FleetHealth.SummarizeEvents | tools/device_fleet_health.py:133-141 | the counts are the multiset of the event types, adding up to the number of events, and the errors are the error events in order |
| FleetHealth.GatherPhaseMetrics | tools/device_fleet_health.py:132-141 | the counts add up to the number of lines that are phase events, each type counted as often as it occurs; the errors are exactly the events whose lower-cased type is `error`, in input order |
| FleetHealth.GatherTestpointMetrics | tools/device_fleet_health.py:144-152 | the counts are the multiset of the test points the lines name; lines that do not parse are ignored |
| FleetHealth.FilterDevices | tools/device_fleet_health.py:350-356 | no filter, or an empty one, keeps the records unchanged; otherwise a record is kept exactly when its serial was requested |
| FleetHealth.FilterDevicesAppend | tools/device_fleet_health.py:356 | the filter works record by record, so it keeps the listing's order |
| FleetHealth.ExecuteHealthcheck | tools/device_fleet_health.py:190-277 | a device passes exactly when a component was found, the run did not time out, it exited with 0 and no phase errors were reported; a failing device always has a reason: the resolution error, a missing component, the timeout, the non-zero exit code, then phase errors whenever there are some, and otherwise a reported failure |
| FleetHealth.ReasonText | tools/device_fleet_health.py:251-261 | every reason has a non-empty message, and an exit code's message starts with `Instrumentation exited with code ` |
| FleetHealth.ReasonTextExitCode | tools/device_fleet_health.py:256-257 | the exit code reads back from its message |
| FleetHealth.ResultFor | tools/device_fleet_health.py:392-412 | a device not in the `device` state fails with `Device state is …` without being probed; only a ready device can pass |
| FleetHealth.Results | tools/device_fleet_health.py:391-412 | one result per device, in order |
| FleetHealth.FleetMain | tools/device_fleet_health.py:373-428 | 2 when adb cannot list devices; 1 when no device matches; an unparsable `--extra-arg` raises; 0 exactly when devices matched, the extras parse, the report (if asked for) was written and every device passed; otherwise 1 |
| FleetHealth.UnreadyDeviceFailsRun | tools/device_fleet_health.py:393-428 | one selected device outside the `device` state makes the run fail |
| BaselineGuard.BaselineNotRelevant | tools/scripts/baseline_profile_guard.py:119-124 | the baseline profile lies in the main source set, yet it is never a relevant path, because its exclusion is checked first |
| BaselineGuard.MarkerContained | tools/scripts/baseline_profile_guard.py:123 | a path built around `/src/main/` contains it |
| BaselineGuard.SourceSetRelevant | tools/scripts/baseline_profile_guard.py:119-124 | any other path under a main source set is relevant, whatever its extension |
| BaselineGuard.SuffixCaseInsensitive | tools/scripts/baseline_profile_guard.py:119-133 | a path other than the baseline whose lower-cased form has a relevant suffix is relevant |
| BaselineGuard.UpperCaseKotlinRelevant | tools/scripts/baseline_profile_guard.py:132-133 | `Main.KT` is relevant, the suffix test being made on the lower-cased path |
| BaselineGuard.NormalizeSeparators | tools/scripts/baseline_profile_guard.py:147 | replacing `\` with `/` keeps the length and leaves no `\` |
| BaselineGuard.ChangedPaths | tools/scripts/baseline_profile_guard.py:144-147 | the evaluated paths are exactly the normalised, non-empty entries of the change list |
| BaselineGuard.EvaluateChanges | tools/scripts/baseline_profile_guard.py:136-157 | never skipped; the baseline is touched exactly when an entry names it; the impacting files are exactly the relevant paths named, each once, in increasing order; a profile is needed exactly when there is one |
| BaselineGuard.EvaluateBySet | tools/scripts/baseline_profile_guard.py:136-157 | the evaluation does not depend on the order or repetition of the changed files |
| BaselineGuard.ImpactingBySet | tools/scripts/baseline_profile_guard.py:142-157 | change lists naming the same paths give the same impacting files |
| BaselineGuard.NamesBySet | tools/scripts/baseline_profile_guard.py:144-147 | change lists with the same entries name the same paths |
| BaselineGuard.RemindWhen | tools/scripts/baseline_profile_guard.py:84-157 | a reminder is due exactly when some relevant path changed and the baseline did not |
| BaselineGuard.OutputLineRoundTrip | tools/scripts/baseline_profile_guard.py:76-80 | a `key=true|false` line for a plain key has no line break and reads back as that key and flag |
| BaselineGuard.KeysPlain | tools/scripts/baseline_profile_guard.py:76-80 | the four output keys hold no `=` and no line break |
| BaselineGuard.OutputsRoundTrip | tools/scripts/baseline_profile_guard.py:75-82 | the outputs are exactly four lines that read back, in order, as `baseline_touched`, `needs_profile`, `reminder` and `skipped` with their values |
| BaselineGuard.OutputsOf | tools/scripts/baseline_profile_guard.py:75-82 | four joined lines for plain keys read back as those keys and flags |
| BaselineGuard.LinesRoundTrip | tools/scripts/baseline_profile_guard.py:82 | four lines without breaks come back from their `\n` join |
| BaselineGuard.ChangedFiles | tools/scripts/baseline_profile_guard.py:107 | the changed files from `git diff` are stripped and non-blank |
| BaselineGuard.Evaluate | tools/scripts/baseline_profile_guard.py:263-273 | skipped exactly when nothing changed, and then no reminder; otherwise `evaluate_changes` |
| BaselineGuard.GuardMain | tools/scripts/baseline_profile_guard.py:251-287 | a git failure with the baseline present is an error; otherwise the exit code is 0 or 1, and 1 exactly when the baseline is missing or a reminder is due under `--fail-when-outdated` |
| LogMarkers.EvaluateRequirements | tools/scripts/verify_log_markers.py:55-66 | every required marker absent from the text is reported, and so is every non-empty group with no member present, as its alternatives joined by ` \| `; nothing else is reported, and empty groups never are |
| LogMarkers.EvaluateRequirementsEmpty | tools/scripts/verify_log_markers.py:55-66 | nothing is missing exactly when every required marker occurs and every non-empty group has a member in the text |
| LogMarkers.GroupOf | tools/scripts/verify_log_markers.py:72-73 | a `--require-any` value gives a group exactly when it has a non-blank `\|\|` segment; the group is its trimmed, non-empty segments |
| LogMarkers.ParseGroups | tools/scripts/verify_log_markers.py:69-75 | at most one group per value; every group is non-empty and holds trimmed, non-empty alternatives |
| LogMarkers.ParseGroupRoundTrip | tools/scripts/verify_log_markers.py:69-75 | round trip: a group of trimmed alternatives without `\|`, written as `A\|\|B\|\|…`, parses back to itself |
| LogMarkers.ParseFlag | tools/scripts/verify_log_markers.py:78-87 | `True` exactly for a trimmed, lower-cased value among 1/true/yes/on; `False` exactly for one among 0/false/no/off |
| LogMarkers.ParseFlagAgrees | tools/scripts/verify_log_markers.py:78-87 | outside the single-letter forms this switch reads like the screenshot script's |
| LogMarkers.ShortWordIgnored | tools/scripts/verify_log_markers.py:83-87 | `y` sets the screenshot script's switch but not this one |
| LogMarkers.FirstFlag | tools/scripts/verify_log_markers.py:91-99 | nothing exactly when no key's value parses; otherwise the reading of a key whose value parses, with no earlier key parsing |
| LogMarkers.FirstFlagDecides | tools/scripts/verify_log_markers.py:91-98 | a key whose value parses decides when no earlier key's value does, whatever follows |
| LogMarkers.VirtualizationUnavailableFromEnv | tools/scripts/verify_log_markers.py:90-99 | unavailable exactly when the first of the three switches that parses reads true; none parsing means available |
| LogMarkers.PathFailure | tools/scripts/verify_log_markers.py:105-117 | a log is reported exactly when it does not pass (missing, unreadable, or lacking markers), under its own path and with a non-empty list of what is missing |
| LogMarkers.VerifyLogs | tools/scripts/verify_log_markers.py:102-119 | at most one failure per path; each failure is for a given path that does not pass and lists something; every path that does not pass is reported |
| LogMarkers.VerifyLogsEmpty | tools/scripts/verify_log_markers.py:102-119 | no failure is reported exactly when every log passes |
| LogMarkers.VerifyLogsAppend | tools/scripts/verify_log_markers.py:104-117 | logs are reported in the order given: checking a concatenation concatenates the reports |
| LogMarkers.VerifyOneLog | tools/scripts/verify_log_markers.py:105-117 | a missing file is reported as `file is missing` and an unreadable one as `unable to read log: …`, before any marker is looked for; a readable log lists its missing markers; a passing log is not reported |
| LogMarkers.LogMarkersMain | tools/scripts/verify_log_markers.py:146-171 | the exit code is 0 or 1; it is 0 exactly when virtualization is unavailable, which is checked first, or when every log passes |
| MacrobenchmarkCoverage.OutcomeOf | tools/verify_macrobenchmark_coverage.py:66-70 | failed exactly when a `failure` or `error` child exists; skipped exactly when there is none but a `skipped` child or a `skipped` status in any case; passed otherwise |
| MacrobenchmarkCoverage.FailureChildWins | tools/verify_macrobenchmark_coverage.py:67-68 | a failure or error child outranks every other child and the status |
| MacrobenchmarkCoverage.SkippedChildSkips | tools/verify_macrobenchmark_coverage.py:69-70 | a skipped child marks a testcase without failures skipped, whatever its status |
| MacrobenchmarkCoverage.Classify | tools/verify_macrobenchmark_coverage.py:61-71 | a testcase is dropped exactly when its trimmed class or name is blank; otherwise it is recorded under its trimmed class and name with its outcome |
| MacrobenchmarkCoverage.ParseReport | tools/verify_macrobenchmark_coverage.py:51-72 | an unparsable report gives nothing; otherwise the results are exactly the classified testcases |
| MacrobenchmarkCoverage.Executed | tools/verify_macrobenchmark_coverage.py:99-111 | a test counts as executed exactly when some report has it passing |
| MacrobenchmarkCoverage.MissingTests | tools/verify_macrobenchmark_coverage.py:123 | the missing tests are exactly the required ones not executed, sorted and without repeats |
| MacrobenchmarkCoverage.ConfirmedTests | tools/verify_macrobenchmark_coverage.py:138 | the confirmed tests are exactly the required ones executed, sorted and without repeats |
| MacrobenchmarkCoverage.CoverageVerdict | tools/verify_macrobenchmark_coverage.py:89-141 | no reports exactly when none were found; failures exactly when some testcase failed; skips exactly when none failed and one was skipped; a missing list, non-empty, sorted and exactly the required tests not executed; covered exactly when reports exist, nothing failed or was skipped, and every required test was executed |
| MacrobenchmarkCoverage.CoverageMain | tools/verify_macrobenchmark_coverage.py:75-141 | exit 0 exactly when reports were found, nothing failed or was skipped, and every required scenario was executed; otherwise 1 |
| MacrobenchmarkCoverage.PassingReportKeepsCoverage | tools/verify_macrobenchmark_coverage.py:99-141 | one more report in which everything passed keeps a covered run covered |
| MacrobenchmarkCoverage.OnlyPassesAdded | tools/verify_macrobenchmark_coverage.py:103-121 | such a report adds no failure and no skip |
| MacrobenchmarkCoverage.ExtraPasses | tools/verify_macrobenchmark_coverage.py:60-71 | every result of such a report passed |
| MacrobenchmarkCoverage.ExecutedGrows | tools/verify_macrobenchmark_coverage.py:103-111 | a further report never removes an executed test |
| LogAggregation.Candidate | tools/aggregate_ci_logs.py:152-157 | the renamed path `<parent>/<stem>-<counter><suffix>` is longer than the original |
| LogAggregation.CandidateDistinct | tools/aggregate_ci_logs.py:155-158 | different counters give different renamed paths |
| LogAggregation.CandidateRangeSize | tools/aggregate_ci_logs.py:155-158 | the candidates for counters `start + 1` to `n` are `n - start` distinct paths |
| LogAggregation.CandidatesCounted | tools/aggregate_ci_logs.py:155-158 | candidates already taken are no more numerous than the paths in use, so the search for a free one ends |
| LogAggregation.NextFree | tools/aggregate_ci_logs.py:155-162 | the `while True` loop ends at the first counter above the stored one whose candidate is free |
| LogAggregation.Assign | tools/aggregate_ci_logs.py:149-164 | an unused path is kept; a used one becomes `<stem>-<k><suffix>` for a `k` above its stored counter, which becomes the new counter; the result was not in use, and both paths are in use afterwards |
| LogAggregation.Disambiguate | tools/aggregate_ci_logs.py:144-165 | one final path per input path, pairwise distinct; the paths in use afterwards are exactly the inputs and the results |
| LogAggregation.AssignKeeps | tools/aggregate_ci_logs.py:146-165 | one more file keeps the bookkeeping invariant of the loop: counters positive, in-use paths exactly the inputs and results, results distinct |
| LogAggregation.DisambiguatePrefix | tools/aggregate_ci_logs.py:146-165 | a file's final path depends only on the files before it |
| LogAggregation.FinalPath | tools/aggregate_ci_logs.py:149-164 | a file keeps its relative path exactly when no earlier file had that path or was renamed to it; otherwise it gets `<stem>-<k><suffix>` with `k >= 2` |
| LogAggregation.CollectLogFiles | tools/aggregate_ci_logs.py:141-169 | one entry per staged file, in order, keeping its source, size and checksum, under pairwise distinct relative paths chosen by the disambiguation |
| LogAggregation.MetadataPathRoundTrip | tools/aggregate_ci_logs.py:64-68 | round trip: the export prefix `device/test/config/run_id` splits back into its four components when none is empty or holds `/` |
| LogAggregation.TotalBytes | tools/aggregate_ci_logs.py:175 | the total of no files is 0 and is at least each file's size; with TotalBytesSingle and TotalBytesAppend it is the sum of the sizes |
| LogAggregation.TotalBytesSingle | tools/aggregate_ci_logs.py:175 | the total of one file is its size |
| LogAggregation.TotalBytesAppend | tools/aggregate_ci_logs.py:175 | the total of two batches of files is the sum of their totals |
| LogAggregation.BuildManifest | tools/aggregate_ci_logs.py:172-194 | the manifest names the run, counts the files, lists one entry per file in order, and its byte total is the sum of the file sizes |
| LogAggregation.ManifestTotalsAdd | tools/aggregate_ci_logs.py:172-194 | the file count, the byte total and the file list of two batches together are those of each batch combined |
| LogAggregation.FormatOf | tools/aggregate_ci_logs.py:258-264 | only `dir`, `tar` and `zip` are accepted; anything else fails with `Unsupported archive format: <name>` |
| LogAggregation.ExportLogs | tools/aggregate_ci_logs.py:199-264 | an unsupported format fails with its message; a directory export goes under `output/<device>/<test>/<config>/<run_id>`, an archive goes to `output` with that prefix; every file lands at prefix plus its relative path, in order, with the manifest beside them |
| LogAggregation.PrefixKeepsDistinct | tools/aggregate_ci_logs.py:205-242 | putting a common prefix in front keeps distinct paths distinct |
| LogAggregation.CollectedExportDistinct | tools/aggregate_ci_logs.py:141-264 | collected logs never overwrite each other in an export |
| PerformanceRetention.ParseTimestamp | tools/scripts/retire_performance_results.py:39-50 | a blank stamp fails with "timestamp is empty"; a stripped stamp without a trailing `Z` goes to the ISO-8601 parser unchanged |
| PerformanceRetention.ZuluParse | tools/scripts/retire_performance_results.py:43-45 | a stamp ending in `Z` is parsed with `+00:00` in place of the `Z` |
| PerformanceRetention.OffsetParse | tools/scripts/retire_performance_results.py:39-45 | a stamp already ending in `+00:00` is parsed as it stands |
| PerformanceRetention.ZuluIsUtc | tools/scripts/retire_performance_results.py:43-50 | `<t>Z` and `<t>+00:00` are the same instant |
| PerformanceRetention.StripTrailingZ | tools/scripts/retire_performance_results.py:57 | `rstrip("Z")` yields a prefix of the input that does not end in `Z` |
| PerformanceRetention.ZuluTrimmed | tools/scripts/retire_performance_results.py:57 | stripping a time part with one appended `Z` gives the time part back |
| PerformanceRetention.DashesToColons | tools/scripts/retire_performance_results.py:60 | `replace("-", ":")` keeps the length and changes exactly the dashes |
| PerformanceRetention.DirectoryTimestamp | tools/scripts/retire_performance_results.py:53-55 | a directory name without `T` gives no timestamp |
| PerformanceRetention.RunNameTimestamp | tools/scripts/retire_performance_results.py:53-64 | a run named `<date>T<HH-MM-SS>Z` is dated by parsing `<date>T<HH:MM:SS>+00:00`, and undated when that parse fails |
| PerformanceRetention.ResolveRecordedAt | tools/scripts/retire_performance_results.py:67-94 | undecodable or invalid-JSON metadata skips the run as unreadable; a read error or a non-object payload raises; a non-blank string `recorded_at` decides (skipping the run when it does not parse); otherwise the directory name decides, and "recorded_at missing" when it does not parse |
| PerformanceRetention.MetadataOutranksName | tools/scripts/retire_performance_results.py:78-89 | once metadata is unreadable, raises or carries a `recorded_at`, the directory name makes no difference |
| PerformanceRetention.NameDatesBareRun | tools/scripts/retire_performance_results.py:91-94 | without `metadata.json` a run never raises and is dated exactly when its name parses |
| PerformanceRetention.ResolverOf | tools/scripts/retire_performance_results.py:117-121 | exactly the sub-directories of the runs directory are resolved, each by `_resolve_recorded_at` |
| PerformanceRetention.SweepRuns | tools/scripts/retire_performance_results.py:117-132 | every removed run is older than the cutoff and every kept run is at or after it |
| PerformanceRetention.RunPaths | tools/scripts/retire_performance_results.py:126 | the paths of the listed runs, one per run in order |
| PerformanceRetention.SkippedPaths | tools/scripts/retire_performance_results.py:123 | the paths of the skipped runs, one per entry in order |
| PerformanceRetention.SweepSound | tools/scripts/retire_performance_results.py:117-132 | every listed path is one of the entries, with the resolution that put it in its list |
| PerformanceRetention.SweepComplete | tools/scripts/retire_performance_results.py:117-132 | without an exception every entry that is a directory is listed |
| PerformanceRetention.StepGrows | tools/scripts/retire_performance_results.py:118-132 | one loop iteration keeps everything already listed and lists its own directory unless it raises |
| PerformanceRetention.SweepOrdered | tools/scripts/retire_performance_results.py:117 | over sorted entries each of the three lists is sorted and no path is listed twice |
| PerformanceRetention.ListedBefore | tools/scripts/retire_performance_results.py:117 | what the loop listed so far precedes any later entry |
| PerformanceRetention.StepOrdered | tools/scripts/retire_performance_results.py:118-132 | an iteration appends its entry after everything listed, keeping the lists sorted and distinct |
| PerformanceRetention.AppendSorted | tools/scripts/retire_performance_results.py:123-132 | appending an element greater than all others keeps a list sorted |
| PerformanceRetention.DistinctInsert | tools/scripts/retire_performance_results.py:123-132 | inserting a path not yet listed keeps the listed paths distinct |
| PerformanceRetention.RetireRuns | tools/scripts/retire_performance_results.py:97-134 | a non-positive retention raises "retention_days must be positive"; a missing directory gives an empty report; the cutoff is `now` less `retention_days` days; removed runs are older than it and kept runs are not; a dry run deletes nothing and a real run deletes exactly the removed runs |
| PerformanceRetention.RetirePartition | tools/scripts/retire_performance_results.py:114-134 | a completed sweep lists every run directory exactly once, each list in path order, each run in the list its resolved timestamp puts it in |
| PerformanceRetention.ReportIsSweep | tools/scripts/retire_performance_results.py:107-134 | a completed report is the loop's lists over the sorted directory, with cutoff `now - retention_days * 86400` |
| PerformanceRetention.SweepOfPartition | tools/scripts/retire_performance_results.py:117-132 | the loop over the sorted entries partitions the run directories when nothing raises |
| PerformanceRetention.SweepCovers | tools/scripts/retire_performance_results.py:117-124 | the listed paths are exactly the sub-directories of the runs directory |
| PerformanceRetention.SweepPlaced | tools/scripts/retire_performance_results.py:121-132 | each listed path carries the outcome `_resolve_recorded_at` gives for it |
| PerformanceRetention.ListedAreRuns | tools/scripts/retire_performance_results.py:118-119 | a listed path is never a plain file |
| PerformanceRetention.DryRunSameReport | tools/scripts/retire_performance_results.py:127-132 | `--dry-run` yields the same report or exception and deletes nothing |
| PerformanceRetention.RetireMain | tools/scripts/retire_performance_results.py:167-206 | a non-positive retention or an unparsable `--now` exits 1; the exit code is 0 exactly when the timestamp parses and the sweep completes |
| ResourceSnapshot.BuildAdbCommand | tools/device_resource_snapshot.py:25-30 | the command starts with the adb binary and ends with the extra arguments unchanged |
| ResourceSnapshot.AdbCommandRoundTrip | tools/device_resource_snapshot.py:25-30 | `-s <serial>` selects the device exactly when a non-empty serial is given, and the command has no other arguments |
| ResourceSnapshot.MeminfoEntry | tools/device_resource_snapshot.py:46-57 | a line without `:` contributes nothing, and a key read is trimmed |
| ResourceSnapshot.MeminfoOfLines | tools/device_resource_snapshot.py:43-58 | a key is in the result exactly when some line yields it, and its value is one that line yields |
| ResourceSnapshot.ParseMeminfo | tools/device_resource_snapshot.py:43-58 | a key is in the result exactly when some line of the text yields it, with a value that line yields |
| ResourceSnapshot.MeminfoLastLineWins | tools/device_resource_snapshot.py:45-55 | a key's value comes from the last line that names it |
| ResourceSnapshot.MeminfoLineRoundTrip | tools/device_resource_snapshot.py:46-55 | a line `<key>:<spaces><n><unit>` reads back as the key and `n` |
| ResourceSnapshot.MeminfoEntryOf | tools/device_resource_snapshot.py:48-55 | a line whose trimmed value starts with an integer token yields its trimmed key and that integer |
| ResourceSnapshot.ValueTokens | tools/device_resource_snapshot.py:50-53 | the first whitespace token of `<spaces><number><unit>` is the number |
| ResourceSnapshot.IntToStringToken | tools/device_resource_snapshot.py:53-55 | `str(n)` is one non-blank token |
| ResourceSnapshot.ReadMemory | tools/device_resource_snapshot.py:210-214 | each of the four fields is the `meminfo` value of its key, or 0 when the key is absent |
| ResourceSnapshot.CpuFields | tools/device_resource_snapshot.py:64-70 | every token after the label becomes one value |
| ResourceSnapshot.CpuTimes | tools/device_resource_snapshot.py:71-79 | a line without fields gives nothing; otherwise the total is the sum of the fields and idle is the fourth field plus the fifth when present |
| ResourceSnapshot.FirstCpuLine | tools/device_resource_snapshot.py:62-63 | the first line starting with `cpu `, and none when no line does |
| ResourceSnapshot.CpuOfLines | tools/device_resource_snapshot.py:61-80 | succeeds exactly when a `cpu ` line exists and the first such line has fields, with that line's times; otherwise raises "Unable to locate aggregate CPU stats in /proc/stat output" |
| ResourceSnapshot.ParseCpuLine | tools/device_resource_snapshot.py:61-80 | succeeds exactly when the text's first `cpu ` line has fields, with that line's times; otherwise fails with the missing-statistics message |
| ResourceSnapshot.FirstCpuLineShift | tools/device_resource_snapshot.py:62-63 | a line not starting with `cpu ` in front of the input changes nothing |
| ResourceSnapshot.OtherLinesIgnored | tools/device_resource_snapshot.py:62-63 | any number of lines not starting with `cpu ` in front of the input change nothing |
| ResourceSnapshot.PerCoreLineIgnored | tools/device_resource_snapshot.py:22-63 | a per-core line `cpu<n>...` never counts as the aggregate line |
| ResourceSnapshot.IdleWithinTotal | tools/device_resource_snapshot.py:73-78 | with non-negative counters, idle time lies between 0 and the total |
| ResourceSnapshot.SumNonNegative | tools/device_resource_snapshot.py:73 | a sum of non-negative counters is non-negative |
| ResourceSnapshot.SumAtLeastOne | tools/device_resource_snapshot.py:73-76 | the sum is at least any one non-negative counter |
| ResourceSnapshot.SumAtLeastTwo | tools/device_resource_snapshot.py:73-78 | the sum is at least any two distinct non-negative counters together |
| ResourceSnapshot.SpaceJoined | tools/device_resource_snapshot.py:64 | tokens joined with a leading space each start with whitespace |
| ResourceSnapshot.SpaceJoinedTokens | tools/device_resource_snapshot.py:64 | splitting space-joined tokens on whitespace gives the tokens back |
| ResourceSnapshot.Naturals | tools/device_resource_snapshot.py:65-68 | the counters as integers, one for one |
| ResourceSnapshot.Rendered | tools/device_resource_snapshot.py:64-68 | each counter rendered as its decimal string, one for one |
| ResourceSnapshot.StatFieldsTokens | tools/device_resource_snapshot.py:64 | the fields of a rendered `/proc/stat` line split back into the rendered counters |
| ResourceSnapshot.CpuLineRoundTrip | tools/device_resource_snapshot.py:61-79 | the line `cpu <v0> <v1> ...` reads as the counters' sum and their idle time |
| ResourceSnapshot.AggregateLineRead | tools/device_resource_snapshot.py:22-63 | such a line is the aggregate line the parser looks for |
| ResourceSnapshot.CountFragmentsAppend | tools/device_resource_snapshot.py:110-127 | the count of a fragment list is the sum of its parts' counts |
| ResourceSnapshot.PresentCountOfList | tools/device_resource_snapshot.py:107-127 | a trimmed comma-separated list counts as its fragments do |
| ResourceSnapshot.RangeFragment | tools/device_resource_snapshot.py:114-121 | the fragment `a-b` counts `b - a + 1` CPUs |
| ResourceSnapshot.SingleFragment | tools/device_resource_snapshot.py:122-127 | a lone CPU number counts one CPU |
| ResourceSnapshot.ProcessorCount | tools/device_resource_snapshot.py:136-140 | no more processors are counted than there are lines |
| ResourceSnapshot.ProcessorCountAppend | tools/device_resource_snapshot.py:137-139 | the processor count of two blocks of lines is the sum of their counts |
| ResourceSnapshot.DetectCpuCores | tools/device_resource_snapshot.py:102-140 | a positive `cpu/present` count wins; otherwise the `processor` lines of `cpuinfo` are counted, and 0 when that read fails; never negative |
| AutoFixer.MissingVariables | tools/auto_fixer/auto_fixer.py:58-61 | a name is reported exactly when it is one of the four required variables and is unset or empty |
| AutoFixer.MissingInListedOrder | tools/auto_fixer/auto_fixer.py:58-61 | the missing names come in the fixed order `GITHUB_TOKEN`, `REPO_OWNER`, `REPO_NAME`, `OPENAI_API_KEY` |
| AutoFixer.ConfigFromEnv | tools/auto_fixer/auto_fixer.py:57-76 | fails listing the missing variables exactly when some are missing; otherwise the four values come from the environment, the model defaults to `gpt-4.1-mini`, the iteration limit is `int` of its variable or of `"0"`, a run id is read only when its variable is set and non-empty, and only those two integers can fail to parse; nothing missing and both integers parsing gives a configuration, and a parse error carries the text that did not parse |
| AutoFixer.DefaultsApply | tools/auto_fixer/auto_fixer.py:51-76 | with only the required variables set the configuration succeeds with every default |
| AutoFixer.EmptyIterationLimitRejected | tools/auto_fixer/auto_fixer.py:73 | an empty `AUTO_FIX_MAX_ITERATIONS` is not replaced by the default and fails to parse |
| AutoFixer.NoneMissing | tools/auto_fixer/auto_fixer.py:58-62 | with all four required variables set nothing is reported missing |
| AutoFixer.MaxOf | tools/auto_fixer/auto_fixer.py:329 | `max` returns an element no smaller than any other |
| AutoFixer.LastOfAny | tools/auto_fixer/auto_fixer.py:327-329 | no position exactly when no keyword occurs; otherwise a position where a keyword starts, with none starting later |
| AutoFixer.NoneOccurs | tools/auto_fixer/auto_fixer.py:327-328 | when no keyword is found, none starts anywhere |
| AutoFixer.LastOccurs | tools/auto_fixer/auto_fixer.py:327 | every `rfind` result kept is a position where a keyword starts |
| AutoFixer.NoneLater | tools/auto_fixer/auto_fixer.py:327-329 | no keyword starts after the largest `rfind` result |
| AutoFixer.Anchor | tools/auto_fixer/auto_fixer.py:325-329 | the anchor is the last position where any of the five keywords starts in the lowered log, inside the log, and none when no keyword occurs |
| AutoFixer.KeywordBeforeEnd | tools/auto_fixer/auto_fixer.py:327 | a keyword occurrence starts inside the text |
| AutoFixer.KeywordsNonEmpty | tools/auto_fixer/auto_fixer.py:326 | every keyword is non-empty |
| AutoFixer.AnchoredWindow | tools/auto_fixer/auto_fixer.py:330-332 | the window is a piece of the log starting 200 characters before the anchor (or at 0) and at most `200 + max_chars` long |
| AutoFixer.StripWithin | tools/auto_fixer/auto_fixer.py:335 | stripping a piece of the log leaves a piece of the log that is no longer |
| AutoFixer.WithinTransitive | tools/auto_fixer/auto_fixer.py:332-335 | a piece of a piece of the log is a piece of the log |
| AutoFixer.ExtractFailureSnippet | tools/auto_fixer/auto_fixer.py:322-335 | the excerpt is a contiguous piece of the log, for a positive limit at most `200 + max_chars` long; with a keyword it is the stripped slice from 200 before the last keyword to `max_chars` after it; without one it is the stripped last `max_chars` characters, the whole log for a limit of 0, and the log minus its first `-max_chars` characters for a negative limit |
| AutoFixer.SnippetWindow | tools/auto_fixer/auto_fixer.py:328-334 | the slice before stripping, case by case as above |
| AutoFixer.TailSlice | tools/auto_fixer/auto_fixer.py:334 | `logs[-max_chars:]` is the last `max_chars` characters for a positive limit, the whole log for 0, and drops the first `-max_chars` for a negative one |
| AutoFixer.AnchorInWindow | tools/auto_fixer/auto_fixer.py:328-332 | with a keyword and a positive limit the window contains the anchor |
| AutoFixer.ZeroLimitKeepsWholeLog | tools/auto_fixer/auto_fixer.py:333-335 | with no keyword and `max_chars = 0`, `logs[-0:]` is the whole log, stripped |
| AutoFixer.ZeroLimitBreaksBound | tools/auto_fixer/auto_fixer.py:333-335 | a 201-character keyword-free log comes back longer than `200 + 0` |
| AutoFixer.LastChars | tools/auto_fixer/auto_fixer.py:334 | the last `min(len, n)` characters, taken from the end of the log |
| AutoFixer.ExtractFailureSnippetBounded | tools/auto_fixer/auto_fixer.py:322-335 | the corrected excerpt is a piece of the log at most `200 + max_chars` long for every limit |
| AutoFixer.BoundedAgreesForPositiveLimit | tools/auto_fixer/auto_fixer.py:322-335 | for a positive limit the corrected excerpt equals the one written |
| AutoFixer.ConclusionOf | tools/auto_fixer/auto_fixer.py:231 | a missing or empty conclusion reads as `pending`, never empty; a present one is kept |
| AutoFixer.CheckConclusions | tools/auto_fixer/auto_fixer.py:228-231 | one conclusion per check run, in order |
| AutoFixer.ChecksVerdict | tools/auto_fixer/auto_fixer.py:374-379 | passed exactly when there are conclusions and all are `success`; failed exactly when one is `failure` or `cancelled` |
| AutoFixer.VerdictBySet | tools/auto_fixer/auto_fixer.py:375-377 | the verdict depends only on which conclusions occur |
| AutoFixer.PassedBySet | tools/auto_fixer/auto_fixer.py:375 | a passing set of conclusions passes in any order or multiplicity |
| AutoFixer.FailedBySet | tools/auto_fixer/auto_fixer.py:377 | a failing set of conclusions fails in any order or multiplicity |
| AutoFixer.PendingNeverPasses | tools/auto_fixer/auto_fixer.py:370-376 | a check run with no conclusion (reported as `pending`) keeps the commit from passing |
| AutoFixer.PollChecks | tools/auto_fixer/auto_fixer.py:371-380 | times out with "Timed out waiting for checks to complete" exactly when no poll decides; otherwise the answer is the first deciding poll's |
| AutoFixer.FirstDecided | tools/auto_fixer/auto_fixer.py:373-379 | the first poll that is not pending, and none when all are |
| AutoFixer.PollDecidedEarly | tools/auto_fixer/auto_fixer.py:375-378 | polls after the deciding one do not change the answer |
| AutoFixer.Ask | tools/auto_fixer/auto_fixer.py:394-398 | a pass records exactly one lookup |
| AutoFixer.AskFollows | tools/auto_fixer/auto_fixer.py:391-398 | the lookup keeps the loop's records well formed |
| AutoFixer.HandleFollows | tools/auto_fixer/auto_fixer.py:409-464 | handling a run not seen before keeps it handled once and the loop invariant for the next iteration |
| AutoFixer.FixLoopFrom | tools/auto_fixer/auto_fixer.py:391-465 | the loop only extends its records, handles at most `max_iterations` runs when that is positive, raises only once it has handled exactly that many, and its next lookup is the one the state calls for; every run it handles is a fetched failed run, and each stop reason is backed by a pass that answered that way |
| AutoFixer.FollowsItself | tools/auto_fixer/auto_fixer.py:391 | a state that stops at once keeps its records |
| AutoFixer.FailedRun | tools/auto_fixer/auto_fixer.py:402-464 | a run already processed is skipped without an iteration; a new one is handled, and the loop goes on only when its checks fail; what is handled and why it stops is backed by the passes |
| AutoFixer.NewRun | tools/auto_fixer/auto_fixer.py:413-464 | handling a new run records it once and keeps the iteration bound; every run it handles is a fetched failed run, and a `Resolved` or `ChecksTimedOut` stop is backed by a pass whose checks passed or timed out |
| AutoFixer.Continues | tools/auto_fixer/auto_fixer.py:391-464 | what the rest of the loop records extends what this pass recorded |
| AutoFixer.ExhaustsFrom | tools/auto_fixer/auto_fixer.py:391-465 | from any state of the loop, if each pass fetches a new failed run whose checks fail, the loop raises once it has had a pass for each iteration left |
| AutoFixer.FailedFixStep | tools/auto_fixer/auto_fixer.py:402-464 | a pass that fetches a new failed run whose fix's checks fail handles that run, adds one iteration and keeps the loop invariant |
| AutoFixer.ExhaustsWhenEveryFixFails | tools/auto_fixer/auto_fixer.py:383-465 | with a positive `max_iterations` and that many passes that each bring a new failed run whose fix fails, `iterate_auto_fix` raises |
| AutoFixer.InitialLoop | tools/auto_fixer/auto_fixer.py:387-390 | the loop's starting state satisfies its invariant |
| AutoFixer.IterateAutoFix | tools/auto_fixer/auto_fixer.py:383-465 | no run is handled twice, and every handled run is a fetched run that concluded with a failure; a positive `max_iterations` bounds the fix attempts, and when the loop raises it has handled exactly that many (the converse fails: the last allowed fix can pass); `Resolved` means some pass's checks passed, a timeout that some pass's polls all stayed pending, `NotAFailure` and `NoFailingRun` that some pass fetched such an answer; only the first lookup uses the configured run id, and every later one asks for the latest failure |

## Left out

- Process spawning, `adb`, `git`, `subprocess`, HTTP clients and file I/O are left out. Their outputs enter the model as parameters.
- The reader thread, the startup deadline and timing are left out. The instrumentation output is a finite sequence of lines, each without its line break.
- Floating-point computations are left out: `sample_cpu_usage`, `mem_available_percent`, `evaluate_thresholds` and `format_summary`. They are floating point and sleep-based.
- Character classes (`isspace`, `isalnum`, `lower`) are modelled on ASCII only. `int()` is modelled without underscores and non-ASCII digits.
- JSON decoding (`json.loads`) is a parameter. The model assumes nothing about it beyond its type.
- `datetime.fromisoformat` is a parameter. `timedelta` overflow is not modelled.
- Timestamps are whole seconds since the epoch.
- Glob expansion, directory walking, hashing, ZIP/TAR archiving, the manifest's wall-clock time and JSON rendering in `aggregate_ci_logs.py` are left out. Only the staging names and the manifest entries are modelled.
- The JUnit XML parsing and `discover_reports` of `verify_macrobenchmark_coverage.py` are left out. Parsed reports are inputs.
- Console printing is left out. Only the one-shot guidance notices, and the flags that keep each one to a single emission, are modelled.
- The 60-second sleep between repeated lookups of an already handled workflow run is left out.
- `shutil.rmtree` is assumed to succeed. The model records which directories a sweep deletes.
- Path ordering of `sorted(runs_dir.iterdir())` is modelled as string order (`StrLess`) on the entry names.
- A `metadata.json` that is not UTF-8 is `NotUtf8`, and a read `OSError` is `ReadError`, which escapes the sweep.
- `gather_device_properties` (a sequence of `getprop` calls) is left out.
- From the auto fixer, these are left out:
  - the OpenAI calls, log download and patch application;
  - the branch name randomness;
  - pull request creation and auto-merge;
  - `parse_args` and `main`.
- In the auto fixer's passes, each lookup result and each fix branch is data.
- `_normalize_instrumentation_component` and `_prefer_requested_instrumentation_component` are not modelled. The resolver is modelled up to the list matching of `_resolve_instrumentation_component_once`.
- `ensure_instrumentation_target_installed` is modelled only up to extracting the target package. The `pm path` query is I/O.
- The crash collector's environment setup and script invocation are left out.
- `emit_startup_diagnostics` and the health-check command execution are left out.
- `summarise_results` printing is left out.
- AutoFixer.ExtractFailureSnippet: the length bound is stated only for a positive `max_chars`, because the code as written breaks it at 0 (see Findings).
- LogMarkers.EvaluateRequirements: states which entries are reported, not the order of the report.
- DeviceListings.ParseProcessListing: states which entries are listed, not their order.
- DeviceListings.ExtractInstrumentationComponents: states which components are listed, not their order.
- FleetHealth.ParseDevicesOutput: states that every entry has a non-empty serial and state; the line-level round trip is in `FleetHealth.DeviceLineOf`.
- JsonValues.PyInt: a `JFloat` carries a finite value. `json.loads` also accepts `Infinity`, `-Infinity` and `NaN`, and `int()` raises on those. The model returns the float's truncation instead, because the decoder is a parameter that produces only finite floats. The same holds where `PyInt` is used, in `CacheNames.PageNumber` and so `CacheNames.CaptureFileName`.
- HarnessSession.ObserveLine: uses the corrected phase parser. As written, a `HARNESS PHASE:` payload that is JSON but not an object raises at capture_screenshots.py:816, before any crash marker is checked. That behaviour is `HarnessSession.ObserveLineAsWritten`; the rest of the session model follows the corrected parser (see Findings).
- HarnessSession.ObserveLineFlags: states the flags for the corrected parser. As written, a line whose phase payload is JSON but not an object raises before the flags are set.
- HarnessSession.ObserveLineRecords: states what is recorded under the corrected parser. As written, such a line raises after its testpoint is dispatched, and nothing more is recorded.
- FleetHealth.GatherPhaseMetrics: tallies with the corrected phase parser. As written, `gather_phase_metrics` calls the same `parse_phase_event`, so a phase payload that is JSON but not an object raises out of it instead of being skipped.
- FleetHealth.ExecuteHealthcheck: its phase-error verdict uses the corrected parser. As written, the raise in `gather_phase_metrics` would end the health check of that device instead.
- LogAggregation.ExportLogs: paths are joined as strings with `/`. `pathlib` joins differ for components that are absolute, empty, `.`, or carry repeated or trailing `/`: an absolute component restarts the path, empty and `.` parts are dropped (`test=""` gives `a/c/r`, not `a//c/r`), and `//` collapses. The model's paths agree with `Path(device) / test / config / run_id` only when every component is a plain non-empty segment (`LogAggregation.PathSegment`).
- LogAggregation.MetadataPath: the same string join, with the same restriction.

## Findings

| source | as written | input that shows it | evidently intended | confidence | as-written member | corrected member |
|---|---|---|---|---|---|---|
| tools/capture_screenshots.py:164-171 | `_compile_wildcard_regex` escapes the pattern and then replaces the three characters `\\*`. `re.escape("*")` produces the two characters `\*`, so no wildcard is ever expanded. | requesting `pkg.*/Runner2` when `pkg.a/Runner1` and `pkg.b/Runner2` are installed resolves to `pkg.a/Runner1` through the first-listed fallback | `*` matches any run of characters, so `pkg.b/Runner2` matches exactly | not executed | InstrumentationResolver.WildcardScenarioAsWritten | InstrumentationResolver.WildcardScenarioExpanded |
| tools/capture_screenshots.py:74-80 | `parse_phase_event` calls `data.get` on whatever `json.loads` returned. A JSON array or scalar raises `AttributeError` out of the line handler. | the line `HARNESS PHASE: [1]` | a payload that is not an object is not a phase event | not executed | PhaseEvents.ArrayPayloadRaises | PhaseEvents.CorrectedAgreesWhenNotRaised |
| tools/auto_fixer/auto_fixer.py:333-334 | with no keyword in the log, the excerpt is `logs[-max_chars:]`. For `max_chars == 0` that is `logs[0:]`, the whole log. | a 201-character log of `x` with `max_chars` 0 comes back whole, longer than the 200 + 0 the anchored branch allows | the last `max_chars` characters, none for a limit of 0 | not executed | AutoFixer.ZeroLimitBreaksBound | AutoFixer.ExtractFailureSnippetBounded |
