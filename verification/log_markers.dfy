/**
 * `verify_log_markers.py`: every captured CI log must contain each
 * required marker and, for each `A||B` group, at least one alternative;
 * the check is skipped when emulator virtualization is unavailable.
 * Reading a log is the `files` parameter; glob expansion is not modelled.
 */
module LogMarkers {
  import opened Wrappers
  import opened Text
  import LaunchConfig

  const GroupSeparator := "||"
  const GroupJoiner := " | "
  const MissingFileMessage := "file is missing"
  const UnreadablePrefix := "unable to read log: "

  /** `candidate in text` for some member of the group. */
  predicate AnyPresent(text: string, group: seq<string>) {
    exists i | 0 <= i < |group| :: Contains(text, group[i])
  }

  /** Every required marker is in `text`, and every non-empty group has a member in it. */
  predicate Satisfied(text: string, required: seq<string>, groups: seq<seq<string>>) {
    && (forall i | 0 <= i < |required| :: Contains(text, required[i]))
    && (forall k | 0 <= k < |groups| :: groups[k] != [] ==> AnyPresent(text, groups[k]))
  }

  function Absent(text: string): string -> bool {
    needle => !Contains(text, needle)
  }

  /** The report for one group: its alternatives joined, when none occurs. */
  function GroupReport(text: string): seq<string> -> Option<string> {
    group => if group != [] && !AnyPresent(text, group) then Some(Join(group, GroupJoiner)) else None
  }

  /** `_evaluate_requirements`: the missing markers, then the unsatisfied groups. */
  function EvaluateRequirements(text: string, required: seq<string>, groups: seq<seq<string>>): (missing: seq<string>)
    ensures |missing| <= |required| + |groups|
    ensures forall i | 0 <= i < |required| && !Contains(text, required[i]) :: required[i] in missing
    ensures forall k | 0 <= k < |groups| && groups[k] != [] && !AnyPresent(text, groups[k]) ::
      Join(groups[k], GroupJoiner) in missing
    ensures forall m | m in missing ::
      || (m in required && !Contains(text, m))
      || (exists k | 0 <= k < |groups| :: groups[k] != [] && !AnyPresent(text, groups[k]) && m == Join(groups[k], GroupJoiner))
  {
    var markers := Filter(required, Absent(text));
    var alternatives := FilterMap(groups, GroupReport(text));
    assert forall m | m in alternatives ::
      exists k | 0 <= k < |groups| :: GroupReport(text)(groups[k]) == Some(m);
    markers + alternatives
  }

  /** Nothing is missing exactly when every requirement is met. */
  lemma EvaluateRequirementsEmpty(text: string, required: seq<string>, groups: seq<seq<string>>)
    ensures EvaluateRequirements(text, required, groups) == [] <==> Satisfied(text, required, groups)
  {
    var missing := EvaluateRequirements(text, required, groups);
    if missing != [] {
      assert missing[0] in missing;
    }
    if !Satisfied(text, required, groups) {
      if exists i | 0 <= i < |required| :: !Contains(text, required[i]) {
        var i :| 0 <= i < |required| && !Contains(text, required[i]);
        assert required[i] in missing;
      } else {
        var k :| 0 <= k < |groups| && groups[k] != [] && !AnyPresent(text, groups[k]);
        assert Join(groups[k], GroupJoiner) in missing;
      }
    }
  }

  // ---------------------------------------------------------------------------
  // --require-any groups

  /** One `--require-any` value: its trimmed, non-empty `||`-separated segments. */
  function GroupOf(value: string): (r: Option<seq<string>>)
    ensures r.Some? <==> StrippedNonEmpty(Split(value, GroupSeparator)) != []
    ensures r.Some? ==> r.value == StrippedNonEmpty(Split(value, GroupSeparator))
  {
    var group := StrippedNonEmpty(Split(value, GroupSeparator));
    if group == [] then None else Some(group)
  }

  /** `_parse_groups`: values with no usable segment are dropped. */
  function ParseGroups(values: seq<string>): (groups: seq<seq<string>>)
    ensures |groups| <= |values|
    ensures forall k | 0 <= k < |groups| ::
      groups[k] != [] && forall j | 0 <= j < |groups[k]| :: groups[k][j] != [] && Strip(groups[k][j]) == groups[k][j]
  {
    FilterMap(values, GroupOf)
  }

  /** Writing a group as `A||B||…` and parsing it gives the group back. */
  lemma ParseGroupRoundTrip(group: seq<string>)
    requires group != []
    requires forall j | 0 <= j < |group| :: group[j] != [] && Strip(group[j]) == group[j]
    requires forall j, c | 0 <= j < |group| && 0 <= c < |group[j]| :: group[j][c] != '|'
    ensures ParseGroups([Join(group, GroupSeparator)]) == [group]
  {
    SplitJoin(group, GroupSeparator);
    StrippedNonEmptyKeeps(group);
    assert GroupOf(Join(group, GroupSeparator)) == Some(group);
    assert [Join(group, GroupSeparator)][1..] == [];
  }

  // ---------------------------------------------------------------------------
  // Virtualization switches

  const FlagTrueWords: set<string> := {"1", "true", "yes", "on"}
  const FlagFalseWords: set<string> := {"0", "false", "no", "off"}
  const ShortWords: set<string> := {"t", "y", "f", "n"}

  /** `_parse_optional_bool` of this script: no single-letter forms. */
  function ParseFlag(value: Option<string>): (r: Option<bool>)
    ensures r == Some(true) <==> value.Some? && Lower(Strip(value.value)) in FlagTrueWords
    ensures r == Some(false) <==> value.Some? && Lower(Strip(value.value)) in FlagFalseWords
  {
    match value
    case None => None
    case Some(v) =>
      var normalized := Lower(Strip(v));
      if normalized in FlagTrueWords then Some(true)
      else if normalized in FlagFalseWords then Some(false)
      else None
  }

  /** Outside the single-letter forms this reads a switch like the screenshot script does. */
  lemma ParseFlagAgrees(value: Option<string>)
    requires value.Some? ==> Lower(Strip(value.value)) !in ShortWords
    ensures ParseFlag(value) == LaunchConfig.ParseOptionalBool(value)
  {
  }

  /** `y` switches the screenshot script but not this one. */
  lemma ShortWordIgnored()
    ensures ParseFlag(Some("y")) == None
    ensures LaunchConfig.ParseOptionalBool(Some("y")) == Some(true)
  {
    StripTrimmed("y");
    assert Lower("y") == "y";
  }

  const VirtualizationKeys: seq<string> := [
    "NOVAPDF_VIRTUALIZATION_UNAVAILABLE",
    "NOVAPDF_TEST_VIRTUALIZATION_UNAVAILABLE",
    "ACTIONS_RUNNER_DISABLE_NESTED_VIRTUALIZATION"
  ]

  function Flag(environ: map<string, string>, key: string): Option<bool> {
    ParseFlag(LaunchConfig.Lookup(environ, key))
  }

  /** The reading of the first key whose value parses, if any. */
  function FirstFlag(environ: map<string, string>, keys: seq<string>): (r: Option<bool>)
    ensures r.None? <==> forall i | 0 <= i < |keys| :: Flag(environ, keys[i]).None?
    ensures r.Some? ==> exists i | 0 <= i < |keys| ::
      Flag(environ, keys[i]) == r && forall j | 0 <= j < i :: Flag(environ, keys[j]).None?
  {
    FirstSome(keys, (key: string) => Flag(environ, key))
  }

  /** A parsing key decides when none before it parses, whatever follows. */
  lemma FirstFlagDecides(environ: map<string, string>, keys: seq<string>, i: nat)
    requires i < |keys| && Flag(environ, keys[i]).Some?
    requires forall j | 0 <= j < i :: Flag(environ, keys[j]).None?
    ensures FirstFlag(environ, keys) == Flag(environ, keys[i])
  {
  }

  /** `_virtualization_unavailable_from_env`: the first switch set either way decides; unset means available. */
  function VirtualizationUnavailableFromEnv(environ: map<string, string>): (r: bool)
    ensures r <==> exists i | 0 <= i < |VirtualizationKeys| ::
      Flag(environ, VirtualizationKeys[i]) == Some(true)
      && forall j | 0 <= j < i :: Flag(environ, VirtualizationKeys[j]).None?
  {
    FirstFlag(environ, VirtualizationKeys) == Some(true)
  }

  // ---------------------------------------------------------------------------
  // Checking the logs

  /** What reading one log path gives. */
  datatype LogFile = Missing | Unreadable(reason: string) | Readable(contents: string)

  datatype RequirementFailure = RequirementFailure(path: string, missing: seq<string>)

  /** A log passes when it is readable and satisfies every requirement. */
  predicate Passes(file: LogFile, required: seq<string>, groups: seq<seq<string>>) {
    file.Readable? && Satisfied(file.contents, required, groups)
  }

  /** The failure for one path: a missing file, an unreadable one, or the missing markers. */
  function PathFailure(files: string -> LogFile, required: seq<string>, groups: seq<seq<string>>, path: string)
    : (r: Option<RequirementFailure>)
    ensures r.Some? <==> !Passes(files(path), required, groups)
    ensures r.Some? ==> r.value.path == path && r.value.missing != []
  {
    match files(path)
    case Missing => Some(RequirementFailure(path, [MissingFileMessage]))
    case Unreadable(reason) => Some(RequirementFailure(path, [UnreadablePrefix + reason]))
    case Readable(text) =>
      var missing := EvaluateRequirements(text, required, groups);
      EvaluateRequirementsEmpty(text, required, groups);
      if missing == [] then None else Some(RequirementFailure(path, missing))
  }

  function FailureOf(files: string -> LogFile, required: seq<string>, groups: seq<seq<string>>): string -> Option<RequirementFailure> {
    path => PathFailure(files, required, groups, path)
  }

  /** `verify_logs`: at most one failure per path, each naming what is wrong. */
  function VerifyLogs(paths: seq<string>, files: string -> LogFile, required: seq<string>,
                      groups: seq<seq<string>>): (failures: seq<RequirementFailure>)
    ensures |failures| <= |paths|
    ensures forall k | 0 <= k < |failures| :: failures[k].path in paths && failures[k].missing != []
    ensures forall k | 0 <= k < |failures| :: !Passes(files(failures[k].path), required, groups)
    ensures forall i | 0 <= i < |paths| && !Passes(files(paths[i]), required, groups) ::
      exists k | 0 <= k < |failures| :: failures[k].path == paths[i]
  {
    FilterMap(paths, FailureOf(files, required, groups))
  }

  /** No failure is reported exactly when every log passes. */
  lemma VerifyLogsEmpty(paths: seq<string>, files: string -> LogFile, required: seq<string>, groups: seq<seq<string>>)
    ensures VerifyLogs(paths, files, required, groups) == [] <==>
      forall i | 0 <= i < |paths| :: Passes(files(paths[i]), required, groups)
  {
    var failures := VerifyLogs(paths, files, required, groups);
    if failures != [] {
      assert !Passes(files(failures[0].path), required, groups);
    }
  }

  /** Logs are reported in the order given: checking a concatenation concatenates the reports. */
  lemma VerifyLogsAppend(a: seq<string>, b: seq<string>, files: string -> LogFile, required: seq<string>,
                         groups: seq<seq<string>>)
    ensures VerifyLogs(a + b, files, required, groups) == VerifyLogs(a, files, required, groups) + VerifyLogs(b, files, required, groups)
  {
    FilterMapAppend(a, b, FailureOf(files, required, groups));
  }

  /** One log: a missing file and an unreadable one are reported before any marker is looked for. */
  lemma VerifyOneLog(path: string, files: string -> LogFile, required: seq<string>, groups: seq<seq<string>>)
    ensures files(path).Missing? ==> VerifyLogs([path], files, required, groups) == [RequirementFailure(path, [MissingFileMessage])]
    ensures files(path).Unreadable? ==>
      VerifyLogs([path], files, required, groups) == [RequirementFailure(path, [UnreadablePrefix + files(path).reason])]
    ensures files(path).Readable? && EvaluateRequirements(files(path).contents, required, groups) != [] ==>
      VerifyLogs([path], files, required, groups) ==
        [RequirementFailure(path, EvaluateRequirements(files(path).contents, required, groups))]
    ensures Passes(files(path), required, groups) ==> VerifyLogs([path], files, required, groups) == []
  {
    assert [path][1..] == [];
  }

  /** `main` on expanded paths: 0 when the check is skipped or every log passes, else 1. */
  function LogMarkersMain(environ: map<string, string>, paths: seq<string>, files: string -> LogFile,
                          required: seq<string>, requireAny: seq<string>): (code: int)
    ensures code == 0 || code == 1
    ensures VirtualizationUnavailableFromEnv(environ) ==> code == 0
    ensures code == 0 <==>
      || VirtualizationUnavailableFromEnv(environ)
      || forall i | 0 <= i < |paths| :: Passes(files(paths[i]), required, ParseGroups(requireAny))
  {
    var groups := ParseGroups(requireAny);
    VerifyLogsEmpty(paths, files, required, groups);
    if VirtualizationUnavailableFromEnv(environ) then 0
    else if VerifyLogs(paths, files, required, groups) == [] then 0
    else 1
  }
}
