/**
 * The baseline profile reminder of `tools/scripts/baseline_profile_guard.py`:
 * which changed paths can affect the startup profile, the evaluation of a
 * change list, the four GitHub outputs and the exit code. Git is a
 * parameter: the text `git diff --name-only` printed, or nothing when it
 * failed.
 */
module BaselineGuard {
  import opened Wrappers
  import opened Text
  import opened Sorting

  const SourceSetMarker := "/src/main/"
  const BaselinePath := "app" + SourceSetMarker + "baseline-prof.txt"

  const RelevantFilenames: set<string> := {
    "build.gradle", "build.gradle.kts", "settings.gradle", "settings.gradle.kts",
    "gradle.properties", "gradle.lockfile"
  }

  const RelevantSuffixes: seq<string> := [
    ".gradle", ".gradle.kts", ".kt", ".kts", ".java", ".c", ".cpp", ".mm", ".m", ".h",
    ".hpp", ".rs", ".swift", ".xml", ".aidl", ".toml", ".yaml", ".yml", ".json"
  ]

  const GradleVersionFiles: set<string> := {
    "gradle/libs.versions.toml", "gradle/libs.versions.yaml",
    "gradle/libs.versions.yml", "gradle/libs.versions.json"
  }

  /** `s.endswith(suffixes)` for a tuple of suffixes. */
  predicate EndsWithAny(s: string, suffixes: seq<string>) {
    exists i | 0 <= i < |suffixes| :: EndsWith(s, suffixes[i])
  }

  /**
   * `is_relevant_path`: never the baseline itself; otherwise a main source
   * set path, a build file, a version catalog, or a path whose lower-cased
   * form has a source or configuration suffix.
   */
  predicate IsRelevantPath(path: string) {
    && path != BaselinePath
    && (|| Contains(path, SourceSetMarker)
        || path in RelevantFilenames
        || path in GradleVersionFiles
        || EndsWithAny(Lower(path), RelevantSuffixes))
  }

  /** The suffix test is made on the lower-cased path, so `Foo.KT` counts like `Foo.kt`. */
  lemma SuffixCaseInsensitive(path: string, i: nat)
    requires path != BaselinePath && i < |RelevantSuffixes| && EndsWith(Lower(path), RelevantSuffixes[i])
    ensures IsRelevantPath(path)
  {
  }

  /** For instance a Kotlin file with an upper-case extension. */
  lemma UpperCaseKotlinRelevant()
    ensures IsRelevantPath("Main.KT")
  {
    assert Lower("Main.KT") == "main.kt";
    assert EndsWith(Lower("Main.KT"), RelevantSuffixes[2]);
    SuffixCaseInsensitive("Main.KT", 2);
  }

  /** The baseline lies in the main source set, yet the exclusion comes first. */
  lemma BaselineNotRelevant()
    ensures Contains(BaselinePath, SourceSetMarker)
    ensures !IsRelevantPath(BaselinePath)
  {
    MarkerContained("app", "baseline-prof.txt");
  }

  lemma MarkerContained(head: string, rest: string)
    ensures Contains(head + SourceSetMarker + rest, SourceSetMarker)
  {
    var path := head + SourceSetMarker + rest;
    assert OccursAt(path, SourceSetMarker, |head|) by {
      assert path[|head|..|head| + |SourceSetMarker|] == SourceSetMarker;
    }
    ContainsAt(path, SourceSetMarker, |head|);
  }

  /** Any other path under a main source set is relevant, whatever its extension. */
  lemma SourceSetRelevant(module_: string, rest: string)
    requires module_ + SourceSetMarker + rest != BaselinePath
    ensures IsRelevantPath(module_ + SourceSetMarker + rest)
  {
    MarkerContained(module_, rest);
  }

  // ---------------------------------------------------------------------------
  // Evaluating a change list

  /** `raw_path.replace("\\", "/")`. */
  function NormalizeSeparators(raw: string): (r: string)
    ensures |r| == |raw|
    ensures forall i | 0 <= i < |r| :: r[i] != '\\'
  {
    seq(|raw|, i requires 0 <= i < |raw| => if raw[i] == '\\' then '/' else raw[i])
  }

  /** A changed path as the evaluation sees it: empty entries are skipped. */
  function NormalizedEntry(raw: string): Option<string> {
    if raw == [] then None else Some(NormalizeSeparators(raw))
  }

  /** Some entry of the change list names `path`. */
  predicate Names(changed: seq<string>, path: string) {
    exists i | 0 <= i < |changed| :: changed[i] != [] && NormalizeSeparators(changed[i]) == path
  }

  datatype Evaluation = Evaluation(
    baselineTouched: bool,
    needsProfile: bool,
    impactingFiles: seq<string>,
    skipped: bool)

  /** The normalized, non-empty entries of a change list. */
  function ChangedPaths(changed: seq<string>): (paths: seq<string>)
    ensures forall p :: p in paths <==> Names(changed, p)
  {
    var paths := FilterMap(changed, NormalizedEntry);
    assert forall p :: p in paths ==> Names(changed, p) by {
      forall p | p in paths
        ensures Names(changed, p)
      {
        var k :| 0 <= k < |paths| && paths[k] == p;
        var i :| 0 <= i < |changed| && NormalizedEntry(changed[i]) == Some(paths[k]);
      }
    }
    paths
  }

  /**
   * `evaluate_changes`: the baseline counts as touched exactly when some
   * entry names it, the impacting files are exactly the relevant paths
   * named, each once, in increasing order, and a profile is needed exactly
   * when there is one.
   */
  function EvaluateChanges(changed: seq<string>): (r: Evaluation)
    ensures !r.skipped
    ensures r.baselineTouched <==> Names(changed, BaselinePath)
    ensures forall p :: p in r.impactingFiles <==> Names(changed, p) && IsRelevantPath(p)
    ensures SortedBy(r.impactingFiles, StrLess) && Distinct(r.impactingFiles)
    ensures r.needsProfile <==> r.impactingFiles != []
  {
    var paths := ChangedPaths(changed);
    var relevant := Filter(paths, IsRelevantPath);
    var impacting := SortUnique(relevant, StrLess);
    assert SortedBy(impacting, StrLess) && Distinct(impacting) by {
      StrLessOrder();
      SortUniqueSorted(relevant, StrLess);
      SortedDistinct(impacting, StrLess);
    }
    forall p
      ensures p in impacting <==> p in relevant
    {
      assert p in impacting <==> p in Elems(impacting);
      assert p in relevant <==> p in Elems(relevant);
    }
    Evaluation(BaselinePath in paths, impacting != [], impacting, false)
  }

  /** The evaluation depends only on which paths were changed, not on their order or repetition. */
  lemma EvaluateBySet(a: seq<string>, b: seq<string>)
    requires Elems(a) == Elems(b)
    ensures EvaluateChanges(a) == EvaluateChanges(b)
  {
    NamesBySet(a, b);
    assert EvaluateChanges(a).impactingFiles == EvaluateChanges(b).impactingFiles by {
      ImpactingBySet(a, b);
    }
  }

  lemma ImpactingBySet(a: seq<string>, b: seq<string>)
    requires forall p :: Names(a, p) <==> Names(b, p)
    ensures EvaluateChanges(a).impactingFiles == EvaluateChanges(b).impactingFiles
  {
    var ia, ib := EvaluateChanges(a).impactingFiles, EvaluateChanges(b).impactingFiles;
    assert Elems(ia) == Elems(ib);
    StrLessOrder();
    SortedUnique(ia, ib, StrLess);
  }

  lemma NamesBySet(a: seq<string>, b: seq<string>)
    requires Elems(a) == Elems(b)
    ensures forall p :: Names(a, p) <==> Names(b, p)
  {
    forall p
      ensures Names(a, p) <==> Names(b, p)
    {
      if Names(a, p) {
        var i :| 0 <= i < |a| && a[i] != [] && NormalizeSeparators(a[i]) == p;
        assert a[i] in Elems(b);
      }
      if Names(b, p) {
        var i :| 0 <= i < |b| && b[i] != [] && NormalizeSeparators(b[i]) == p;
        assert b[i] in Elems(a);
      }
    }
  }

  /** The evaluation when no file changed. */
  const Skipped := Evaluation(false, false, [], true)

  /** `should_remind`. */
  predicate ShouldRemind(e: Evaluation) {
    !e.skipped && e.needsProfile && !e.baselineTouched
  }

  /** A reminder is due exactly when a relevant path changed and the baseline did not. */
  lemma RemindWhen(changed: seq<string>)
    ensures ShouldRemind(EvaluateChanges(changed)) <==>
      (exists p :: Names(changed, p) && IsRelevantPath(p)) && !Names(changed, BaselinePath)
  {
    var r := EvaluateChanges(changed);
    if exists p :: Names(changed, p) && IsRelevantPath(p) {
      var p :| Names(changed, p) && IsRelevantPath(p);
      assert p in r.impactingFiles;
    }
    if r.impactingFiles != [] {
      assert r.impactingFiles[0] in r.impactingFiles;
    }
  }

  // ---------------------------------------------------------------------------
  // GitHub outputs

  const TouchedKey := "baseline_touched"
  const NeedsKey := "needs_profile"
  const ReminderKey := "reminder"
  const SkippedKey := "skipped"

  function BoolText(b: bool): string {
    if b then "true" else "false"
  }

  function OutputLine(key: string, b: bool): string {
    key + "=" + BoolText(b)
  }

  /** The four `key=true|false` lines, in their fixed order. */
  function OutputLines(e: Evaluation): seq<string> {
    [OutputLine(TouchedKey, e.baselineTouched), OutputLine(NeedsKey, e.needsProfile),
     OutputLine(ReminderKey, ShouldRemind(e)), OutputLine(SkippedKey, e.skipped)]
  }

  /** `to_outputs`. */
  function ToOutputs(e: Evaluation): string {
    Join(OutputLines(e), "\n")
  }

  /** How a reader of the output file takes one line apart: key, and a `true`/`false` value. */
  function ReadOutput(line: string): Option<(string, bool)> {
    match SplitFirst(line, "=")
    case Some((key, value)) =>
      if value == "true" then Some((key, true))
      else if value == "false" then Some((key, false))
      else None
    case None => None
  }

  /** A plain key: no `=` and no line break. */
  predicate PlainKey(key: string) {
    forall i | 0 <= i < |key| :: key[i] != '=' && key[i] != '\n'
  }

  lemma OutputLineRoundTrip(key: string, b: bool)
    requires PlainKey(key)
    ensures forall i | 0 <= i < |OutputLine(key, b)| :: OutputLine(key, b)[i] != '\n'
    ensures ReadOutput(OutputLine(key, b)) == Some((key, b))
  {
    var line := OutputLine(key, b);
    assert forall i | 0 <= i < |key| :: line[i] == key[i];
    NoCharNotContains(key, '=');
    SplitFirstOf(key, BoolText(b), "=");
  }

  lemma KeysPlain()
    ensures PlainKey(TouchedKey) && PlainKey(NeedsKey) && PlainKey(ReminderKey) && PlainKey(SkippedKey)
  {
  }

  /** The output file gives back, line by line, the four flags under their keys. */
  lemma OutputsRoundTrip(e: Evaluation)
    ensures |Split(ToOutputs(e), "\n")| == 4
    ensures ReadOutput(Split(ToOutputs(e), "\n")[0]) == Some((TouchedKey, e.baselineTouched))
    ensures ReadOutput(Split(ToOutputs(e), "\n")[1]) == Some((NeedsKey, e.needsProfile))
    ensures ReadOutput(Split(ToOutputs(e), "\n")[2]) == Some((ReminderKey, ShouldRemind(e)))
    ensures ReadOutput(Split(ToOutputs(e), "\n")[3]) == Some((SkippedKey, e.skipped))
  {
    KeysPlain();
    OutputsOf(TouchedKey, NeedsKey, ReminderKey, SkippedKey,
              e.baselineTouched, e.needsProfile, ShouldRemind(e), e.skipped);
  }

  lemma OutputsOf(k1: string, k2: string, k3: string, k4: string, b1: bool, b2: bool, b3: bool, b4: bool)
    requires PlainKey(k1) && PlainKey(k2) && PlainKey(k3) && PlainKey(k4)
    ensures var lines := Split(Join([OutputLine(k1, b1), OutputLine(k2, b2), OutputLine(k3, b3), OutputLine(k4, b4)], "\n"), "\n");
      && |lines| == 4
      && ReadOutput(lines[0]) == Some((k1, b1)) && ReadOutput(lines[1]) == Some((k2, b2))
      && ReadOutput(lines[2]) == Some((k3, b3)) && ReadOutput(lines[3]) == Some((k4, b4))
  {
    OutputLineRoundTrip(k1, b1);
    OutputLineRoundTrip(k2, b2);
    OutputLineRoundTrip(k3, b3);
    OutputLineRoundTrip(k4, b4);
    LinesRoundTrip(OutputLine(k1, b1), OutputLine(k2, b2), OutputLine(k3, b3), OutputLine(k4, b4));
  }

  /** Four lines without breaks come back from their join. */
  lemma LinesRoundTrip(a: string, b: string, c: string, d: string)
    requires forall i | 0 <= i < |a| :: a[i] != '\n'
    requires forall i | 0 <= i < |b| :: b[i] != '\n'
    requires forall i | 0 <= i < |c| :: c[i] != '\n'
    requires forall i | 0 <= i < |d| :: d[i] != '\n'
    ensures Split(Join([a, b, c, d], "\n"), "\n") == [a, b, c, d]
  {
    var lines := [a, b, c, d];
    forall i | 0 <= i < |lines|
      ensures forall j | 0 <= j < |lines[i]| :: lines[i][j] != "\n"[0]
    {
      if i == 0 {
      } else if i == 1 {
      } else if i == 2 {
      } else {
      }
    }
    SplitJoin(lines, "\n");
  }

  // ---------------------------------------------------------------------------
  // The exit code

  /** `run_git_diff`: the stripped, non-blank lines of git's output. */
  function ChangedFiles(diff: string): (r: seq<string>)
    ensures forall i | 0 <= i < |r| :: r[i] != [] && Strip(r[i]) == r[i]
  {
    StrippedNonEmpty(Lines(diff))
  }

  /** The evaluation `main` reports: skipped when nothing changed. */
  function Evaluate(changed: seq<string>): (r: Evaluation)
    ensures r.skipped <==> changed == []
    ensures ShouldRemind(r) ==> changed != []
    ensures changed != [] ==> r == EvaluateChanges(changed)
  {
    if changed == [] then Skipped else EvaluateChanges(changed)
  }

  /**
   * `main`: the exit code, or `None` when git failed and the script stops
   * with its error. It fails only when the baseline is missing, or when a
   * reminder is due under `--fail-when-outdated`.
   */
  function GuardMain(baselineExists: bool, diff: Option<string>, failWhenOutdated: bool): (r: Option<int>)
    ensures r.None? <==> baselineExists && diff.None?
    ensures r.Some? ==> r.value == 0 || r.value == 1
    ensures r == Some(1) <==>
      || !baselineExists
      || (diff.Some? && ShouldRemind(Evaluate(ChangedFiles(diff.value))) && failWhenOutdated)
  {
    if !baselineExists then Some(1)
    else
      match diff
      case None => None
      case Some(text) =>
        var changed := ChangedFiles(text);
        if changed == [] then Some(0)
        else if ShouldRemind(EvaluateChanges(changed)) && failWhenOutdated then Some(1)
        else Some(0)
  }
}
