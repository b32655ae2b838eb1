/**
 * `verify_macrobenchmark_coverage.py`: read the instrumentation XML
 * reports, classify each testcase as passed, failed or skipped, and pass
 * only when nothing failed or was skipped and every required benchmark
 * ran. Finding and parsing the XML files is outside the model: a report is
 * its testcase records, or `None` when it could not be parsed.
 */
module MacrobenchmarkCoverage {
  import opened Wrappers
  import opened Text
  import opened Sorting

  const FailureTags: set<string> := {"failure", "error"}
  const SkippedTag := "skipped"

  /** A `<testcase>` element: its attributes and the tags of its children. */
  datatype TestCase = TestCase(classname: Option<string>, name: Option<string>, status: Option<string>,
                               children: seq<string>)

  datatype Outcome = Passed | Failed | Skipped

  type TestKey = (string, string)
  type TestResult = (string, string, Outcome)

  /** `(testcase.get(attr) or "").strip()`. */
  function Attribute(value: Option<string>): string {
    Strip(value.GetOr(""))
  }

  predicate HasFailureChild(tc: TestCase) {
    exists i | 0 <= i < |tc.children| :: tc.children[i] in FailureTags
  }

  predicate MarkedSkipped(tc: TestCase) {
    || (exists i | 0 <= i < |tc.children| :: tc.children[i] == SkippedTag)
    || Lower(Attribute(tc.status)) == SkippedTag
  }

  /** A failure or error child decides first, then a skip, else the test passed. */
  function OutcomeOf(tc: TestCase): (o: Outcome)
    ensures o == Failed <==> HasFailureChild(tc)
    ensures o == Skipped <==> !HasFailureChild(tc) && MarkedSkipped(tc)
    ensures o == Passed <==> !HasFailureChild(tc) && !MarkedSkipped(tc)
  {
    if HasFailureChild(tc) then Failed
    else if MarkedSkipped(tc) then Skipped
    else Passed
  }

  /** A failure child outranks everything else on the testcase. */
  lemma FailureChildWins(tc: TestCase, tag: string, others: seq<string>)
    requires tag in FailureTags
    ensures OutcomeOf(tc.(children := others + [tag] + tc.children)) == Failed
  {
    var t := tc.(children := others + [tag] + tc.children);
    assert t.children[|others|] == tag;
  }

  /** A skipped child marks a testcase without failures skipped, whatever its status. */
  lemma SkippedChildSkips(tc: TestCase)
    requires !HasFailureChild(tc)
    ensures OutcomeOf(tc.(children := tc.children + [SkippedTag])) == Skipped
  {
    var t := tc.(children := tc.children + [SkippedTag]);
    assert t.children[|tc.children|] == SkippedTag;
    forall i | 0 <= i < |t.children|
      ensures t.children[i] !in FailureTags
    {
      if i < |tc.children| {
        assert t.children[i] == tc.children[i];
      }
    }
  }

  /** One testcase of `parse_report`: dropped when its class or name is blank. */
  function Classify(tc: TestCase): (r: Option<TestResult>)
    ensures r.None? <==> Attribute(tc.classname) == [] || Attribute(tc.name) == []
    ensures r.Some? ==> r.value.0 == Attribute(tc.classname) && r.value.1 == Attribute(tc.name)
    ensures r.Some? ==> r.value.0 != [] && r.value.1 != [] && r.value.2 == OutcomeOf(tc)
  {
    var classname := Attribute(tc.classname);
    var name := Attribute(tc.name);
    if classname == [] || name == [] then None else Some((classname, name, OutcomeOf(tc)))
  }

  /** `parse_report`: the set of classified testcases; an unparsable report gives none. */
  function ParseReport(report: Option<seq<TestCase>>): (tests: set<TestResult>)
    ensures report.None? ==> tests == {}
    ensures forall t :: t in tests <==> report.Some? && exists i | 0 <= i < |report.value| :: Classify(report.value[i]) == Some(t)
  {
    match report
    case None => {}
    case Some(cases) => PresentSet(cases, Classify)
  }

  /** Some report has a testcase with outcome `o`. */
  predicate AnyOutcome(reports: seq<Option<seq<TestCase>>>, o: Outcome) {
    exists i, t | 0 <= i < |reports| && t in ParseReport(reports[i]) :: t.2 == o
  }

  /** The `(class, name)` keys of the testcases that passed in some report. */
  function Executed(reports: seq<Option<seq<TestCase>>>): (keys: set<TestKey>)
    ensures forall k :: k in keys <==> exists i | 0 <= i < |reports| :: (k.0, k.1, Passed) in ParseReport(reports[i])
  {
    set i, t | 0 <= i < |reports| && t in ParseReport(reports[i]) && t.2 == Passed :: (t.0, t.1)
  }

  // ---------------------------------------------------------------------------
  // The verdict

  const BenchmarkPackage := "com.novapdf.reader.baselineprofile."

  const RequiredTests: seq<TestKey> := [
    (BenchmarkPackage + "BaselineProfileGenerator", "generate"),
    (BenchmarkPackage + "FrameRateBenchmark", "scrollDocument"),
    (BenchmarkPackage + "FrameRateBenchmark", "steadyStateScrollMaintainsFps"),
    (BenchmarkPackage + "MemoryBenchmark", "coldStartMemory"),
    (BenchmarkPackage + "MemoryBenchmark", "peakMemoryWithinThreshold"),
    (BenchmarkPackage + "RenderBenchmark", "renderFirstPage"),
    (BenchmarkPackage + "RenderBenchmark", "timeToFirstPageWithinThreshold"),
    (BenchmarkPackage + "StartupBenchmark", "coldStartup")
  ]

  function NotIn(executed: set<TestKey>): TestKey -> bool {
    key => key !in executed
  }

  /** `sorted(required.difference(executed))`. */
  function MissingTests(required: seq<TestKey>, executed: set<TestKey>): (missing: seq<TestKey>)
    ensures Elems(missing) == Elems(required) - executed
    ensures SortedBy(missing, PairLess) && Distinct(missing)
  {
    var absent := Filter(required, NotIn(executed));
    PairLessOrder();
    SortUniqueSorted(absent, PairLess);
    SortedDistinct(SortUnique(absent, PairLess), PairLess);
    SortUnique(absent, PairLess)
  }

  /** `sorted(executed.intersection(required))`. */
  function ConfirmedTests(required: seq<TestKey>, executed: set<TestKey>): (confirmed: seq<TestKey>)
    ensures Elems(confirmed) == Elems(required) * executed
    ensures SortedBy(confirmed, PairLess) && Distinct(confirmed)
  {
    var present := Filter(required, (key: TestKey) => key in executed);
    PairLessOrder();
    SortUniqueSorted(present, PairLess);
    SortedDistinct(SortUnique(present, PairLess), PairLess);
    SortUnique(present, PairLess)
  }

  datatype Verdict =
    | NoReports
    | TestsFailed
    | TestsSkipped
    | MissingRequired(missing: seq<TestKey>)
    | Covered(confirmed: seq<TestKey>)

  /** The decision of `main` over the reports found, for the given required tests. */
  function CoverageVerdict(reports: seq<Option<seq<TestCase>>>, required: seq<TestKey>): (v: Verdict)
    ensures reports == [] <==> v == NoReports
    ensures v == TestsFailed <==> reports != [] && AnyOutcome(reports, Failed)
    ensures v == TestsSkipped <==> reports != [] && !AnyOutcome(reports, Failed) && AnyOutcome(reports, Skipped)
    ensures v.MissingRequired? ==> v.missing != [] && Elems(v.missing) == Elems(required) - Executed(reports)
    ensures v.MissingRequired? ==> SortedBy(v.missing, PairLess) && Distinct(v.missing)
    ensures v.Covered? <==>
      && reports != []
      && !AnyOutcome(reports, Failed) && !AnyOutcome(reports, Skipped)
      && Elems(required) <= Executed(reports)
    ensures v.Covered? ==> Elems(v.confirmed) == Elems(required) && SortedBy(v.confirmed, PairLess)
  {
    if reports == [] then NoReports
    else if AnyOutcome(reports, Failed) then TestsFailed
    else if AnyOutcome(reports, Skipped) then TestsSkipped
    else
      var executed := Executed(reports);
      var missing := MissingTests(required, executed);
      if missing != [] then MissingRequired(missing)
      else
        assert Elems(missing) == {};
        Covered(ConfirmedTests(required, executed))
  }

  /** The exit status of `main`. */
  function CoverageMain(reports: seq<Option<seq<TestCase>>>): (code: int)
    ensures code == 0 || code == 1
    ensures code == 0 <==>
      && reports != []
      && !AnyOutcome(reports, Failed) && !AnyOutcome(reports, Skipped)
      && Elems(RequiredTests) <= Executed(reports)
  {
    if CoverageVerdict(reports, RequiredTests).Covered? then 0 else 1
  }

  /** Another report in which everything passed keeps a covered run covered. */
  lemma PassingReportKeepsCoverage(reports: seq<Option<seq<TestCase>>>, extra: seq<TestCase>, required: seq<TestKey>)
    requires CoverageVerdict(reports, required).Covered?
    requires forall i | 0 <= i < |extra| :: Classify(extra[i]).Some? ==> OutcomeOf(extra[i]) == Passed
    ensures CoverageVerdict(reports + [Some(extra)], required).Covered?
  {
    OnlyPassesAdded(reports, extra);
    ExecutedGrows(reports, Some(extra));
  }

  lemma OnlyPassesAdded(reports: seq<Option<seq<TestCase>>>, extra: seq<TestCase>)
    requires !AnyOutcome(reports, Failed) && !AnyOutcome(reports, Skipped)
    requires forall i | 0 <= i < |extra| :: Classify(extra[i]).Some? ==> OutcomeOf(extra[i]) == Passed
    ensures !AnyOutcome(reports + [Some(extra)], Failed) && !AnyOutcome(reports + [Some(extra)], Skipped)
  {
    var all := reports + [Some(extra)];
    forall i, t | 0 <= i < |all| && t in ParseReport(all[i])
      ensures t.2 == Passed
    {
      AppendedPasses(reports, extra, i, t);
    }
  }

  lemma AppendedPasses(reports: seq<Option<seq<TestCase>>>, extra: seq<TestCase>, i: nat, t: TestResult)
    requires !AnyOutcome(reports, Failed) && !AnyOutcome(reports, Skipped)
    requires forall i | 0 <= i < |extra| :: Classify(extra[i]).Some? ==> OutcomeOf(extra[i]) == Passed
    requires i < |reports| + 1 && t in ParseReport((reports + [Some(extra)])[i])
    ensures t.2 == Passed
  {
    if i < |reports| {
      assert (reports + [Some(extra)])[i] == reports[i];
      assert t.2 != Failed && t.2 != Skipped;
    } else {
      ExtraPasses(extra, t);
    }
  }

  lemma ExtraPasses(extra: seq<TestCase>, t: TestResult)
    requires forall i | 0 <= i < |extra| :: Classify(extra[i]).Some? ==> OutcomeOf(extra[i]) == Passed
    requires t in ParseReport(Some(extra))
    ensures t.2 == Passed
  {
    var j :| 0 <= j < |extra| && Classify(extra[j]) == Some(t);
  }

  /** A further report never removes an executed test. */
  lemma ExecutedGrows(reports: seq<Option<seq<TestCase>>>, extra: Option<seq<TestCase>>)
    ensures Executed(reports) <= Executed(reports + [extra])
  {
    var all := reports + [extra];
    forall k | k in Executed(reports)
      ensures k in Executed(all)
    {
      var i :| 0 <= i < |reports| && (k.0, k.1, Passed) in ParseReport(reports[i]);
      assert all[i] == reports[i];
    }
  }
}
