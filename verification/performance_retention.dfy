/**
 * `retire_performance_results.py`: sweep the benchmark run directories,
 * date each run from its `metadata.json` or its directory name, and
 * remove the runs older than the retention window. Timestamps are whole
 * seconds since the epoch in UTC; `datetime.fromisoformat` with the UTC
 * conversion is the `iso` parameter. The runs directory is a map from
 * entry name to what the entry is.
 */
module PerformanceRetention {
  import opened Wrappers
  import opened Text
  import opened Sorting
  import opened JsonValues

  const SecondsPerDay := 86400

  /** `now - timedelta(days=retention_days)`, in seconds. */
  function Cutoff(now: int, retentionDays: int): int {
    now - retentionDays * SecondsPerDay
  }
  const MetadataSource := "metadata.json"
  const DirectorySource := "directory name"
  const MissingReason := "recorded_at missing"
  const EmptyTimestamp := "timestamp is empty"
  const NonPositiveRetention := "retention_days must be positive"
  const UnreadablePrefix := "metadata.json unreadable ("
  const InvalidJsonPrefix := "metadata is not valid JSON: "
  const InvalidPrefix := "invalid recorded_at in metadata ("
  const RecordedAtKey := "recorded_at"
  const UtcOffset := "+00:00"
  const NoGetMessage := "object has no attribute 'get'"

  /** `datetime.fromisoformat(text)` converted to UTC seconds, or the `ValueError` message. */
  type IsoParser = string -> Result<int, string>

  /** `_parse_timestamp`: trimmed, a trailing `Z` read as `+00:00`. */
  function ParseTimestamp(value: string, iso: IsoParser): (r: Result<int, string>)
    ensures Strip(value) == [] ==> r == Failure(EmptyTimestamp)
    ensures Strip(value) != [] && !EndsWith(Strip(value), "Z") ==> r == iso(Strip(value))
  {
    var normalized := Strip(value);
    if normalized == [] then Failure(EmptyTimestamp)
    else if EndsWith(normalized, "Z") then iso(normalized[..|normalized| - 1] + UtcOffset)
    else iso(normalized)
  }

  /** A stamp ending in `Z` is parsed with the explicit offset `+00:00`. */
  lemma ZuluParse(t: string, iso: IsoParser)
    requires t != [] && !IsSpace(t[0])
    ensures ParseTimestamp(t + "Z", iso) == iso(t + UtcOffset)
  {
    var z := t + "Z";
    assert z[0] == t[0] && z[|z| - 1] == 'Z';
    StripTrimmed(z);
    assert EndsWith(z, "Z");
    assert z[..|z| - 1] == t;
  }

  /** A stamp ending in `+00:00` is parsed as it stands. */
  lemma OffsetParse(t: string, iso: IsoParser)
    requires t != [] && !IsSpace(t[0])
    ensures ParseTimestamp(t + UtcOffset, iso) == iso(t + UtcOffset)
  {
    var u := t + UtcOffset;
    assert u[0] == t[0] && u[|u| - 1] == '0';
    StripTrimmed(u);
    assert u[|u| - 1..] != "Z";
  }

  /** A trailing `Z` means the same instant as an explicit `+00:00`. */
  lemma ZuluIsUtc(t: string, iso: IsoParser)
    requires t != [] && !IsSpace(t[0])
    ensures ParseTimestamp(t + "Z", iso) == ParseTimestamp(t + UtcOffset, iso)
  {
    ZuluParse(t, iso);
    OffsetParse(t, iso);
  }

  // ---------------------------------------------------------------------------
  // Directory-name timestamps

  /** `s.rstrip("Z")`. */
  function StripTrailingZ(s: string): (r: string)
    ensures |r| <= |s| && r == s[..|r|]
    ensures r != [] ==> r[|r| - 1] != 'Z'
  {
    s[..|s| - TrailingIn(s, Chars({'Z'}))]
  }

  /** `s.replace("-", ":")`. */
  function DashesToColons(s: string): (r: string)
    ensures |r| == |s|
    ensures forall i | 0 <= i < |s| :: r[i] == (if s[i] == '-' then ':' else s[i])
  {
    seq(|s|, i requires 0 <= i < |s| => if s[i] == '-' then ':' else s[i])
  }

  /** `_parse_directory_timestamp`: `<date>T<HH-MM-SS>Z` read as a UTC instant. */
  function DirectoryTimestamp(name: string, iso: IsoParser): (r: Option<int>)
    ensures !Contains(name, "T") ==> r.None?
  {
    match SplitFirst(name, "T")
    case None => None
    case Some((date, time)) =>
      var clock := StripTrailingZ(time);
      if date == [] || clock == [] then None
      else
        match ParseTimestamp(date + "T" + DashesToColons(clock) + "Z", iso)
        case Success(at) => Some(at)
        case Failure(_) => None
  }

  /** A run directory named `<date>T<time>Z` is dated by `<date>T<time with colons>+00:00`. */
  lemma RunNameTimestamp(date: string, time: string, iso: IsoParser)
    requires date != [] && !IsSpace(date[0]) && !Contains(date, "T")
    requires time != [] && time[|time| - 1] != 'Z'
    ensures DirectoryTimestamp(date + "T" + time + "Z", iso) ==
      (match iso(date + "T" + DashesToColons(time) + UtcOffset)
       case Success(at) => Some(at)
       case Failure(_) => None)
  {
    var name := date + "T" + time + "Z";
    assert name == date + "T" + (time + "Z");
    SplitFirstOf(date, time + "Z", "T");
    ZuluTrimmed(time);
    var stem := date + "T" + DashesToColons(time);
    assert stem[0] == date[0];
    ZuluParse(stem, iso);
  }

  lemma ZuluTrimmed(time: string)
    requires time != [] && time[|time| - 1] != 'Z'
    ensures StripTrailingZ(time + "Z") == time
  {
    TrailingPadded(time, "Z", Chars({'Z'}));
  }

  // ---------------------------------------------------------------------------
  // Resolving `recorded_at`

  /**
   * What reading a run's `metadata.json` gives: absent, an `OSError` while
   * reading, bytes that are not UTF-8, text that is not JSON, or a value.
   */
  datatype MetadataFile =
    | NoMetadata
    | ReadError(message: string)
    | NotUtf8(message: string)
    | InvalidJson(message: string)
    | Decoded(value: Json)

  /** The `ValueError` `_load_metadata` lets out, which makes the run unreadable. */
  function LoadValueError(metadata: MetadataFile): Option<string> {
    match metadata
    case NotUtf8(message) => Some(message)
    case InvalidJson(message) => Some(InvalidJsonPrefix + message)
    case _ => None
  }

  datatype Resolution = Resolved(at: int, source: string) | Unresolved(reason: string)

  /** A non-blank string `recorded_at` of truthy object metadata, the only kind that is parsed. */
  function MetadataStamp(metadata: MetadataFile): Option<string> {
    if metadata.Decoded? && Truthy(metadata.value) && metadata.value.JObject? then
      var raw := Get(metadata.value.fields, RecordedAtKey);
      if raw.JString? && Strip(raw.s) != [] then Some(raw.s) else None
    else None
  }

  /** A read error escapes, and truthy metadata that is not an object makes `metadata.get` raise. */
  predicate MetadataRaises(metadata: MetadataFile) {
    metadata.ReadError? || (metadata.Decoded? && Truthy(metadata.value) && !metadata.value.JObject?)
  }

  /**
   * `_resolve_recorded_at`: unreadable metadata or an unparsable
   * `recorded_at` skips the run; without a usable `recorded_at` the
   * directory name decides. A failure is an exception that escapes.
   */
  function ResolveRecordedAt(name: string, metadata: MetadataFile, iso: IsoParser): (r: Result<Resolution, string>)
    ensures r.Failure? <==> MetadataRaises(metadata)
    ensures LoadValueError(metadata).Some? ==>
      r == Success(Unresolved(UnreadablePrefix + LoadValueError(metadata).value + ")"))
    ensures MetadataStamp(metadata).Some? ==>
      r == Success(match ParseTimestamp(MetadataStamp(metadata).value, iso)
                   case Success(at) => Resolved(at, MetadataSource)
                   case Failure(e) => Unresolved(InvalidPrefix + e + ")"))
    ensures LoadValueError(metadata).None? && !MetadataRaises(metadata) && MetadataStamp(metadata).None? ==>
      r == Success(match DirectoryTimestamp(name, iso)
                   case Some(at) => Resolved(at, DirectorySource)
                   case None => Unresolved(MissingReason))
  {
    match LoadValueError(metadata)
    case Some(error) => Success(Unresolved(UnreadablePrefix + error + ")"))
    case None =>
      if metadata.ReadError? then Failure(metadata.message)
      else if MetadataRaises(metadata) then Failure(NoGetMessage)
      else
        match MetadataStamp(metadata)
        case Some(raw) =>
          (match ParseTimestamp(raw, iso)
           case Success(at) => Success(Resolved(at, MetadataSource))
           case Failure(e) => Success(Unresolved(InvalidPrefix + e + ")")))
        case None =>
          match DirectoryTimestamp(name, iso)
          case Some(at) => Success(Resolved(at, DirectorySource))
          case None => Success(Unresolved(MissingReason))
  }

  /** Once metadata names a `recorded_at`, the directory name is never consulted. */
  lemma MetadataOutranksName(a: string, b: string, metadata: MetadataFile, iso: IsoParser)
    requires MetadataStamp(metadata).Some? || LoadValueError(metadata).Some? || MetadataRaises(metadata)
    ensures ResolveRecordedAt(a, metadata, iso) == ResolveRecordedAt(b, metadata, iso)
  {
  }

  /** Without metadata a run is dated by its name exactly when the name parses. */
  lemma NameDatesBareRun(name: string, iso: IsoParser)
    ensures ResolveRecordedAt(name, NoMetadata, iso).Success?
    ensures ResolveRecordedAt(name, NoMetadata, iso).value.Resolved? <==> DirectoryTimestamp(name, iso).Some?
  {
  }

  // ---------------------------------------------------------------------------
  // The sweep

  datatype Entry = NotDirectory | RunDirectory(metadata: MetadataFile)

  /** How an entry of the runs directory resolves: `None` for what is not a directory. */
  type Resolver = string -> Option<Result<Resolution, string>>

  function ResolverOf(dir: map<string, Entry>, iso: IsoParser): (resolve: Resolver)
    ensures forall name :: resolve(name).Some? <==> name in dir && dir[name].RunDirectory?
    ensures forall name | name in dir && dir[name].RunDirectory? ::
      resolve(name) == Some(ResolveRecordedAt(name, dir[name].metadata, iso))
  {
    name => if name in dir && dir[name].RunDirectory? then Some(ResolveRecordedAt(name, dir[name].metadata, iso)) else None
  }

  datatype RunInfo = RunInfo(path: string, recordedAt: int, source: string)

  /** The lists `retire_runs` builds, and the exception that stopped it, if any. */
  datatype Sweep = Sweep(removed: seq<RunInfo>, kept: seq<RunInfo>, skipped: seq<(string, string)>, raised: Option<string>)

  /** What one entry contributes, given the sweep so far. */
  function SweepStep(prev: Sweep, resolve: Resolver, name: string, cutoff: int): Sweep {
    if prev.raised.Some? then prev
    else
      match resolve(name)
      case None => prev
      case Some(Failure(e)) => prev.(raised := Some(e))
      case Some(Success(Unresolved(reason))) => prev.(skipped := prev.skipped + [(name, reason)])
      case Some(Success(Resolved(at, source))) =>
        if at < cutoff then prev.(removed := prev.removed + [RunInfo(name, at, source)])
        else prev.(kept := prev.kept + [RunInfo(name, at, source)])
  }

  /** The loop over the entries in the order given. */
  function SweepRuns(resolve: Resolver, names: seq<string>, cutoff: int): (s: Sweep)
    ensures forall i | 0 <= i < |s.removed| :: s.removed[i].recordedAt < cutoff
    ensures forall i | 0 <= i < |s.kept| :: s.kept[i].recordedAt >= cutoff
    decreases |names|
  {
    if names == [] then Sweep([], [], [], None)
    else SweepStep(SweepRuns(resolve, names[..|names| - 1], cutoff), resolve, names[|names| - 1], cutoff)
  }

  function RunPaths(runs: seq<RunInfo>): (r: seq<string>)
    ensures |r| == |runs| && forall i | 0 <= i < |runs| :: r[i] == runs[i].path
  {
    seq(|runs|, i requires 0 <= i < |runs| => runs[i].path)
  }

  function SkippedPaths(skipped: seq<(string, string)>): (r: seq<string>)
    ensures |r| == |skipped| && forall i | 0 <= i < |skipped| :: r[i] == skipped[i].0
  {
    seq(|skipped|, i requires 0 <= i < |skipped| => skipped[i].0)
  }

  /** All the paths the sweep listed, in list order. */
  function Listed(s: Sweep): seq<string> {
    RunPaths(s.removed) + RunPaths(s.kept) + SkippedPaths(s.skipped)
  }

  /** Every listed run comes from `names`, with the resolution that put it in its list. */
  predicate Sound(resolve: Resolver, names: seq<string>, s: Sweep) {
    && (forall i | 0 <= i < |s.removed| ::
          s.removed[i].path in names
          && resolve(s.removed[i].path) == Some(Success(Resolved(s.removed[i].recordedAt, s.removed[i].source))))
    && (forall i | 0 <= i < |s.kept| ::
          s.kept[i].path in names
          && resolve(s.kept[i].path) == Some(Success(Resolved(s.kept[i].recordedAt, s.kept[i].source))))
    && (forall i | 0 <= i < |s.skipped| ::
          s.skipped[i].0 in names && resolve(s.skipped[i].0) == Some(Success(Unresolved(s.skipped[i].1))))
  }

  lemma {:induction false} SweepSound(resolve: Resolver, names: seq<string>, cutoff: int)
    ensures Sound(resolve, names, SweepRuns(resolve, names, cutoff))
    decreases |names|
  {
    if names != [] {
      var init := names[..|names| - 1];
      SweepSound(resolve, init, cutoff);
      assert names == init + [names[|names| - 1]];
      StepSound(SweepRuns(resolve, init, cutoff), resolve, init, names[|names| - 1], cutoff);
    }
  }

  /** A step keeps a sweep sound for the entries seen so far, its own included. */
  lemma StepSound(prev: Sweep, resolve: Resolver, init: seq<string>, name: string, cutoff: int)
    requires Sound(resolve, init, prev)
    ensures Sound(resolve, init + [name], SweepStep(prev, resolve, name, cutoff))
  {
    assert forall n | n in init :: n in init + [name];
    assert name in init + [name];
  }

  /** Without an exception, every entry among `names` that resolves is listed. */
  lemma {:induction false} SweepComplete(resolve: Resolver, names: seq<string>, cutoff: int)
    ensures var s := SweepRuns(resolve, names, cutoff);
      s.raised.None? ==> forall i | 0 <= i < |names| && resolve(names[i]).Some? :: names[i] in Listed(s)
    decreases |names|
  {
    if names != [] {
      var init := names[..|names| - 1];
      var prev := SweepRuns(resolve, init, cutoff);
      var s := SweepRuns(resolve, names, cutoff);
      SweepComplete(resolve, init, cutoff);
      if s.raised.None? {
        assert s == SweepStep(prev, resolve, names[|names| - 1], cutoff);
        StepGrows(prev, resolve, names[|names| - 1], cutoff);
        forall i | 0 <= i < |names| && resolve(names[i]).Some?
          ensures names[i] in Listed(s)
        {
          if i < |names| - 1 {
            assert names[i] == init[i];
            assert names[i] in Elems(Listed(prev));
          }
        }
      }
    }
  }

  /** A step keeps what was listed, and lists its own entry when it resolves without raising. */
  lemma StepGrows(prev: Sweep, resolve: Resolver, name: string, cutoff: int)
    ensures var s := SweepStep(prev, resolve, name, cutoff);
      s.raised.None? ==>
        (prev.raised.None? && Elems(Listed(prev)) <= Elems(Listed(s)) && (resolve(name).Some? ==> name in Listed(s)))
  {
    var s := SweepStep(prev, resolve, name, cutoff);
    var r, k, sk := RunPaths(prev.removed), RunPaths(prev.kept), SkippedPaths(prev.skipped);
    if s.raised.None? && resolve(name).Some? {
      if s.removed != prev.removed {
        assert Listed(s) == r + [name] + k + sk;
      } else if s.kept != prev.kept {
        assert Listed(s) == r + k + [name] + sk;
      } else {
        assert Listed(s) == r + k + sk + [name];
      }
    }
  }

  /** With the names sorted, each list is sorted and no path is listed twice. */
  lemma {:induction false} SweepOrdered(resolve: Resolver, names: seq<string>, cutoff: int, less: (string, string) -> bool)
    requires StrictTotalOrder(less) && SortedBy(names, less)
    ensures var s := SweepRuns(resolve, names, cutoff);
      && SortedBy(RunPaths(s.removed), less)
      && SortedBy(RunPaths(s.kept), less)
      && SortedBy(SkippedPaths(s.skipped), less)
      && Distinct(Listed(s))
    decreases |names|
  {
    if names != [] {
      var init := names[..|names| - 1];
      var last := names[|names| - 1];
      var prev := SweepRuns(resolve, init, cutoff);
      SweepOrdered(resolve, init, cutoff, less);
      SweepSound(resolve, init, cutoff);
      assert forall j | 0 <= j < |init| :: less(init[j], last);
      ListedBefore(prev, resolve, init, last, less);
      StepOrdered(prev, resolve, last, cutoff, less);
    }
  }

  /** What a sweep over `init` lists precedes anything after `init`. */
  lemma ListedBefore(prev: Sweep, resolve: Resolver, init: seq<string>, last: string, less: (string, string) -> bool)
    requires Sound(resolve, init, prev)
    requires forall j | 0 <= j < |init| :: less(init[j], last)
    ensures forall p | p in Listed(prev) :: less(p, last)
  {
    forall p | p in Listed(prev)
      ensures less(p, last)
    {
      var j :| 0 <= j < |init| && init[j] == p;
    }
  }

  /** One step appends its entry after entries that precede it, and nowhere else. */
  lemma StepOrdered(prev: Sweep, resolve: Resolver, name: string, cutoff: int, less: (string, string) -> bool)
    requires StrictTotalOrder(less)
    requires SortedBy(RunPaths(prev.removed), less) && SortedBy(RunPaths(prev.kept), less)
    requires SortedBy(SkippedPaths(prev.skipped), less) && Distinct(Listed(prev))
    requires forall p | p in Listed(prev) :: less(p, name)
    ensures var s := SweepStep(prev, resolve, name, cutoff);
      && SortedBy(RunPaths(s.removed), less)
      && SortedBy(RunPaths(s.kept), less)
      && SortedBy(SkippedPaths(s.skipped), less)
      && Distinct(Listed(s))
  {
    var s := SweepStep(prev, resolve, name, cutoff);
    var r, k, sk := RunPaths(prev.removed), RunPaths(prev.kept), SkippedPaths(prev.skipped);
    assert !less(name, name);
    if s.removed != prev.removed {
      assert RunPaths(s.removed) == r + [name];
      AppendSorted(r, name, less);
      assert Listed(s) == r + [name] + k + sk;
      assert r + (k + sk) == Listed(prev);
      DistinctInsert(r, name, k + sk);
      assert r + [name] + (k + sk) == Listed(s);
    } else if s.kept != prev.kept {
      assert RunPaths(s.kept) == k + [name];
      AppendSorted(k, name, less);
      assert Listed(s) == r + k + [name] + sk;
      assert r + k + sk == Listed(prev);
      DistinctInsert(r + k, name, sk);
    } else if s.skipped != prev.skipped {
      assert SkippedPaths(s.skipped) == sk + [name];
      AppendSorted(sk, name, less);
      assert Listed(s) == r + k + sk + [name];
      assert r + k + sk + [] == Listed(prev);
      DistinctInsert(r + k + sk, name, []);
    }
  }

  lemma AppendSorted(xs: seq<string>, x: string, less: (string, string) -> bool)
    requires SortedBy(xs, less)
    requires forall i | 0 <= i < |xs| :: less(xs[i], x)
    ensures SortedBy(xs + [x], less)
  {
  }

  lemma DistinctInsert(xs: seq<string>, x: string, ys: seq<string>)
    requires Distinct(xs + ys) && x !in xs + ys
    ensures Distinct(xs + [x] + ys)
  {
    var zs := xs + [x] + ys;
    var ws := xs + ys;
    forall i, j | 0 <= i < j < |zs|
      ensures zs[i] != zs[j]
    {
      if i == |xs| {
        assert zs[j] == ws[j - 1];
      } else if j == |xs| {
        assert zs[i] == ws[i];
      } else {
        var i' := if i < |xs| then i else i - 1;
        var j' := if j < |xs| then j else j - 1;
        assert zs[i] == ws[i'] && zs[j] == ws[j'];
      }
    }
  }

  // ---------------------------------------------------------------------------
  // `retire_runs` and `main`

  /** The exceptions that leave `retire_runs`: `main` reports a `ValueError`; anything else escapes. */
  datatype Raised = ValueError(message: string) | OtherError(message: string)

  datatype RetireReport = RetireReport(removed: seq<RunInfo>, kept: seq<RunInfo>, skipped: seq<(string, string)>,
                                       cutoff: int, now: int)

  /** The report, or the exception, and the directories deleted along the way. */
  datatype Retirement = Retirement(outcome: Result<RetireReport, Raised>, deleted: seq<string>)

  /** The sweep of a runs directory in path order. */
  function SweepOf(dir: map<string, Entry>, cutoff: int, iso: IsoParser): Sweep {
    StrLessOrder();
    SweepRuns(ResolverOf(dir, iso), SortedSet(dir.Keys, StrLess), cutoff)
  }

  /** `retire_runs`; `runsDir` is `None` when the directory does not exist. */
  function RetireRuns(runsDir: Option<map<string, Entry>>, retentionDays: int, now: int, dryRun: bool,
                      iso: IsoParser): (r: Retirement)
    ensures retentionDays <= 0 ==> r == Retirement(Failure(ValueError(NonPositiveRetention)), [])
    ensures retentionDays > 0 && runsDir.None? ==>
      r == Retirement(Success(RetireReport([], [], [], Cutoff(now, retentionDays), now)), [])
    ensures r.outcome.Success? ==> r.outcome.value.cutoff == Cutoff(now, retentionDays)
    ensures r.outcome.Success? ==>
      && (forall i | 0 <= i < |r.outcome.value.removed| :: r.outcome.value.removed[i].recordedAt < r.outcome.value.cutoff)
      && (forall i | 0 <= i < |r.outcome.value.kept| :: r.outcome.value.kept[i].recordedAt >= r.outcome.value.cutoff)
    ensures dryRun ==> r.deleted == []
    ensures !dryRun && r.outcome.Success? ==> r.deleted == RunPaths(r.outcome.value.removed)
  {
    if retentionDays <= 0 then Retirement(Failure(ValueError(NonPositiveRetention)), [])
    else
      var cutoff := Cutoff(now, retentionDays);
      match runsDir
      case None => Retirement(Success(RetireReport([], [], [], cutoff, now)), [])
      case Some(dir) =>
        var s := SweepOf(dir, cutoff, iso);
        var deleted := if dryRun then [] else RunPaths(s.removed);
        match s.raised
        case Some(e) => Retirement(Failure(OtherError(e)), deleted)
        case None => Retirement(Success(RetireReport(s.removed, s.kept, s.skipped, cutoff, now)), deleted)
  }

  /**
   * The lists partition the run directories: each run directory appears in
   * exactly one list, each list is in path order, and each run sits in the
   * list its resolved `recorded_at` puts it in.
   */
  ghost predicate Partitioned(dir: map<string, Entry>, iso: IsoParser, removed: seq<RunInfo>, kept: seq<RunInfo>,
                        skipped: seq<(string, string)>) {
    var listed := RunPaths(removed) + RunPaths(kept) + SkippedPaths(skipped);
    && Distinct(listed)
    && (forall n :: n in listed <==> n in dir && dir[n].RunDirectory?)
    && SortedBy(RunPaths(removed), StrLess)
    && SortedBy(RunPaths(kept), StrLess)
    && SortedBy(SkippedPaths(skipped), StrLess)
    && Placed(dir, iso, removed, kept, skipped)
  }

  /** Each listed run sits in the list its resolved `recorded_at` puts it in. */
  predicate Placed(dir: map<string, Entry>, iso: IsoParser, removed: seq<RunInfo>, kept: seq<RunInfo>,
                   skipped: seq<(string, string)>) {
    && (forall i | 0 <= i < |removed| ::
          var p := removed[i].path;
          p in dir && dir[p].RunDirectory?
          && ResolveRecordedAt(p, dir[p].metadata, iso) == Success(Resolved(removed[i].recordedAt, removed[i].source)))
    && (forall i | 0 <= i < |kept| ::
          var p := kept[i].path;
          p in dir && dir[p].RunDirectory?
          && ResolveRecordedAt(p, dir[p].metadata, iso) == Success(Resolved(kept[i].recordedAt, kept[i].source)))
    && (forall i | 0 <= i < |skipped| ::
          var p := skipped[i].0;
          p in dir && dir[p].RunDirectory?
          && ResolveRecordedAt(p, dir[p].metadata, iso) == Success(Unresolved(skipped[i].1)))
  }

  /** A completed `retire_runs` partitions the run directories by age. */
  lemma RetirePartition(dir: map<string, Entry>, retentionDays: int, now: int, dryRun: bool, iso: IsoParser,
                        report: RetireReport)
    requires RetireRuns(Some(dir), retentionDays, now, dryRun, iso).outcome == Success(report)
    ensures Partitioned(dir, iso, report.removed, report.kept, report.skipped)
  {
    var s := ReportIsSweep(dir, retentionDays, now, dryRun, iso, report);
    SweepOfPartition(dir, Cutoff(now, retentionDays), iso, s);
  }

  lemma ReportIsSweep(dir: map<string, Entry>, retentionDays: int, now: int, dryRun: bool, iso: IsoParser,
                      report: RetireReport) returns (s: Sweep)
    requires RetireRuns(Some(dir), retentionDays, now, dryRun, iso).outcome == Success(report)
    ensures s == SweepOf(dir, Cutoff(now, retentionDays), iso) && s.raised.None?
    ensures report == RetireReport(s.removed, s.kept, s.skipped, Cutoff(now, retentionDays), now)
  {
    s := SweepOf(dir, Cutoff(now, retentionDays), iso);
  }

  lemma SweepOfPartition(dir: map<string, Entry>, cutoff: int, iso: IsoParser, s: Sweep)
    requires s == SweepOf(dir, cutoff, iso) && s.raised.None?
    ensures Partitioned(dir, iso, s.removed, s.kept, s.skipped)
  {
    StrLessOrder();
    var resolve := ResolverOf(dir, iso);
    var names := SortedSet(dir.Keys, StrLess);
    assert s == SweepRuns(resolve, names, cutoff);
    SweepOrdered(resolve, names, cutoff, StrLess);
    SweepCovers(dir, iso, names, s, cutoff);
    SweepPlaced(dir, iso, names, cutoff);
  }

  lemma SweepCovers(dir: map<string, Entry>, iso: IsoParser, names: seq<string>, s: Sweep, cutoff: int)
    requires Elems(names) == dir.Keys
    requires s == SweepRuns(ResolverOf(dir, iso), names, cutoff) && s.raised.None?
    ensures forall n :: n in Listed(s) <==> n in dir && dir[n].RunDirectory?
  {
    var resolve := ResolverOf(dir, iso);
    SweepSound(resolve, names, cutoff);
    SweepComplete(resolve, names, cutoff);
    ListedAreRuns(resolve, names, s);
    forall n | n in dir && dir[n].RunDirectory?
      ensures n in Listed(s)
    {
      assert n in Elems(names);
    }
  }

  lemma SweepPlaced(dir: map<string, Entry>, iso: IsoParser, names: seq<string>, cutoff: int)
    ensures var s := SweepRuns(ResolverOf(dir, iso), names, cutoff); Placed(dir, iso, s.removed, s.kept, s.skipped)
  {
    SweepSound(ResolverOf(dir, iso), names, cutoff);
  }

  /** A listed entry is one that resolves. */
  lemma ListedAreRuns(resolve: Resolver, names: seq<string>, s: Sweep)
    requires Sound(resolve, names, s)
    ensures forall n | n in Listed(s) :: resolve(n).Some?
  {
    forall n | n in Listed(s)
      ensures resolve(n).Some?
    {
      var r, k := RunPaths(s.removed), RunPaths(s.kept);
      if n in r {
        var i :| 0 <= i < |r| && r[i] == n;
      } else if n in k {
        var i :| 0 <= i < |k| && k[i] == n;
      } else {
        var i :| 0 <= i < |s.skipped| && SkippedPaths(s.skipped)[i] == n;
      }
    }
  }

  /** `--dry-run` changes which directories are deleted and nothing in the report. */
  lemma DryRunSameReport(runsDir: Option<map<string, Entry>>, retentionDays: int, now: int, iso: IsoParser)
    ensures RetireRuns(runsDir, retentionDays, now, true, iso).outcome == RetireRuns(runsDir, retentionDays, now, false, iso).outcome
    ensures RetireRuns(runsDir, retentionDays, now, true, iso).deleted == []
  {
  }

  /**
   * `main`: 0 after a sweep, 1 on a `ValueError` (a bad `--now` or a
   * non-positive retention); a failure is an exception that escapes.
   */
  function RetireMain(runsDir: Option<map<string, Entry>>, retentionDays: int, nowOverride: Option<string>,
                      clock: int, dryRun: bool, iso: IsoParser): (r: Result<int, string>)
    ensures retentionDays <= 0 ==> r == Success(1)
    ensures nowOverride.Some? && nowOverride.value != [] && ParseTimestamp(nowOverride.value, iso).Failure? ==> r == Success(1)
    ensures r == Success(0) <==>
      var now := if nowOverride.Some? && nowOverride.value != [] then ParseTimestamp(nowOverride.value, iso) else Success(clock);
      now.Success? && RetireRuns(runsDir, retentionDays, now.value, dryRun, iso).outcome.Success?
  {
    var now := if nowOverride.Some? && nowOverride.value != [] then ParseTimestamp(nowOverride.value, iso) else Success(clock);
    match now
    case Failure(_) => Success(1)
    case Success(at) =>
      match RetireRuns(runsDir, retentionDays, at, dryRun, iso).outcome
      case Success(_) => Success(0)
      case Failure(ValueError(_)) => Success(1)
      case Failure(OtherError(e)) => Failure(e)
  }
}
