/**
 * `aggregate_ci_logs.py`: collect CI log files under distinct relative
 * paths, describe them in a manifest and lay them out as a directory
 * tree or an archive. Paths are POSIX strings in normal form; walking the
 * file system, hashing and copying are outside the model, so each staged
 * file arrives with its size and checksum.
 */
module LogAggregation {
  import opened Wrappers
  import opened Text
  import opened Sorting

  // ---------------------------------------------------------------------------
  // Path pieces

  /** Where the file name of `path` starts: after its last `/`. */
  function NameStart(path: string): (i: nat)
    ensures i <= |path|
    ensures forall j | i <= j < |path| :: path[j] != '/'
  {
    forall j | 0 <= j < |path|
      ensures OccursAt(path, "/", j) <==> path[j] == '/'
    {
      assert path[j..j + 1] == [path[j]];
    }
    match LastIndexOf(path, "/")
    case None => 0
    case Some(k) => k + 1
  }

  /** `path.parent` with its trailing `/`, or nothing for a bare file name. */
  function DirPart(path: string): string {
    path[..NameStart(path)]
  }

  /** `path.name`. */
  function NamePart(path: string): string {
    path[NameStart(path)..]
  }

  /** Where `name.suffix` starts: the last `.`, unless it is the first or the last character. */
  function SuffixStart(name: string): (i: nat)
    ensures i <= |name|
  {
    match LastIndexOf(name, ".")
    case Some(k) => if 0 < k < |name| - 1 then k else |name|
    case None => |name|
  }

  /** `path.stem`. */
  function Stem(name: string): string {
    name[..SuffixStart(name)]
  }

  /** `path.suffix`. */
  function Suffix(name: string): string {
    name[SuffixStart(name)..]
  }

  /** `relative.parent / f"{relative.stem}-{counter}{relative.suffix}"`. */
  function Candidate(path: string, counter: nat): (c: string)
    ensures |c| > |path|
  {
    var name := NamePart(path);
    assert path == DirPart(path) + Stem(name) + Suffix(name);
    DirPart(path) + Stem(name) + "-" + NatToString(counter) + Suffix(name)
  }

  /** Different counters give different candidates. */
  lemma CandidateDistinct(path: string, a: nat, b: nat)
    requires a != b
    ensures Candidate(path, a) != Candidate(path, b)
  {
    var name := NamePart(path);
    var front := DirPart(path) + Stem(name) + "-";
    NatToStringValue(a);
    NatToStringValue(b);
    assert Candidate(path, a) == front + NatToString(a) + Suffix(name);
    assert Candidate(path, b) == front + NatToString(b) + Suffix(name);
    MiddleDiffers(front, NatToString(a), NatToString(b), Suffix(name));
  }

  lemma MiddleDiffers(front: string, m1: string, m2: string, back: string)
    requires m1 != m2
    ensures front + m1 + back != front + m2 + back
  {
    var x, y := front + m1 + back, front + m2 + back;
    if |m1| == |m2| {
      assert x[|front|..|front| + |m1|] == m1;
      assert y[|front|..|front| + |m2|] == m2;
    } else {
      assert |x| != |y|;
    }
  }

  /** The candidates for counters `start + 1` … `n`. */
  function CandidateRange(path: string, start: nat, n: nat): set<string> {
    set k: nat | start < k <= n :: Candidate(path, k)
  }

  lemma {:induction false} CandidateRangeSize(path: string, start: nat, n: nat)
    requires start <= n
    ensures |CandidateRange(path, start, n)| == n - start
    decreases n - start
  {
    if n > start {
      CandidateRangeSize(path, start, n - 1);
      CandidateRangeSnoc(path, start, n);
      SizeAddOne(CandidateRange(path, start, n - 1), Candidate(path, n));
    }
  }

  lemma SizeAddOne<T>(a: set<T>, x: T)
    requires x !in a
    ensures |a + {x}| == |a| + 1
  {
  }

  /** The range up to `n` is the range up to `n - 1` and one new candidate. */
  lemma CandidateRangeSnoc(path: string, start: nat, n: nat)
    requires start < n
    ensures Candidate(path, n) !in CandidateRange(path, start, n - 1)
    ensures CandidateRange(path, start, n) == CandidateRange(path, start, n - 1) + {Candidate(path, n)}
  {
    forall k: nat | start < k <= n - 1
      ensures Candidate(path, k) != Candidate(path, n)
    {
      CandidateDistinct(path, k, n);
    }
  }

  /** Taken candidates are distinct paths, so there are no more of them than paths in use. */
  lemma CandidatesCounted(used: set<string>, path: string, start: nat, n: nat)
    requires start <= n
    requires forall k: nat | start < k <= n :: Candidate(path, k) in used
    ensures n - start <= |used|
  {
    CandidateRangeSize(path, start, n);
    SubsetSize(CandidateRange(path, start, n), used);
  }

  lemma {:induction false} SubsetSize<T>(a: set<T>, b: set<T>)
    requires a <= b
    ensures |a| <= |b|
    decreases |a|
  {
    if a != {} {
      var x :| x in a;
      SubsetSize(a - {x}, b - {x});
    }
  }

  // ---------------------------------------------------------------------------
  // Disambiguation in `collect_log_files`

  /** The counter stored for a path in use is at least 1. */
  predicate PositiveCounts(used: map<string, nat>) {
    forall p | p in used :: used[p] >= 1
  }

  /** The `while True` loop: the first counter above `start` whose candidate is free. */
  function NextFree(used: set<string>, path: string, start: nat, counter: nat): (c: nat)
    requires start <= counter
    requires forall k: nat | start < k <= counter :: Candidate(path, k) in used
    ensures c > counter && Candidate(path, c) !in used
    ensures forall k: nat | start < k < c :: Candidate(path, k) in used
    decreases |used| - (counter - start)
  {
    CandidatesCounted(used, path, start, counter);
    if Candidate(path, counter + 1) !in used then counter + 1
    else
      CandidatesCounted(used, path, start, counter + 1);
      NextFree(used, path, start, counter + 1)
  }

  /** One file: keep its path when unused, else take the next free `<stem>-<k><suffix>`. */
  function Assign(used: map<string, nat>, path: string): (r: (string, map<string, nat>))
    ensures PositiveCounts(used) ==> r.0 !in used && PositiveCounts(r.1)
    ensures r.1.Keys == used.Keys + {path, r.0}
    ensures path !in used ==> r.0 == path
    ensures path in used && used[path] != 0 ==>
      exists k: nat | k > used[path] :: r.0 == Candidate(path, k) && r.1[path] == k
  {
    var counter := if path in used then used[path] else 0;
    if counter != 0 then
      var c := NextFree(used.Keys, path, counter, counter);
      var candidate := Candidate(path, c);
      (candidate, used[path := c][candidate := 1])
    else
      (path, used[path := 1])
  }

  /** The final relative paths of `paths` in order, with the counters in use afterwards. */
  function Disambiguate(paths: seq<string>): (r: (map<string, nat>, seq<string>))
    ensures |r.1| == |paths|
    ensures PositiveCounts(r.0)
    ensures r.0.Keys == Elems(paths) + Elems(r.1)
    ensures Distinct(r.1)
    decreases |paths|
  {
    if paths == [] then (map[], [])
    else
      var init := paths[..|paths| - 1];
      var prev := Disambiguate(init);
      var step := Assign(prev.0, paths[|paths| - 1]);
      AssignKeeps(paths, prev.0, prev.1);
      (step.1, prev.1 + [step.0])
  }

  /** One more file keeps the bookkeeping invariants of `Disambiguate`. */
  lemma AssignKeeps(paths: seq<string>, used: map<string, nat>, finals: seq<string>)
    requires paths != []
    requires PositiveCounts(used) && used.Keys == Elems(paths[..|paths| - 1]) + Elems(finals) && Distinct(finals)
    ensures var step := Assign(used, paths[|paths| - 1]);
      && PositiveCounts(step.1)
      && step.1.Keys == Elems(paths) + Elems(finals + [step.0])
      && Distinct(finals + [step.0])
  {
    var last := paths[|paths| - 1];
    var step := Assign(used, last);
    PrefixSnoc(paths, |paths| - 1);
    assert paths[..|paths|] == paths;
    assert Elems(paths) == Elems(paths[..|paths| - 1]) + {last};
    assert Elems(finals + [step.0]) == Elems(finals) + {step.0};
    assert step.0 !in finals;
  }

  /** The first `i` results are the results for the first `i` paths. */
  lemma {:induction false} DisambiguatePrefix(paths: seq<string>, i: nat)
    requires i <= |paths|
    ensures Disambiguate(paths[..i]).1 == Disambiguate(paths).1[..i]
    decreases |paths|
  {
    if i < |paths| {
      var init := paths[..|paths| - 1];
      DisambiguatePrefix(init, i);
      assert init[..i] == paths[..i];
    } else {
      assert paths[..i] == paths;
    }
  }

  /**
   * A file keeps its relative path exactly when no earlier file had that
   * path or was renamed to it; otherwise it gets `<stem>-<k><suffix>`
   * with `k >= 2`.
   */
  lemma FinalPath(paths: seq<string>, i: nat)
    requires i < |paths|
    ensures var finals := Disambiguate(paths).1;
      finals[i] == paths[i] <==> paths[i] !in Elems(paths[..i]) + Elems(finals[..i])
    ensures var finals := Disambiguate(paths).1;
      finals[i] != paths[i] ==> exists k: nat | k >= 2 :: finals[i] == Candidate(paths[i], k)
  {
    var finals := Disambiguate(paths).1;
    DisambiguatePrefix(paths, i);
    FinalIsStep(paths, i);
    AssignRenames(Disambiguate(paths[..i]).0, paths[i]);
  }

  /** The `i`-th final path is what `Assign` gives the `i`-th path after the ones before it. */
  lemma FinalIsStep(paths: seq<string>, i: nat)
    requires i < |paths|
    ensures Disambiguate(paths).1[i] == Assign(Disambiguate(paths[..i]).0, paths[i]).0
  {
    var init := paths[..i];
    PrefixSnoc(paths, i);
    DisambiguateSnoc(init, paths[i]);
    DisambiguatePrefix(paths, i + 1);
    LastOfPrefix(Disambiguate(paths).1, Disambiguate(init).1, Assign(Disambiguate(init).0, paths[i]).0, i);
  }

  lemma LastOfPrefix(whole: seq<string>, prefix: seq<string>, x: string, i: nat)
    requires i < |whole| && |prefix| == i && whole[..i + 1] == prefix + [x]
    ensures whole[i] == x
  {
    assert whole[..i + 1][i] == x;
  }

  /** One more path appends what `Assign` gives it. */
  lemma DisambiguateSnoc(init: seq<string>, last: string)
    ensures Disambiguate(init + [last]).1 == Disambiguate(init).1 + [Assign(Disambiguate(init).0, last).0]
  {
    var paths := init + [last];
    assert paths[..|paths| - 1] == init;
    assert paths[|paths| - 1] == last;
  }

  /** A path is kept exactly when it is not yet in use, and is otherwise renamed with a counter of at least 2. */
  lemma AssignRenames(used: map<string, nat>, path: string)
    requires PositiveCounts(used)
    ensures Assign(used, path).0 == path <==> path !in used
    ensures Assign(used, path).0 != path ==> exists k: nat | k >= 2 :: Assign(used, path).0 == Candidate(path, k)
  {
    var step := Assign(used, path);
    if path in used {
      var k: nat :| k > used[path] && step.0 == Candidate(path, k);
      assert |step.0| > |path|;
    }
  }

  /** A file found under a root, with what `stat` and the hash gave. */
  datatype StagedFile = StagedFile(source: string, relative: string, sizeBytes: nat, sha256: string)

  datatype LogFile = LogFile(source: string, relativePath: string, sizeBytes: nat, sha256: string)

  function RelativePaths(files: seq<LogFile>): (r: seq<string>)
    ensures |r| == |files| && forall i | 0 <= i < |files| :: r[i] == files[i].relativePath
  {
    seq(|files|, i requires 0 <= i < |files| => files[i].relativePath)
  }

  function StagedPaths(staged: seq<StagedFile>): (r: seq<string>)
    ensures |r| == |staged| && forall i | 0 <= i < |staged| :: r[i] == staged[i].relative
  {
    seq(|staged|, i requires 0 <= i < |staged| => staged[i].relative)
  }

  /** `collect_log_files`: one entry per staged file, in order, under pairwise distinct paths. */
  function CollectLogFiles(staged: seq<StagedFile>): (files: seq<LogFile>)
    ensures |files| == |staged|
    ensures forall i | 0 <= i < |files| ::
      && files[i].source == staged[i].source
      && files[i].sizeBytes == staged[i].sizeBytes
      && files[i].sha256 == staged[i].sha256
    ensures Distinct(RelativePaths(files))
    ensures RelativePaths(files) == Disambiguate(StagedPaths(staged)).1
  {
    WithPaths(staged, Disambiguate(StagedPaths(staged)).1)
  }

  /** The staged files under the given relative paths, one for one. */
  function WithPaths(staged: seq<StagedFile>, finals: seq<string>): (files: seq<LogFile>)
    requires |finals| == |staged|
    ensures |files| == |staged|
    ensures forall i | 0 <= i < |files| ::
      && files[i].source == staged[i].source
      && files[i].sizeBytes == staged[i].sizeBytes
      && files[i].sha256 == staged[i].sha256
    ensures RelativePaths(files) == finals
  {
    var files := seq(|staged|, i requires 0 <= i < |staged| =>
      LogFile(staged[i].source, finals[i], staged[i].sizeBytes, staged[i].sha256));
    assert RelativePaths(files) == finals;
    files
  }

  // ---------------------------------------------------------------------------
  // Manifest

  datatype ExportMetadata = ExportMetadata(device: string, test: string, config: string, runId: string)

  /** `a / b` on POSIX path strings. */
  function PathJoin(a: string, b: string): string {
    a + "/" + b
  }

  /** `ExportMetadata.path`: `device/test/config/run_id`. */
  function MetadataPath(m: ExportMetadata): string {
    Join([m.device, m.test, m.config, m.runId], "/")
  }

  predicate PathSegment(s: string) {
    s != [] && forall i | 0 <= i < |s| :: s[i] != '/'
  }

  /** The export prefix names the run: its four components come back out of it. */
  lemma MetadataPathRoundTrip(m: ExportMetadata)
    requires PathSegment(m.device) && PathSegment(m.test) && PathSegment(m.config) && PathSegment(m.runId)
    ensures Split(MetadataPath(m), "/") == [m.device, m.test, m.config, m.runId]
  {
    var parts := [m.device, m.test, m.config, m.runId];
    forall i | 0 <= i < |parts|
      ensures forall j | 0 <= j < |parts[i]| :: parts[i][j] != "/"[0]
    {
      assert PathSegment(parts[i]);
    }
    SplitJoin(parts, "/");
  }

  datatype ManifestEntry = ManifestEntry(relativePath: string, sizeBytes: nat, sha256: string, source: string)

  datatype Manifest = Manifest(device: string, test: string, config: string, runId: string, generatedAt: string,
                               totalFiles: nat, totalBytes: nat, files: seq<ManifestEntry>)

  /** `sum(file.size_bytes for file in files)`. */
  function TotalBytes(files: seq<LogFile>): (n: nat)
    ensures files == [] ==> n == 0
    ensures forall i | 0 <= i < |files| :: files[i].sizeBytes <= n
    decreases |files|
  {
    if files == [] then 0
    else
      var rest := TotalBytes(files[1..]);
      assert forall i | 1 <= i < |files| :: files[i] == files[1..][i - 1];
      files[0].sizeBytes + rest
  }

  lemma {:induction false} TotalBytesAppend(a: seq<LogFile>, b: seq<LogFile>)
    ensures TotalBytes(a + b) == TotalBytes(a) + TotalBytes(b)
    decreases |a|
  {
    if a == [] {
      assert a + b == b;
    } else {
      assert (a + b)[1..] == a[1..] + b;
      TotalBytesAppend(a[1..], b);
    }
  }

  /** One file's total is its size; with TotalBytesAppend this fixes the total to the sum of the sizes. */
  lemma TotalBytesSingle(f: LogFile)
    ensures TotalBytes([f]) == f.sizeBytes
  {
    assert [f][1..] == [];
  }

  function EntryOf(file: LogFile): ManifestEntry {
    ManifestEntry(file.relativePath, file.sizeBytes, file.sha256, file.source)
  }

  /** `_build_manifest`, before JSON encoding; the clock reading is a parameter. */
  function BuildManifest(m: ExportMetadata, files: seq<LogFile>, generatedAt: string): (r: Manifest)
    ensures r.device == m.device && r.test == m.test && r.config == m.config && r.runId == m.runId
    ensures r.totalFiles == |r.files| == |files|
    ensures forall i | 0 <= i < |files| :: r.files[i] == EntryOf(files[i])
    ensures forall i | 0 <= i < |files| :: files[i].sizeBytes <= r.totalBytes
    ensures r.totalBytes == TotalBytes(files)
  {
    Manifest(m.device, m.test, m.config, m.runId, generatedAt, |files|, TotalBytes(files),
             seq(|files|, i requires 0 <= i < |files| => EntryOf(files[i])))
  }

  /** The totals of two batches of files add up. */
  lemma ManifestTotalsAdd(m: ExportMetadata, a: seq<LogFile>, b: seq<LogFile>, generatedAt: string)
    ensures BuildManifest(m, a + b, generatedAt).totalFiles ==
      BuildManifest(m, a, generatedAt).totalFiles + BuildManifest(m, b, generatedAt).totalFiles
    ensures BuildManifest(m, a + b, generatedAt).totalBytes ==
      BuildManifest(m, a, generatedAt).totalBytes + BuildManifest(m, b, generatedAt).totalBytes
    ensures BuildManifest(m, a + b, generatedAt).files ==
      BuildManifest(m, a, generatedAt).files + BuildManifest(m, b, generatedAt).files
  {
    TotalBytesAppend(a, b);
  }

  // ---------------------------------------------------------------------------
  // Export

  datatype ArchiveFormat = DirectoryExport | TarExport | ZipExport

  const UnsupportedFormat := "Unsupported archive format: "

  /** The format names `export_logs` accepts. */
  function FormatOf(name: string): (r: Result<ArchiveFormat, string>)
    ensures r.Success? <==> name == "dir" || name == "tar" || name == "zip"
    ensures r.Failure? ==> r.error == UnsupportedFormat + name
    ensures r == Success(DirectoryExport) <==> name == "dir"
  {
    if name == "dir" then Success(DirectoryExport)
    else if name == "tar" then Success(TarExport)
    else if name == "zip" then Success(ZipExport)
    else Failure(UnsupportedFormat + name)
  }

  /**
   * What an export writes: the directory or archive it produces, the name
   * each log gets in it, and where the manifest goes.
   */
  datatype ExportPlan = ExportPlan(format: ArchiveFormat, location: string, entries: seq<(string, string)>,
                                   manifestPath: string, manifest: Manifest)

  function EntryNames(plan: ExportPlan): (r: seq<string>)
    ensures |r| == |plan.entries| && forall i | 0 <= i < |r| :: r[i] == plan.entries[i].1
  {
    seq(|plan.entries|, i requires 0 <= i < |plan.entries| => plan.entries[i].1)
  }

  /** `export_logs`: a directory tree under `output/<metadata path>`, or an archive at `output` with that prefix. */
  function ExportLogs(m: ExportMetadata, files: seq<LogFile>, output: string, format: string, manifestName: string,
                      generatedAt: string): (r: Result<ExportPlan, string>)
    ensures r.Success? <==> FormatOf(format).Success?
    ensures r.Failure? ==> r.error == UnsupportedFormat + format
    ensures r.Success? ==> r.value.format == FormatOf(format).value
    ensures r.Success? ==>
      var base := if r.value.format == DirectoryExport then PathJoin(output, MetadataPath(m)) else MetadataPath(m);
      && r.value.location == (if r.value.format == DirectoryExport then base else output)
      && |r.value.entries| == |files|
      && (forall i | 0 <= i < |files| :: r.value.entries[i] == (files[i].source, PathJoin(base, files[i].relativePath)))
      && r.value.manifestPath == PathJoin(base, manifestName)
      && r.value.manifest == BuildManifest(m, files, generatedAt)
  {
    var manifest := BuildManifest(m, files, generatedAt);
    match FormatOf(format)
    case Failure(e) => Failure(e)
    case Success(kind) =>
      var prefix := MetadataPath(m);
      var base := if kind == DirectoryExport then PathJoin(output, prefix) else prefix;
      var location := if kind == DirectoryExport then base else output;
      var entries := seq(|files|, i requires 0 <= i < |files| => (files[i].source, PathJoin(base, files[i].relativePath)));
      Success(ExportPlan(kind, location, entries, PathJoin(base, manifestName), manifest))
  }

  lemma PrefixKeepsDistinct(base: string, paths: seq<string>)
    requires Distinct(paths)
    ensures Distinct(seq(|paths|, i requires 0 <= i < |paths| => PathJoin(base, paths[i])))
  {
    var joined := seq(|paths|, i requires 0 <= i < |paths| => PathJoin(base, paths[i]));
    forall i, j | 0 <= i < j < |paths|
      ensures joined[i] != joined[j]
    {
      var front := base + "/";
      assert joined[i] == front + paths[i] && joined[j] == front + paths[j];
      assert (front + paths[i])[|front|..] == paths[i];
      assert (front + paths[j])[|front|..] == paths[j];
    }
  }

  /** Collected logs never overwrite each other in an export. */
  lemma CollectedExportDistinct(m: ExportMetadata, staged: seq<StagedFile>, output: string, format: string,
                                manifestName: string, generatedAt: string)
    requires FormatOf(format).Success?
    ensures var plan := ExportLogs(m, CollectLogFiles(staged), output, format, manifestName, generatedAt);
      plan.Success? && Distinct(EntryNames(plan.value))
  {
    var files := CollectLogFiles(staged);
    var plan := ExportLogs(m, files, output, format, manifestName, generatedAt).value;
    var base := if plan.format == DirectoryExport then PathJoin(output, MetadataPath(m)) else MetadataPath(m);
    PrefixKeepsDistinct(base, RelativePaths(files));
    assert EntryNames(plan) == seq(|files|, i requires 0 <= i < |files| => PathJoin(base, RelativePaths(files)[i]));
  }
}
