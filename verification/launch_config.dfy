/**
 * How the screenshot script prepares an instrumentation launch: the
 * `--extra-arg KEY=VALUE` items, the fallback and test package names, the
 * boolean environment switches and the `KEY=VALUE` harness environment
 * file. The process environment is passed in as a map.
 */
module LaunchConfig {
  import opened Wrappers
  import opened Text
  import opened PackageNames

  /** An instrumentation extra, `-e <key> <value>`. */
  type Extra = (string, string)

  /** An item as `parse_extra_args` reads it. */
  function FormatExtra(e: Extra): string {
    e.0 + "=" + e.1
  }

  /**
   * `parse_extra_args`: each item is cut at its first `=`; the first item
   * without one is the error.
   */
  function ParseExtraArgs(items: seq<string>): (r: Result<seq<Extra>, string>)
    ensures r.Success? ==> |r.value| == |items|
    ensures r.Success? ==>
      forall i | 0 <= i < |items| :: items[i] == FormatExtra(r.value[i]) && !Contains(r.value[i].0, "=")
    ensures r.Success? <==> forall i | 0 <= i < |items| :: Contains(items[i], "=")
    ensures r.Failure? ==> exists i | 0 <= i < |items| :: items[i] == r.error && !Contains(items[i], "=")
    decreases |items|
  {
    if items == [] then Success([])
    else
      match SplitFirst(items[0], "=")
      case None => Failure(items[0])
      case Some((key, value)) =>
        match ParseExtraArgs(items[1..])
        case Failure(e) => Failure(e)
        case Success(rest) =>
          assert forall i | 1 <= i < |items| :: items[i] == items[1..][i - 1];
          Success([(key, value)] + rest)
  }

  /** Items written from extras whose keys hold no `=` parse back to those extras. */
  lemma {:induction false} ParseFormattedExtras(extras: seq<Extra>)
    requires forall i | 0 <= i < |extras| :: !Contains(extras[i].0, "=")
    ensures ParseExtraArgs(seq(|extras|, i requires 0 <= i < |extras| => FormatExtra(extras[i]))) == Success(extras)
    decreases |extras|
  {
    var items := seq(|extras|, i requires 0 <= i < |extras| => FormatExtra(extras[i]));
    if extras != [] {
      SplitFirstOf(extras[0].0, extras[0].1, "=");
      assert items[0] == extras[0].0 + "=" + extras[0].1;
      assert SplitFirst(items[0], "=") == Some((extras[0].0, extras[0].1));
      assert items[1..] == seq(|extras[1..]|, i requires 0 <= i < |extras[1..]| => FormatExtra(extras[1..][i]));
      ParseFormattedExtras(extras[1..]);
      assert ParseExtraArgs(items[1..]) == Success(extras[1..]);
      assert [(extras[0].0, extras[0].1)] + extras[1..] == extras;
    }
  }

  /** `value.strip()` of an optional value, when that is non-empty. */
  function Usable(value: Option<string>): (r: Option<string>)
    ensures r.Some? ==> r.value != [] && Strip(r.value) == r.value
    ensures r.Some? <==> value.Some? && Strip(value.value) != []
  {
    match value
    case Some(v) =>
      StripIdempotent(v);
      if Strip(v) != [] then Some(Strip(v)) else None
    case None => None
  }

  function Lookup(m: map<string, string>, key: string): Option<string> {
    if key in m then Some(m[key]) else None
  }

  /** The package part of a component, trimmed, when non-empty. */
  function PackagePart(component: string): (r: Option<string>)
    ensures r.Some? ==> r.value != [] && Strip(r.value) == r.value
  {
    Usable(Some(Before(component, "/")))
  }

  /**
   * `derive_fallback_package`: the first usable of the `testPackageName`
   * extra, the package part of the `targetInstrumentation` extra, the
   * `novapdfTestAppId` extra, and the package part of the component (or of
   * the requested instrumentation when there is no component).
   */
  function DeriveFallbackPackage(extras: seq<Extra>, component: Option<string>, instrumentation: string): (r: Option<string>)
    ensures r.Some? ==> r.value != [] && Strip(r.value) == r.value
    ensures Usable(Lookup(LastWins(extras), "testPackageName")).Some? ==>
      r == Usable(Lookup(LastWins(extras), "testPackageName"))
    ensures Usable(Lookup(LastWins(extras), "testPackageName")).None? && TargetPackage(LastWins(extras)).Some? ==>
      r == TargetPackage(LastWins(extras))
    ensures Usable(Lookup(LastWins(extras), "testPackageName")).None? && TargetPackage(LastWins(extras)).None? &&
            Usable(Lookup(LastWins(extras), "novapdfTestAppId")).Some? ==>
      r == Usable(Lookup(LastWins(extras), "novapdfTestAppId"))
    ensures Usable(Lookup(LastWins(extras), "testPackageName")).None? && TargetPackage(LastWins(extras)).None? &&
            Usable(Lookup(LastWins(extras), "novapdfTestAppId")).None? ==>
      r == PackagePart(ComponentSource(component, instrumentation))
    ensures r.None? ==>
      && Usable(Lookup(LastWins(extras), "testPackageName")).None?
      && Usable(Lookup(LastWins(extras), "novapdfTestAppId")).None?
  {
    var m := LastWins(extras);
    var explicit := Usable(Lookup(m, "testPackageName"));
    var target := TargetPackage(m);
    var placeholder := Usable(Lookup(m, "novapdfTestAppId"));
    if explicit.Some? then explicit
    else if target.Some? then target
    else if placeholder.Some? then placeholder
    else PackagePart(ComponentSource(component, instrumentation))
  }

  /** The package part of the `targetInstrumentation` extra, when that is set and non-empty. */
  function TargetPackage(m: map<string, string>): (r: Option<string>)
    ensures r.Some? ==> "targetInstrumentation" in m && m["targetInstrumentation"] != []
  {
    match Lookup(m, "targetInstrumentation")
    case Some(t) => if t != [] then PackagePart(t) else None
    case None => None
  }

  /** `instrumentation_component or args.instrumentation`. */
  function ComponentSource(component: Option<string>, instrumentation: string): (r: string)
    ensures component.Some? && component.value != [] ==> r == component.value
    ensures component.None? || component.value == [] ==> r == instrumentation
  {
    if component.Some? && component.value != [] then component.value else instrumentation
  }

  /** Some extra already names a non-blank test package. */
  predicate HasTestPackage(extras: seq<Extra>) {
    exists i | 0 <= i < |extras| :: extras[i].0 == "testPackageName" && Strip(extras[i].1) != []
  }

  /**
   * `ensure_test_package_argument`: unless an extra already names a test
   * package, one is added, taken from `--test-package`, then
   * `NOVAPDF_SCREENSHOT_TEST_PACKAGE`, then the fallback derivation, and
   * normalized; nothing is added when no candidate exists.
   */
  function EnsureTestPackageArgument(extras: seq<Extra>, testPackage: Option<string>, environ: map<string, string>,
                                     component: Option<string>, instrumentation: string, pm: Option<string>): (r: seq<Extra>)
    ensures HasTestPackage(extras) ==> r == extras
    ensures r == extras || exists v :: v != [] && Strip(v) == v && r == extras + [("testPackageName", v)]
    ensures !HasTestPackage(extras) && DeriveFallbackPackage(extras, component, instrumentation).Some? ==> r != extras
    ensures !HasTestPackage(extras) && ExplicitPackage(testPackage, environ).Some? ==>
      r == extras + [("testPackageName", Normalized(ExplicitPackage(testPackage, environ).value, pm))]
    ensures !HasTestPackage(extras) && ExplicitPackage(testPackage, environ).None? &&
            DeriveFallbackPackage(extras, component, instrumentation).Some? ==>
      r == extras + [("testPackageName", Normalized(DeriveFallbackPackage(extras, component, instrumentation).value, pm))]
    ensures !HasTestPackage(extras) && ExplicitPackage(testPackage, environ).None? &&
            DeriveFallbackPackage(extras, component, instrumentation).None? ==>
      r == extras
  {
    if HasTestPackage(extras) then extras
    else
      var candidate := ExplicitPackage(testPackage, environ);
      var chosen := if candidate.Some? then candidate else DeriveFallbackPackage(extras, component, instrumentation);
      match chosen
      case None => extras
      case Some(c) => extras + [("testPackageName", Normalized(c, pm))]
  }

  /**
   * The explicitly requested package: `--test-package` when non-empty, else
   * the `NOVAPDF_SCREENSHOT_TEST_PACKAGE` variable; trimmed, when that
   * leaves something.
   */
  function ExplicitPackage(testPackage: Option<string>, environ: map<string, string>): (r: Option<string>)
    ensures r.Some? ==> r.value != [] && Strip(r.value) == r.value
    ensures testPackage.Some? && testPackage.value != [] ==> r == Usable(testPackage)
    ensures testPackage.None? || testPackage.value == [] ==> r == Usable(Lookup(environ, "NOVAPDF_SCREENSHOT_TEST_PACKAGE"))
  {
    var explicit := if testPackage.Some? && testPackage.value != [] then testPackage
      else Lookup(environ, "NOVAPDF_SCREENSHOT_TEST_PACKAGE");
    Usable(explicit)
  }

  /** The candidate after `normalize_package_name`, or the candidate itself when that finds nothing. */
  function Normalized(c: string, pm: Option<string>): (v: string)
    requires c != [] && Strip(c) == c
    ensures v != [] && Strip(v) == v
    ensures NormalizePackageName(c, pm).Some? ==> v == NormalizePackageName(c, pm).value
    ensures NormalizePackageName(c, pm).None? ==> v == c
  {
    NormalizeTrimmed(c, pm);
    var normalized := NormalizePackageName(c, pm);
    if normalized.Some? then normalized.value else c
  }

  /** A second call adds nothing: the first already supplied the test package. */
  lemma EnsureTestPackageIdempotent(extras: seq<Extra>, testPackage: Option<string>, environ: map<string, string>,
                                    component: Option<string>, instrumentation: string, pm: Option<string>)
    ensures var once := EnsureTestPackageArgument(extras, testPackage, environ, component, instrumentation, pm);
      once != extras ==>
        EnsureTestPackageArgument(once, testPackage, environ, component, instrumentation, pm) == once
  {
    var once := EnsureTestPackageArgument(extras, testPackage, environ, component, instrumentation, pm);
    if once != extras {
      var v := once[|extras|].1;
      assert once == extras + [("testPackageName", v)];
      assert HasTestPackage(once) by {
        assert once[|extras|].0 == "testPackageName";
      }
    }
  }

  // ---------------------------------------------------------------------------
  // Environment switches

  const TrueWords: set<string> := {"1", "true", "t", "yes", "y", "on"}
  const FalseWords: set<string> := {"0", "false", "f", "no", "n", "off"}

  /** `_parse_optional_bool` of the screenshot script: trimmed and lower-cased. */
  function ParseOptionalBool(value: Option<string>): (r: Option<bool>)
    ensures r == Some(true) <==> value.Some? && Lower(Strip(value.value)) in TrueWords
    ensures r == Some(false) <==> value.Some? && Lower(Strip(value.value)) in FalseWords
    ensures value.None? || Strip(value.value) == [] ==> r.None?
  {
    match value
    case None => None
    case Some(v) =>
      var normalized := Lower(Strip(v));
      if normalized == [] then None
      else if normalized in TrueWords then Some(true)
      else if normalized in FalseWords then Some(false)
      else None
  }

  /** Surrounding whitespace does not change the reading. */
  lemma ParseOptionalBoolPadded(pre: string, s: string, post: string)
    requires forall i | 0 <= i < |pre| :: IsSpace(pre[i])
    requires forall i | 0 <= i < |post| :: IsSpace(post[i])
    requires s != [] && !IsSpace(s[0]) && !IsSpace(s[|s| - 1])
    ensures ParseOptionalBool(Some(pre + s + post)) == ParseOptionalBool(Some(s))
  {
    StripPadded(pre, s, post);
    StripTrimmed(s);
  }

  /**
   * `_virtualization_unavailable`: a connected device demanded by
   * `NOVAPDF_REQUIRE_CONNECTED_DEVICE` overrides everything; otherwise
   * disabled nested virtualization or a `software`/`none` acceleration
   * preference means unavailable.
   */
  function VirtualizationUnavailable(environ: map<string, string>): (r: bool)
    ensures ParseOptionalBool(Lookup(environ, "NOVAPDF_REQUIRE_CONNECTED_DEVICE")) == Some(true) ==> !r
    ensures r <==>
      && ParseOptionalBool(Lookup(environ, "NOVAPDF_REQUIRE_CONNECTED_DEVICE")) != Some(true)
      && (|| ParseOptionalBool(Lookup(environ, "ACTIONS_RUNNER_DISABLE_NESTED_VIRTUALIZATION")) == Some(true)
          || Lower(Strip(GetOr(environ, "ACTIONS_RUNNER_ACCELERATION_PREFERENCE"))) in {"software", "none"})
  {
    if ParseOptionalBool(Lookup(environ, "NOVAPDF_REQUIRE_CONNECTED_DEVICE")) == Some(true) then false
    else if ParseOptionalBool(Lookup(environ, "ACTIONS_RUNNER_DISABLE_NESTED_VIRTUALIZATION")) == Some(true) then true
    else
      var preference := Strip(GetOr(environ, "ACTIONS_RUNNER_ACCELERATION_PREFERENCE"));
      Lower(preference) in {"software", "none"}
  }

  /** `environ.get(key, "")`. */
  function GetOr(environ: map<string, string>, key: string): string {
    if key in environ then environ[key] else ""
  }

  // ---------------------------------------------------------------------------
  // The harness environment file

  /**
   * The entry a line of the environment file sets: blank lines, `#`
   * comments, lines without `=` and lines with a blank key set nothing.
   */
  function EntryOf(line: string): (r: Option<(string, string)>)
    ensures r.Some? ==> r.value.0 != [] && Strip(r.value.0) == r.value.0
  {
    var stripped := Strip(line);
    if stripped == [] || StartsWith(stripped, "#") then None
    else
      match SplitFirst(stripped, "=")
      case None => None
      case Some((key, value)) =>
        StripIdempotent(key);
        if Strip(key) == [] then None else Some((Strip(key), Strip(value)))
  }

  /** The value the first line setting `key` gives it. */
  function FirstEntry(lines: seq<string>, key: string): Option<string>
    decreases |lines|
  {
    if lines == [] then None
    else match EntryOf(lines[0])
      case Some((k, v)) => if k == key then Some(v) else FirstEntry(lines[1..], key)
      case None => FirstEntry(lines[1..], key)
  }

  /** `os.environ.setdefault(key, value)` for one entry. */
  function SetDefault(environ: map<string, string>, entry: Option<(string, string)>): (r: map<string, string>)
    ensures forall k | k in environ :: k in r && r[k] == environ[k]
    ensures forall k | k !in environ :: k in r <==> entry.Some? && entry.value.0 == k
    ensures forall k | k !in environ && k in r :: r[k] == entry.value.1
  {
    match entry
    case Some((k, v)) => if k in environ then environ else environ[k := v]
    case None => environ
  }

  /** `os.environ.setdefault(key, value)` for each entry of the file, in order. */
  function LoadEnvironment(environ: map<string, string>, lines: seq<string>): (r: map<string, string>)
    ensures environ.Keys <= r.Keys
    decreases |lines|
  {
    if lines == [] then environ
    else LoadEnvironment(SetDefault(environ, EntryOf(lines[0])), lines[1..])
  }

  /** Loading never overrides a variable that is already set. */
  lemma {:induction false} LoadEnvironmentKeeps(environ: map<string, string>, lines: seq<string>, k: string)
    requires k in environ
    ensures k in LoadEnvironment(environ, lines) && LoadEnvironment(environ, lines)[k] == environ[k]
    decreases |lines|
  {
    if lines != [] {
      LoadEnvironmentKeeps(SetDefault(environ, EntryOf(lines[0])), lines[1..], k);
    }
  }

  /** A variable not yet set is set exactly when some line names it, to the first such line's value. */
  lemma {:induction false} LoadEnvironmentFirstEntry(environ: map<string, string>, lines: seq<string>, k: string)
    requires k !in environ
    ensures k in LoadEnvironment(environ, lines) <==> FirstEntry(lines, k).Some?
    ensures k in LoadEnvironment(environ, lines) ==> LoadEnvironment(environ, lines)[k] == FirstEntry(lines, k).value
    decreases |lines|
  {
    if lines != [] {
      var next := SetDefault(environ, EntryOf(lines[0]));
      if k in next {
        LoadEnvironmentKeeps(next, lines[1..], k);
      } else {
        LoadEnvironmentFirstEntry(next, lines[1..], k);
      }
    }
  }

  /** Lines of the file as `splitlines()` gives them. */
  function LoadEnvironmentText(environ: map<string, string>, text: string): map<string, string> {
    LoadEnvironment(environ, Lines(text))
  }
}
