/**
 * How the screenshot script picks the instrumentation component to run
 * from `pm list instrumentation` listings: an exact (or wildcard) match of
 * the requested `package/runner` first, then a component whose package and
 * runner parts match, and otherwise the first component listed.
 *
 * A `*` in the requested package or runner is meant as a wildcard, but
 * `_compile_wildcard_regex` builds a pattern in which `*` still matches only
 * itself; `WildcardMode` selects between the code as written (`AsWritten`)
 * and the evidently intended glob (`Expanded`).
 */
module InstrumentationResolver {
  import opened Wrappers
  import opened Text
  import opened PackageNames
  import opened DeviceListings

  datatype WildcardMode = AsWritten | Expanded

  /**
   * `_compile_wildcard_regex(pattern).match(s)` for a pattern holding a `*`:
   * as written the escaped `\*` is never rewritten, so only the pattern text
   * itself matches; as intended each `*` matches any run of characters.
   */
  predicate WildcardMatches(mode: WildcardMode, pattern: string, s: string) {
    match mode
    case AsWritten => s == pattern
    case Expanded => GlobMatch(pattern, s)
  }

  /** A package or runner that `_compile_wildcard_regex` turns into a pattern. */
  predicate IsWild(part: string) {
    Contains(part, "*")
  }

  /** What is asked for: the package and runner halves of the request, both trimmed. */
  datatype Request = Request(package: string, runner: string, mode: WildcardMode)

  /** `component.partition("/")[2]`: the text after the first `/`, or nothing. */
  function After(s: string, sep: string): (r: string)
    requires |sep| > 0
    ensures Contains(s, sep) ==> s == Before(s, sep) + sep + r
    ensures !Contains(s, sep) ==> r == []
  {
    match SplitFirst(s, sep)
    case Some((_, tail)) => tail
    case None => []
  }

  /** The first, exact pass: the whole `package/runner`, literally or as a pattern. */
  predicate ExactMatch(q: Request, component: string) {
    && q.package != [] && q.runner != []
    && (if !IsWild(q.package) && !IsWild(q.runner) then component == q.package + "/" + q.runner
        else WildcardMatches(q.mode, q.package + "/" + q.runner, component))
  }

  /** The second pass: the component's package part and runner part each match. */
  predicate PartsMatch(q: Request, component: string) {
    var package, runner := Before(component, "/"), After(component, "/");
    && q.package != []
    && (if IsWild(q.package) then WildcardMatches(q.mode, q.package, package) else package == q.package)
    && (q.runner == [] || (if IsWild(q.runner) then WildcardMatches(q.mode, q.runner, runner) else runner == q.runner))
  }

  /** The first element satisfying `p`, in order. */
  function FirstWhere(xs: seq<string>, p: string -> bool): (r: Option<string>)
    ensures r.Some? ==> exists i | 0 <= i < |xs| :: xs[i] == r.value && p(xs[i]) && forall j | 0 <= j < i :: !p(xs[j])
    ensures r.None? <==> forall i | 0 <= i < |xs| :: !p(xs[i])
    decreases |xs|
  {
    if xs == [] then None
    else if p(xs[0]) then Some(xs[0])
    else
      var r := FirstWhere(xs[1..], p);
      assert forall i | 1 <= i < |xs| :: xs[i] == xs[1..][i - 1];
      assert r.Some? ==> exists i | 0 <= i < |xs| :: xs[i] == r.value && p(xs[i]) && forall j | 0 <= j < i :: !p(xs[j]) by {
        if r.Some? {
          var k :| 0 <= k < |xs[1..]| && xs[1..][k] == r.value && p(xs[1..][k]) && forall j | 0 <= j < k :: !p(xs[1..][j]);
          assert xs[k + 1] == r.value && forall j | 0 <= j < k + 1 :: !p(xs[j]);
        }
      }
      r
  }

  /** What one listing settles by itself: an exact match, else a parts match. */
  function Preferred(q: Request, components: seq<string>): (r: Option<string>)
    ensures r.Some? ==> r.value in components && (ExactMatch(q, r.value) || PartsMatch(q, r.value))
    ensures (exists i | 0 <= i < |components| :: ExactMatch(q, components[i])) ==> r.Some? && ExactMatch(q, r.value)
    ensures r.None? <==> forall i | 0 <= i < |components| :: !ExactMatch(q, components[i]) && !PartsMatch(q, components[i])
  {
    var exact := FirstWhere(components, c => ExactMatch(q, c));
    if exact.Some? then exact else FirstWhere(components, c => PartsMatch(q, c))
  }

  /**
   * The loop over the listings of `_resolve_instrumentation_component_once`,
   * `fallback` being the first component of the first non-empty listing so far.
   */
  function ResolveFrom(q: Request, listings: seq<seq<string>>, fallback: Option<string>): (r: Option<string>)
    decreases |listings|
  {
    if listings == [] then fallback
    else
      var preferred := Preferred(q, listings[0]);
      if preferred.Some? then preferred
      else
        var next := if fallback.None? && listings[0] != [] then Some(listings[0][0]) else fallback;
        ResolveFrom(q, listings[1..], next)
  }

  /** The components of a listing; a failed `pm` call lists nothing. */
  function ComponentsOf(output: Option<seq<string>>): seq<string> {
    match output
    case Some(lines) => ExtractInstrumentationComponents(lines)
    case None => []
  }

  /**
   * `_resolve_instrumentation_component_once`: `outputs` are the lines of
   * `pm list instrumentation` for each query, in query order (`None` when
   * the call failed).
   */
  function ResolveOnce(q: Request, outputs: seq<Option<seq<string>>>): (r: Option<string>)
    ensures var listings := Listings(outputs);
      r == if FirstPreferred(q, listings).Some? then FirstPreferred(q, listings) else FirstListed(listings)
    ensures r.None? <==> forall i | 0 <= i < |outputs| :: ComponentsOf(outputs[i]) == []
  {
    var listings := Listings(outputs);
    ResolveFromTwoPhases(q, listings, None);
    ResolveFromNone(q, listings);
    ResolveFrom(q, listings, None)
  }

  /** The components of each listing, in query order. */
  function Listings(outputs: seq<Option<seq<string>>>): (r: seq<seq<string>>)
    ensures |r| == |outputs| && forall i | 0 <= i < |outputs| :: r[i] == ComponentsOf(outputs[i])
  {
    seq(|outputs|, i requires 0 <= i < |outputs| => ComponentsOf(outputs[i]))
  }

  // ---------------------------------------------------------------------------
  // The same choice stated in two phases

  /** The first listing's preferred component, over all listings. */
  function FirstPreferred(q: Request, listings: seq<seq<string>>): Option<string>
    decreases |listings|
  {
    if listings == [] then None
    else if Preferred(q, listings[0]).Some? then Preferred(q, listings[0])
    else FirstPreferred(q, listings[1..])
  }

  /** The first component of the first non-empty listing. */
  function FirstListed(listings: seq<seq<string>>): (r: Option<string>)
    ensures r.Some? ==> exists i | 0 <= i < |listings| :: listings[i] != [] && r.value == listings[i][0]
    ensures r.None? <==> forall i | 0 <= i < |listings| :: listings[i] == []
    decreases |listings|
  {
    if listings == [] then None
    else if listings[0] != [] then Some(listings[0][0])
    else
      assert forall i | 1 <= i < |listings| :: listings[i] == listings[1..][i - 1];
      FirstListed(listings[1..])
  }

  /**
   * A preferred match in any listing beats every fallback, even one from an
   * earlier listing; without one, the first component listed is used.
   */
  lemma {:induction false} ResolveFromTwoPhases(q: Request, listings: seq<seq<string>>, fallback: Option<string>)
    ensures ResolveFrom(q, listings, fallback) ==
      if FirstPreferred(q, listings).Some? then FirstPreferred(q, listings)
      else if fallback.Some? then fallback
      else FirstListed(listings)
    decreases |listings|
  {
    if listings != [] {
      var next := if fallback.None? && listings[0] != [] then Some(listings[0][0]) else fallback;
      ResolveFromTwoPhases(q, listings[1..], next);
    }
  }

  /** Nothing is resolved exactly when no listing names any component. */
  lemma ResolveFromNone(q: Request, listings: seq<seq<string>>)
    ensures ResolveFrom(q, listings, None).None? <==> forall i | 0 <= i < |listings| :: listings[i] == []
  {
    ResolveFromTwoPhases(q, listings, None);
    if FirstPreferred(q, listings).Some? {
      FirstPreferredListed(q, listings);
    }
  }

  /** A preferred component comes from a non-empty listing. */
  lemma {:induction false} FirstPreferredListed(q: Request, listings: seq<seq<string>>)
    requires FirstPreferred(q, listings).Some?
    ensures exists i | 0 <= i < |listings| :: FirstPreferred(q, listings).value in listings[i]
    decreases |listings|
  {
    if Preferred(q, listings[0]).None? {
      FirstPreferredListed(q, listings[1..]);
      var i :| 0 <= i < |listings[1..]| && FirstPreferred(q, listings[1..]).value in listings[1..][i];
      assert listings[1..][i] == listings[i + 1];
    }
  }

  // ---------------------------------------------------------------------------
  // `resolve_instrumentation_component`

  /** The request split at its first `/`, both halves trimmed. */
  function RequestOf(instrumentation: string, mode: WildcardMode): (q: Request)
    ensures !Contains(q.package, "/")
  {
    var requested := Strip(instrumentation);
    var package := Strip(Before(requested, "/"));
    var runner := Strip(After(requested, "/"));
    PieceNotContains(Before(requested, "/"), package, LeadingIn(Before(requested, "/"), Spaces), "/");
    Request(package, runner, mode)
  }

  /** The `pm list instrumentation` queries: the package (when there is one), then everything. */
  function Queries(q: Request): (r: seq<Option<string>>)
    ensures |r| >= 1 && r[|r| - 1] == None
    ensures q.package != [] <==> |r| == 2
    ensures q.package != [] ==> r[0] == Some(q.package)
  {
    (if q.package != [] then [Some(q.package)] else []) + [None]
  }

  /** Where a resolution ended: a component, and whether the debug APKs were installed on the way. */
  datatype Resolution = Resolution(component: Option<string>, autoInstalled: bool)

  /** The device's answer to each query, in query order. */
  function Answers(q: Request, answer: Option<string> -> Option<seq<string>>): seq<Option<seq<string>>> {
    var queries := Queries(q);
    seq(|queries|, i requires 0 <= i < |queries| => answer(queries[i]))
  }

  /**
   * `resolve_instrumentation_component` up to the normalisation of the found
   * component: `before` and `after` answer each query before and after the
   * debug APKs are installed.
   */
  function ResolveInstrumentationComponent(instrumentation: string, mode: WildcardMode, skipAutoInstall: bool,
                                           before: Option<string> -> Option<seq<string>>,
                                           after: Option<string> -> Option<seq<string>>): (r: Resolution)
    ensures r.autoInstalled ==> !skipAutoInstall
    ensures ResolveOnce(RequestOf(instrumentation, mode), Answers(RequestOf(instrumentation, mode), before)).Some? ==>
      r == Resolution(ResolveOnce(RequestOf(instrumentation, mode), Answers(RequestOf(instrumentation, mode), before)), false)
    ensures ResolveOnce(RequestOf(instrumentation, mode), Answers(RequestOf(instrumentation, mode), before)).None? ==>
      r.autoInstalled == !skipAutoInstall && (skipAutoInstall ==> r.component.None?)
    ensures !skipAutoInstall && ResolveOnce(RequestOf(instrumentation, mode), Answers(RequestOf(instrumentation, mode), before)).None?
      ==> r == Resolution(ResolveOnce(RequestOf(instrumentation, mode), Answers(RequestOf(instrumentation, mode), after)), true)
  {
    var q := RequestOf(instrumentation, mode);
    var first := ResolveOnce(q, Answers(q, before));
    if first.Some? then Resolution(first, false)
    else if skipAutoInstall then Resolution(None, false)
    else Resolution(ResolveOnce(q, Answers(q, after)), true)
  }

  // ---------------------------------------------------------------------------
  // The wildcard request

  /**
   * A wildcard package with a literal runner, over a listing holding first a
   * component of another runner and then one the pattern names: as written
   * the wildcard matches neither and the first component is used.
   */
  lemma WildcardAsWrittenFallsBack(pattern: string, runner: string, first: string, second: string)
    requires IsWild(pattern) && runner != [] && !IsWild(runner)
    requires first != pattern + "/" + runner && second != pattern + "/" + runner
    requires Before(first, "/") != pattern && Before(second, "/") != pattern
    ensures ResolveFrom(Request(pattern, runner, AsWritten), [[first, second]], None) == Some(first)
  {
    var q := Request(pattern, runner, AsWritten);
    var cs := [first, second];
    assert Preferred(q, cs).None? by {
      assert forall i | 0 <= i < |cs| :: !ExactMatch(q, cs[i]) && !PartsMatch(q, cs[i]);
    }
    assert ResolveFrom(q, [cs][1..], Some(first)) == Some(first);
  }

  /**
   * The same request with the wildcard expanded picks the component whose
   * package the pattern matches and whose runner is the one asked for.
   */
  lemma WildcardExpandedMatches(pattern: string, runner: string, first: string, second: string)
    requires IsWild(pattern) && runner != [] && !IsWild(runner)
    requires !GlobMatch(pattern + "/" + runner, first) && GlobMatch(pattern + "/" + runner, second)
    ensures ResolveFrom(Request(pattern, runner, Expanded), [[first, second]], None) == Some(second)
  {
    var q := Request(pattern, runner, Expanded);
    var cs := [first, second];
    assert ExactMatch(q, second) && !ExactMatch(q, first);
    assert FirstWhere(cs, c => ExactMatch(q, c)) == Some(second);
  }

  // The request `pkg.*/Runner2` over a listing of `pkg.a/Runner1` then `pkg.b/Runner2`.
  const WildPackage := "pkg.*"
  const WantedRunner := "Runner2"
  const OtherComponent := "pkg.a/Runner1"
  const WantedComponent := "pkg.b/Runner2"

  lemma ScenarioParts()
    ensures IsWild(WildPackage) && WantedRunner != [] && !IsWild(WantedRunner)
    ensures OtherComponent != WildPackage + "/" + WantedRunner && WantedComponent != WildPackage + "/" + WantedRunner
    ensures Before(OtherComponent, "/") != WildPackage && Before(WantedComponent, "/") != WildPackage
  {
    assert OccursAt(WildPackage, "*", 4);
    NoCharNotContains(WantedRunner, '*');
    assert OtherComponent[4] != WildPackage[4];
    assert WantedComponent[4] != WildPackage[4];
    var before1 := Before(OtherComponent, "/");
    var before2 := Before(WantedComponent, "/");
    assert |before1| < |WildPackage| || before1[4] == OtherComponent[4];
    assert |before2| < |WildPackage| || before2[4] == WantedComponent[4];
  }

  lemma ScenarioGlobMatches()
    ensures GlobMatch(WildPackage + "/" + WantedRunner, WantedComponent)
  {
    var tail := "/" + WantedRunner;
    assert WildPackage + "/" + WantedRunner == "pkg." + ("*" + tail);
    assert GlobMatch("*" + tail, "b" + tail) by {
      GlobLiteral(tail, tail);
      assert ("*" + tail)[1..] == tail;
      assert GlobMatch("*" + tail, tail);
      assert ("b" + tail)[1..] == tail;
    }
    assert WantedComponent == "pkg." + ("b" + tail);
    GlobLiteralPrefix("pkg.", "*" + tail, "b" + tail);
  }

  lemma ScenarioGlobRejects()
    ensures !GlobMatch(WildPackage + "/" + WantedRunner, OtherComponent)
  {
    var pattern := WildPackage + "/" + WantedRunner;
    var tail := "/" + WantedRunner;
    assert EndsWith(pattern, tail);
    assert !EndsWith(OtherComponent, tail) by {
      assert OtherComponent[|OtherComponent| - 1] != tail[|tail| - 1];
    }
    if GlobMatch(pattern, OtherComponent) {
      GlobMatchEndsWithTail(pattern, OtherComponent, tail);
    }
  }

  /** As written the request falls back to the first component listed. */
  lemma WildcardScenarioAsWritten()
    ensures ResolveFrom(Request(WildPackage, WantedRunner, AsWritten), [[OtherComponent, WantedComponent]], None) == Some(OtherComponent)
  {
    ScenarioParts();
    WildcardAsWrittenFallsBack(WildPackage, WantedRunner, OtherComponent, WantedComponent);
  }

  /** Expanded, the request picks the component it names. */
  lemma WildcardScenarioExpanded()
    ensures ResolveFrom(Request(WildPackage, WantedRunner, Expanded), [[OtherComponent, WantedComponent]], None) == Some(WantedComponent)
  {
    ScenarioParts();
    ScenarioGlobMatches();
    ScenarioGlobRejects();
    WildcardExpandedMatches(WildPackage, WantedRunner, OtherComponent, WantedComponent);
  }
}
