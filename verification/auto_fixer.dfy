/**
 * `auto_fixer.py`: the configuration it reads from the environment, the
 * failure excerpt it sends along with the logs, the verdict it draws from
 * a commit's check runs, and the bookkeeping of its fix loop. GitHub,
 * the language model and git are outside the model: what they return is
 * a parameter.
 */
module AutoFixer {
  import opened Wrappers
  import opened Text
  import opened Sorting

  // ---------------------------------------------------------------------------
  // Configuration

  const GithubToken := "GITHUB_TOKEN"
  const RepoOwner := "REPO_OWNER"
  const RepoName := "REPO_NAME"
  const OpenAiKey := "OPENAI_API_KEY"
  const ModelVariable := "OPENAI_MODEL"
  const MaxIterationsVariable := "AUTO_FIX_MAX_ITERATIONS"
  const RunIdVariable := "FAILED_WORKFLOW_RUN_ID"
  const BranchVariable := "FAILED_WORKFLOW_BRANCH"
  const DefaultModel := "gpt-4.1-mini"
  const DefaultMaxIterations := "0"
  const MissingPrefix := "Missing required environment variables: "
  const ListSeparator := ", "

  /** The variables `from_env` requires, in the order it reports them. */
  const RequiredVariables: seq<string> := [GithubToken, RepoOwner, RepoName, OpenAiKey]

  type Env = map<string, string>

  /** `os.getenv(name)` is truthy: present and not empty. */
  predicate IsSet(env: Env, name: string) {
    name in env && env[name] != []
  }

  /** The required variables that are unset, in their listed order. */
  function MissingVariables(env: Env): (r: seq<string>)
    ensures forall n :: n in r <==> n in RequiredVariables && !IsSet(env, n)
  {
    Filter(RequiredVariables, (n: string) => !IsSet(env, n))
  }

  /** The report keeps the fixed order: token, owner, name, then the API key. */
  lemma MissingInListedOrder(env: Env)
    ensures MissingVariables(env) ==
      (if IsSet(env, GithubToken) then [] else [GithubToken])
      + (if IsSet(env, RepoOwner) then [] else [RepoOwner])
      + (if IsSet(env, RepoName) then [] else [RepoName])
      + (if IsSet(env, OpenAiKey) then [] else [OpenAiKey])
  {
    FilterFour(GithubToken, RepoOwner, RepoName, OpenAiKey, (n: string) => !IsSet(env, n));
  }

  lemma FilterFour<X>(a: X, b: X, c: X, d: X, p: X -> bool)
    ensures Filter([a, b, c, d], p) ==
      (if p(a) then [a] else []) + (if p(b) then [b] else []) + (if p(c) then [c] else []) + (if p(d) then [d] else [])
  {
    assert [a, b, c, d] == [a] + [b] + [c] + [d];
    FilterAppend([a] + [b] + [c], [d], p);
    FilterAppend([a] + [b], [c], p);
    FilterAppend([a], [b], p);
    FilterOne(a, p);
    FilterOne(b, p);
    FilterOne(c, p);
    FilterOne(d, p);
  }

  lemma FilterOne<X>(x: X, p: X -> bool)
    ensures Filter([x], p) == if p(x) then [x] else []
  {
    assert [x][1..] == [];
  }

  datatype RepoConfig = RepoConfig(
    owner: string,
    name: string,
    githubToken: string,
    openAiKey: string,
    model: string,
    maxIterations: int,
    initialRunId: Option<int>,
    initialBranch: Option<string>)

  /** Why `from_env` raises: required variables unset, or an integer variable that does not parse. */
  datatype ConfigError = Missing(names: seq<string>) | InvalidInteger(variable: string, text: string)

  /** The message of the missing-variables error. */
  function MissingMessage(names: seq<string>): string {
    MissingPrefix + Join(names, ListSeparator)
  }

  function Getenv(env: Env, name: string): Option<string> {
    if name in env then Some(env[name]) else None
  }

  /** `RepoConfig.from_env`. */
  function ConfigFromEnv(env: Env): (r: Result<RepoConfig, ConfigError>)
    ensures MissingVariables(env) != [] <==> r.Failure? && r.error.Missing?
    ensures MissingVariables(env) != [] ==> r == Failure(Missing(MissingVariables(env)))
    ensures r.Success? ==>
      && IsSet(env, GithubToken) && IsSet(env, RepoOwner) && IsSet(env, RepoName) && IsSet(env, OpenAiKey)
      && r.value.owner == env[RepoOwner] && r.value.name == env[RepoName]
      && r.value.githubToken == env[GithubToken] && r.value.openAiKey == env[OpenAiKey]
      && r.value.model == Getenv(env, ModelVariable).GetOr(DefaultModel)
      && r.value.initialBranch == Getenv(env, BranchVariable)
      && ParseInt(Getenv(env, MaxIterationsVariable).GetOr(DefaultMaxIterations)) == Some(r.value.maxIterations)
      && (r.value.initialRunId.None? <==> !IsSet(env, RunIdVariable))
      && (r.value.initialRunId.Some? ==> ParseInt(env[RunIdVariable]) == r.value.initialRunId)
    ensures r.Failure? && r.error.InvalidInteger? ==>
      r.error.variable == MaxIterationsVariable || (r.error.variable == RunIdVariable && IsSet(env, RunIdVariable))
    ensures r.Failure? && r.error.InvalidInteger? ==>
      ParseInt(r.error.text).None? && Getenv(env, r.error.variable).GetOr(DefaultMaxIterations) == r.error.text
    ensures (&& MissingVariables(env) == []
             && ParseInt(Getenv(env, MaxIterationsVariable).GetOr(DefaultMaxIterations)).Some?
             && (!IsSet(env, RunIdVariable) || ParseInt(env[RunIdVariable]).Some?))
      ==> r.Success?
  {
    var missing := MissingVariables(env);
    if missing != [] then Failure(Missing(missing))
    else
      assert GithubToken in RequiredVariables && RepoOwner in RequiredVariables;
      assert RepoName in RequiredVariables && OpenAiKey in RequiredVariables;
      var iterations := Getenv(env, MaxIterationsVariable).GetOr(DefaultMaxIterations);
      match ParseInt(iterations)
      case None => Failure(InvalidInteger(MaxIterationsVariable, iterations))
      case Some(maxIterations) =>
        var runId: Result<Option<int>, ConfigError> :=
          if !IsSet(env, RunIdVariable) then Success(None)
          else
            match ParseInt(env[RunIdVariable])
            case None => Failure(InvalidInteger(RunIdVariable, env[RunIdVariable]))
            case Some(id) => Success(Some(id));
        match runId
        case Failure(e) => Failure(e)
        case Success(initialRunId) =>
          Success(RepoConfig(env[RepoOwner], env[RepoName], env[GithubToken], env[OpenAiKey],
                             Getenv(env, ModelVariable).GetOr(DefaultModel), maxIterations,
                             initialRunId, Getenv(env, BranchVariable)))
  }

  /** With only the required variables set, every optional setting takes its default. */
  lemma DefaultsApply(env: Env)
    requires forall n | n in RequiredVariables :: IsSet(env, n)
    requires ModelVariable !in env && MaxIterationsVariable !in env
    requires RunIdVariable !in env && BranchVariable !in env
    ensures ConfigFromEnv(env).Success?
    ensures var c := ConfigFromEnv(env).value;
      c.model == DefaultModel && c.maxIterations == 0 && c.initialRunId == None && c.initialBranch == None
  {
    NoneMissing(env);
    assert ParseInt(DefaultMaxIterations) == Some(0);
  }

  /** An empty `AUTO_FIX_MAX_ITERATIONS` is not the default: `int("")` raises. */
  lemma EmptyIterationLimitRejected(env: Env)
    requires forall n | n in RequiredVariables :: IsSet(env, n)
    requires MaxIterationsVariable in env && env[MaxIterationsVariable] == []
    ensures ConfigFromEnv(env) == Failure(InvalidInteger(MaxIterationsVariable, []))
  {
    NoneMissing(env);
    assert ParseInt([]) == None;
  }

  lemma NoneMissing(env: Env)
    requires forall n | n in RequiredVariables :: IsSet(env, n)
    ensures MissingVariables(env) == []
  {
    assert GithubToken in RequiredVariables && RepoOwner in RequiredVariables;
    assert RepoName in RequiredVariables && OpenAiKey in RequiredVariables;
    MissingInListedOrder(env);
  }

  // ---------------------------------------------------------------------------
  // The failure excerpt

  const Keywords: seq<string> := ["error", "exception", "fail", "failure", "traceback"]
  const Lookback := 200
  const DefaultMaxChars := 800

  /** `max(xs)`. */
  function MaxOf(xs: seq<nat>): (m: nat)
    requires xs != []
    ensures m in xs && forall i | 0 <= i < |xs| :: xs[i] <= m
  {
    if |xs| == 1 then xs[0]
    else
      var rest := MaxOf(xs[1..]);
      assert forall i | 1 <= i < |xs| :: xs[i] == xs[1..][i - 1];
      if xs[0] >= rest then xs[0] else rest
  }

  /** One of `needles` starts at `j` in `s`. */
  predicate AnyAt(s: string, needles: seq<string>, j: int) {
    exists k | k in needles :: OccursAt(s, k, j)
  }

  /** `max(s.rfind(k) for k in needles if k in s)`: the last position where any needle starts. */
  function LastOfAny(s: string, needles: seq<string>): (r: Option<nat>)
    ensures r.None? <==> forall j :: !AnyAt(s, needles, j)
    ensures r.Some? ==> AnyAt(s, needles, r.value) && forall j | j > r.value :: !AnyAt(s, needles, j)
  {
    var positions := FilterMap(needles, (k: string) => LastIndexOf(s, k));
    if positions == [] then
      NoneOccurs(s, needles);
      None
    else
      var last := MaxOf(positions);
      LastOccurs(s, needles, last);
      NoneLater(s, needles, positions, last);
      Some(last)
  }

  lemma NoneOccurs(s: string, needles: seq<string>)
    requires FilterMap(needles, (k: string) => LastIndexOf(s, k)) == []
    ensures forall j :: !AnyAt(s, needles, j)
  {
    forall j, k | k in needles
      ensures !OccursAt(s, k, j)
    {
      var i :| 0 <= i < |needles| && needles[i] == k;
      assert LastIndexOf(s, needles[i]).None?;
    }
  }

  lemma LastOccurs(s: string, needles: seq<string>, last: nat)
    requires last in FilterMap(needles, (k: string) => LastIndexOf(s, k))
    ensures AnyAt(s, needles, last)
  {
    var positions := FilterMap(needles, (k: string) => LastIndexOf(s, k));
    var p :| 0 <= p < |positions| && positions[p] == last;
    var i :| 0 <= i < |needles| && LastIndexOf(s, needles[i]) == Some(last);
    assert OccursAt(s, needles[i], last);
  }

  lemma NoneLater(s: string, needles: seq<string>, positions: seq<nat>, last: nat)
    requires positions == FilterMap(needles, (k: string) => LastIndexOf(s, k))
    requires forall i | 0 <= i < |positions| :: positions[i] <= last
    ensures forall j | j > last :: !AnyAt(s, needles, j)
  {
    var f := (k: string) => LastIndexOf(s, k);
    forall j, k | j > last && k in needles
      ensures !OccursAt(s, k, j)
    {
      var t :| 0 <= t < |needles| && needles[t] == k;
      match f(k)
      case None =>
      case Some(p) =>
        assert p in FilterMap(needles, f);
    }
  }

  /** Some keyword starts at `j`. */
  predicate KeywordAt(lowered: string, j: int) {
    AnyAt(lowered, Keywords, j)
  }

  /** The excerpt's anchor: the last position where any keyword starts in the lowered log. */
  function Anchor(lowered: string): (r: Option<nat>)
    ensures r.None? <==> forall j :: !KeywordAt(lowered, j)
    ensures r.Some? ==> KeywordAt(lowered, r.value) && forall j | j > r.value :: !KeywordAt(lowered, j)
    ensures r.Some? ==> r.value < |lowered|
  {
    var r := LastOfAny(lowered, Keywords);
    if r.None? then r
    else
      assert KeywordAt(lowered, r.value);
      KeywordBeforeEnd(lowered, r.value);
      r
  }

  lemma KeywordBeforeEnd(lowered: string, j: int)
    requires KeywordAt(lowered, j)
    ensures j < |lowered|
  {
    var k :| k in Keywords && OccursAt(lowered, k, j);
    KeywordsNonEmpty(k);
  }

  lemma KeywordsNonEmpty(k: string)
    requires k in Keywords
    ensures |k| > 0
  {
  }

  /** `r` is a contiguous piece of `s`. */
  predicate Within(s: string, r: string) {
    exists i | 0 <= i <= |s| :: OccursAt(s, r, i)
  }

  /** `logs[max(0, anchor - 200):min(len(logs), anchor + max_chars)]`. */
  function AnchoredWindow(logs: string, anchor: nat, maxChars: int): (w: string)
    requires anchor < |logs|
    ensures Within(logs, w)
    ensures maxChars > 0 ==> |w| <= Lookback + maxChars
    ensures maxChars > 0 ==> OccursAt(logs, w, if anchor < Lookback then 0 else anchor - Lookback)
  {
    PySlice(logs, if anchor < Lookback then 0 else anchor - Lookback,
                  if |logs| < anchor + maxChars then |logs| else anchor + maxChars)
  }

  /** A stripped piece of `s` is still a piece of `s`, and no longer. */
  lemma StripWithin(s: string, w: string)
    requires Within(s, w)
    ensures Within(s, Strip(w)) && |Strip(w)| <= |w|
  {
    assert Strip(w) == StripIn(w, Spaces);
    WithinTransitive(s, w, Strip(w), LeadingIn(w, Spaces));
  }

  lemma WithinTransitive(s: string, w: string, u: string, j: int)
    requires Within(s, w) && OccursAt(w, u, j)
    ensures Within(s, u)
  {
    var i :| 0 <= i <= |s| && OccursAt(s, w, i);
    forall k | 0 <= k < |u| ensures s[i + j + k] == u[k] {
      assert w[j + k] == u[k];
      assert s[i + j + k] == w[j + k];
    }
    assert OccursAt(s, u, i + j);
  }

  /**
   * The slice `extract_failure_snippet` strips: from `Lookback` characters
   * before the anchor to `maxChars` after it, or without a keyword
   * `logs[-maxChars:]`, which for a limit of 0 is the whole log.
   */
  function SnippetWindow(logs: string, maxChars: int): (w: string)
    ensures Within(logs, w)
    ensures maxChars > 0 ==> |w| <= Lookback + maxChars
    ensures Anchor(Lower(logs)).Some? && maxChars >= 0 ==>
      var a := Anchor(Lower(logs)).value;
      w == AroundAnchor(logs, a, maxChars)
    ensures Anchor(Lower(logs)).None? && maxChars > 0 ==> w == LastChars(logs, maxChars)
    ensures Anchor(Lower(logs)).None? && maxChars == 0 ==> w == logs
    ensures Anchor(Lower(logs)).None? && maxChars < 0 ==> w == DropFirst(logs, -maxChars)
  {
    match Anchor(Lower(logs))
    case Some(anchor) =>
      AnchoredWindowSlice(logs, anchor, maxChars);
      AnchoredWindow(logs, anchor, maxChars)
    case None =>
      TailSlice(logs, maxChars);
      PySlice(logs, -maxChars, |logs|)
  }

  lemma AnchoredWindowSlice(logs: string, anchor: nat, maxChars: int)
    requires anchor < |logs|
    ensures maxChars >= 0 ==>
      AnchoredWindow(logs, anchor, maxChars)
        == AroundAnchor(logs, anchor, maxChars)
  {
  }

  /** `logs[-maxChars:]` for each sign of the limit. */
  lemma TailSlice(logs: string, maxChars: int)
    ensures Within(logs, PySlice(logs, -maxChars, |logs|))
    ensures maxChars > 0 ==> PySlice(logs, -maxChars, |logs|) == LastChars(logs, maxChars)
    ensures maxChars == 0 ==> PySlice(logs, -maxChars, |logs|) == logs
    ensures maxChars < 0 ==> PySlice(logs, -maxChars, |logs|) == DropFirst(logs, -maxChars)
  {
    var w := PySlice(logs, -maxChars, |logs|);
    assert OccursAt(logs, w, SliceBound(-maxChars, |logs|));
  }

  /** `extract_failure_snippet` as written: the window above, stripped. */
  function ExtractFailureSnippet(logs: string, maxChars: int): (r: string)
    ensures Within(logs, r)
    ensures maxChars > 0 ==> |r| <= Lookback + maxChars
    ensures Anchor(Lower(logs)).Some? && maxChars >= 0 ==>
      var a := Anchor(Lower(logs)).value;
      r == Strip(AroundAnchor(logs, a, maxChars))
    ensures Anchor(Lower(logs)).None? && maxChars > 0 ==> r == Strip(LastChars(logs, maxChars))
    ensures Anchor(Lower(logs)).None? && maxChars == 0 ==> r == Strip(logs)
    ensures Anchor(Lower(logs)).None? && maxChars < 0 ==>
      r == Strip(DropFirst(logs, -maxChars))
  {
    var window := SnippetWindow(logs, maxChars);
    StripWithin(logs, window);
    Strip(window)
  }

  /** With a keyword present and a positive limit, the window holds the anchor. */
  lemma AnchorInWindow(logs: string, maxChars: int)
    requires maxChars > 0 && Anchor(Lower(logs)).Some?
    ensures var anchor := Anchor(Lower(logs)).value;
      var start := if anchor < Lookback then 0 else anchor - Lookback;
      var w := AnchoredWindow(logs, anchor, maxChars);
      start <= anchor < start + |w| && OccursAt(logs, w, start)
  {
  }

  /** 201 characters with no keyword in them. */
  const KeywordFree: string := seq(201, _ => 'x')

  /** Without a keyword and with `maxChars == 0`, `logs[-0:]` is the whole log. */
  lemma ZeroLimitKeepsWholeLog(logs: string)
    requires Anchor(Lower(logs)).None?
    ensures ExtractFailureSnippet(logs, 0) == Strip(logs)
  {
    assert PySlice(logs, 0, |logs|) == logs;
  }

  /** So a 201-character log comes back whole under a limit of 0, past `Lookback + 0`. */
  lemma ZeroLimitBreaksBound()
    ensures |ExtractFailureSnippet(KeywordFree, 0)| > Lookback + 0
  {
    var lowered := Lower(KeywordFree);
    assert lowered == KeywordFree;
    forall j | 0 <= j < |lowered|
      ensures !KeywordAt(lowered, j)
    {
      forall k | k in Keywords
        ensures !OccursAt(lowered, k, j)
      {
        FirstCharMismatch(lowered, k, j);
      }
    }
    assert Anchor(lowered).None?;
    StripTrimmed(KeywordFree);
    ZeroLimitKeepsWholeLog(KeywordFree);
  }

  /** `logs[max(0, a - Lookback) : min(len(logs), a + maxChars)]` on in-range bounds. */
  function AroundAnchor(logs: string, a: nat, maxChars: nat): string
    requires a < |logs|
  {
    logs[if a < Lookback then 0 else a - Lookback .. if |logs| < a + maxChars then |logs| else a + maxChars]
  }

  /** `logs[n:]`: everything after the first `n` characters. */
  function DropFirst(logs: string, n: nat): string {
    logs[if |logs| < n then |logs| else n..]
  }

  /** The last `min(len(logs), n)` characters. */
  function LastChars(logs: string, n: nat): (r: string)
    ensures |r| == if |logs| < n then |logs| else n
    ensures OccursAt(logs, r, |logs| - |r|)
  {
    logs[|logs| - (if |logs| < n then |logs| else n)..]
  }

  /** The excerpt with the tail branch taking the last `maxChars` characters, none when the limit is 0. */
  function ExtractFailureSnippetBounded(logs: string, maxChars: nat): (r: string)
    ensures Within(logs, r)
    ensures |r| <= Lookback + maxChars
  {
    var window := match Anchor(Lower(logs))
      case Some(anchor) => AnchoredWindow(logs, anchor, maxChars)
      case None => LastChars(logs, maxChars);
    StripWithin(logs, window);
    Strip(window)
  }

  /** For a positive limit the bounded excerpt is the one written. */
  lemma BoundedAgreesForPositiveLimit(logs: string, maxChars: nat)
    requires maxChars > 0
    ensures ExtractFailureSnippetBounded(logs, maxChars) == ExtractFailureSnippet(logs, maxChars)
  {
    if Anchor(Lower(logs)).None? {
      assert PySlice(logs, -(maxChars as int), |logs|) == LastChars(logs, maxChars);
    }
  }

  // ---------------------------------------------------------------------------
  // Check runs

  const SuccessConclusion := "success"
  const FailureConclusion := "failure"
  const CancelledConclusion := "cancelled"
  const PendingConclusion := "pending"
  const TimeoutMessage := "Timed out waiting for checks to complete"

  /** `item["conclusion"] or "pending"`. */
  function ConclusionOf(c: Option<string>): (r: string)
    ensures r != []
    ensures c.Some? && c.value != [] ==> r == c.value
  {
    if c.Some? && c.value != [] then c.value else PendingConclusion
  }

  /** `list_check_runs`: one conclusion per check run. */
  function CheckConclusions(items: seq<Option<string>>): (r: seq<string>)
    ensures |r| == |items| && forall i | 0 <= i < |items| :: r[i] == ConclusionOf(items[i])
  {
    seq(|items|, i requires 0 <= i < |items| => ConclusionOf(items[i]))
  }

  datatype Verdict = Passed | Failed | Pending

  predicate Stopping(c: string) {
    c == FailureConclusion || c == CancelledConclusion
  }

  /** One poll of `poll_checks`: all passed, some failed or cancelled, or wait. */
  function ChecksVerdict(conclusions: seq<string>): (v: Verdict)
    ensures v == Passed <==> conclusions != [] && forall i | 0 <= i < |conclusions| :: conclusions[i] == SuccessConclusion
    ensures v == Failed <==> exists i | 0 <= i < |conclusions| :: Stopping(conclusions[i])
  {
    if conclusions != [] && forall i | 0 <= i < |conclusions| :: conclusions[i] == SuccessConclusion then Passed
    else if exists i | 0 <= i < |conclusions| :: Stopping(conclusions[i]) then Failed
    else Pending
  }

  /** The verdict depends only on which conclusions occur, not on their order or count. */
  lemma VerdictBySet(a: seq<string>, b: seq<string>)
    requires Elems(a) == Elems(b)
    ensures ChecksVerdict(a) == ChecksVerdict(b)
  {
    if ChecksVerdict(a) == Passed {
      PassedBySet(a, b);
    } else if ChecksVerdict(b) == Passed {
      PassedBySet(b, a);
    } else if ChecksVerdict(a) == Failed {
      FailedBySet(a, b);
    } else if ChecksVerdict(b) == Failed {
      FailedBySet(b, a);
    }
  }

  lemma PassedBySet(a: seq<string>, b: seq<string>)
    requires Elems(a) == Elems(b) && ChecksVerdict(a) == Passed
    ensures ChecksVerdict(b) == Passed
  {
    forall i | 0 <= i < |b| ensures b[i] == SuccessConclusion {
      assert b[i] in Elems(a);
    }
    assert a[0] in Elems(b);
  }

  lemma FailedBySet(a: seq<string>, b: seq<string>)
    requires Elems(a) == Elems(b) && ChecksVerdict(a) == Failed
    ensures ChecksVerdict(b) == Failed
  {
    var i :| 0 <= i < |a| && Stopping(a[i]);
    assert a[i] in Elems(b);
  }

  /** A check that has not concluded keeps the commit from passing. */
  lemma PendingNeverPasses(items: seq<Option<string>>, i: nat)
    requires i < |items| && (items[i].None? || items[i] == Some([]))
    ensures ChecksVerdict(CheckConclusions(items)) != Passed
  {
    assert CheckConclusions(items)[i] == PendingConclusion;
  }

  /**
   * `poll_checks` over the check-run lists of successive polls before the
   * deadline: the first decided poll answers; if none decides, it times out.
   */
  function PollChecks(polls: seq<seq<string>>): (r: Result<bool, string>)
    ensures r.Failure? <==> forall i | 0 <= i < |polls| :: ChecksVerdict(polls[i]) == Pending
    ensures r.Failure? ==> r.error == TimeoutMessage
    ensures r.Success? ==> exists i | 0 <= i < |polls| ::
      && (forall j | 0 <= j < i :: ChecksVerdict(polls[j]) == Pending)
      && ChecksVerdict(polls[i]) == (if r.value then Passed else Failed)
  {
    var verdicts := Verdicts(polls);
    match FirstDecided(verdicts)
    case None => Failure(TimeoutMessage)
    case Some(i) => Success(verdicts[i] == Passed)
  }

  /** The verdict of each poll. */
  function Verdicts(polls: seq<seq<string>>): (v: seq<Verdict>)
    ensures |v| == |polls| && forall i | 0 <= i < |polls| :: v[i] == ChecksVerdict(polls[i])
  {
    seq(|polls|, i requires 0 <= i < |polls| => ChecksVerdict(polls[i]))
  }

  /** The first verdict that is not `Pending`. */
  function FirstDecided(verdicts: seq<Verdict>): (r: Option<nat>)
    ensures r.None? <==> forall i | 0 <= i < |verdicts| :: verdicts[i] == Pending
    ensures r.Some? ==> r.value < |verdicts| && verdicts[r.value] != Pending
    ensures r.Some? ==> forall j | 0 <= j < r.value :: verdicts[j] == Pending
    decreases |verdicts|
  {
    if verdicts == [] then None
    else if verdicts[0] != Pending then Some(0)
    else
      match FirstDecided(verdicts[1..])
      case None => None
      case Some(i) => Some(i + 1)
  }

  /** Polls after the deciding one do not change the answer. */
  lemma PollDecidedEarly(polls: seq<seq<string>>, later: seq<seq<string>>)
    requires PollChecks(polls).Success?
    ensures PollChecks(polls + later) == PollChecks(polls)
  {
    var v, w := Verdicts(polls), Verdicts(later);
    assert Verdicts(polls + later) == v + w by {
      var all := polls + later;
      assert forall i | 0 <= i < |polls| :: all[i] == polls[i];
      assert forall i | |polls| <= i < |all| :: all[i] == later[i - |polls|];
    }
    FirstDecidedPrefix(v, w);
  }

  /** Verdicts after the first decided one do not move it. */
  lemma FirstDecidedPrefix(v: seq<Verdict>, w: seq<Verdict>)
    requires FirstDecided(v).Some?
    ensures FirstDecided(v + w) == FirstDecided(v)
  {
    var i := FirstDecided(v).value;
    var all := v + w;
    assert all[i] == v[i];
    assert forall j | 0 <= j < i :: all[j] == v[j];
    var k := FirstDecided(all);
    assert k.Some?;
    assert k.value == i;
  }

  // ---------------------------------------------------------------------------
  // The fix loop

  datatype WorkflowRun = WorkflowRun(id: int, conclusion: Option<string>, headBranch: string)

  /** The run lookup a pass makes: the configured run id, or the latest failed run on the hint branch. */
  datatype Request = RunById(id: int) | LatestFailed(branch: Option<string>)

  /**
   * What the outside world answers in one pass of the loop: the run the
   * lookup returns (`None`: none found, or the lookup by id raised), the
   * branch name the fix is pushed to, and the check-run lists of the polls.
   */
  datatype Pass = Pass(fetched: Option<WorkflowRun>, newBranch: string, polls: seq<seq<string>>)

  /** The pass fetched a run that concluded with a failure. */
  predicate FailedFetch(p: Pass) {
    p.fetched.Some? && Lower(p.fetched.value.conclusion.GetOr([])) == FailureConclusion
  }

  /** The ids of the failed runs the passes fetched. */
  function FailingRunIds(passes: seq<Pass>): set<int> {
    set p | p in passes && FailedFetch(p) :: p.fetched.value.id
  }

  datatype Stop =
    | NoFailingRun          // no failing run found
    | RequestFailed         // the lookup of the configured run raised
    | NotAFailure           // the run did not conclude with a failure
    | Resolved              // the fix's checks passed
    | ChecksTimedOut        // `poll_checks` raised
    | IterationsExhausted   // the loop ran out of iterations and raised
    | OutOfPasses           // the modelled passes end before the loop does

  /** A pass among `passes` that answers the way the stop reason says. */
  predicate StopWitnessed(stop: Stop, passes: seq<Pass>) {
    match stop
    case NoFailingRun => exists p | p in passes :: p.fetched.None?
    case RequestFailed => exists p | p in passes :: p.fetched.None?
    case NotAFailure => exists p | p in passes :: p.fetched.Some? && !FailedFetch(p)
    case Resolved => exists p | p in passes :: FailedFetch(p) && PollChecks(p.polls) == Success(true)
    case ChecksTimedOut => exists p | p in passes :: FailedFetch(p) && PollChecks(p.polls).Failure?
    case IterationsExhausted => true
    case OutOfPasses => true
  }

  /**
   * The loop's variables: runs handled so far (in order), the iteration
   * counter, the branch hint, the run id still to look up, and the lookups made.
   */
  datatype FixLoop = FixLoop(
    processed: set<int>,
    handled: seq<int>,
    iteration: nat,
    branchHint: Option<string>,
    nextRunId: Option<int>,
    requests: seq<Request>)

  /** How the run ids and lookups recorded so far fit together. */
  predicate WellFormed(state: FixLoop) {
    && Distinct(state.handled)
    && state.processed == Elems(state.handled)
    && (state.requests != [] ==> state.nextRunId.None?)
    && (forall i | 1 <= i < |state.requests| :: state.requests[i].LatestFailed?)
  }

  /** What holds at the top of every pass. */
  predicate LoopInvariant(maxIterations: int, state: FixLoop) {
    && WellFormed(state)
    && state.iteration == |state.handled| + 1
    && (maxIterations > 0 ==> |state.handled| <= maxIterations)
  }

  /** `after` extends `state`'s records and keeps within the iteration budget. */
  predicate Follows(maxIterations: int, state: FixLoop, after: FixLoop) {
    && WellFormed(after)
    && |state.handled| <= |after.handled| && after.handled[..|state.handled|] == state.handled
    && |state.requests| <= |after.requests| && after.requests[..|state.requests|] == state.requests
    && (maxIterations > 0 ==> |after.handled| <= maxIterations)
  }

  lemma FollowsTransitive(maxIterations: int, a: FixLoop, b: FixLoop, c: FixLoop)
    requires Follows(maxIterations, a, b) && Follows(maxIterations, b, c)
    ensures Follows(maxIterations, a, c)
  {
    assert c.handled[..|a.handled|] == c.handled[..|b.handled|][..|a.handled|];
    assert c.requests[..|a.requests|] == c.requests[..|b.requests|][..|a.requests|];
  }

  predicate KeepsGoing(maxIterations: int, iteration: int) {
    maxIterations <= 0 || iteration <= maxIterations
  }

  /** The lookup of this pass: the pending run id once, otherwise the latest failure on the hint branch. */
  function Lookup(state: FixLoop): Request {
    if state.nextRunId.Some? then RunById(state.nextRunId.value) else LatestFailed(state.branchHint)
  }

  /** The state once the lookup is made. */
  function Ask(state: FixLoop): (r: FixLoop)
    ensures r.requests == state.requests + [Lookup(state)]
  {
    state.(nextRunId := None, requests := state.requests + [Lookup(state)])
  }

  lemma AskFollows(maxIterations: int, state: FixLoop)
    requires LoopInvariant(maxIterations, state) && KeepsGoing(maxIterations, state.iteration)
    ensures Follows(maxIterations, state, Ask(state))
  {
    var r := Ask(state);
    assert r.requests[..|state.requests|] == state.requests;
  }

  /** The state once `run.id` is recorded as handled and the fix pushed to `branch`. */
  function Handle(state: FixLoop, id: int, branch: string): FixLoop {
    state.(processed := state.processed + {id}, handled := state.handled + [id], branchHint := Some(branch))
  }

  lemma HandleFollows(maxIterations: int, state: FixLoop, asked: FixLoop, id: int, branch: string)
    requires LoopInvariant(maxIterations, state) && KeepsGoing(maxIterations, state.iteration)
    requires Follows(maxIterations, state, asked) && asked.handled == state.handled
    requires id !in asked.processed
    ensures Follows(maxIterations, state, Handle(asked, id, branch))
    ensures LoopInvariant(maxIterations, Handle(asked, id, branch).(iteration := state.iteration + 1))
  {
    var h := Handle(asked, id, branch);
    assert h.handled[..|state.handled|] == state.handled;
    assert Distinct(h.handled) by {
      forall i, j | 0 <= i < j < |h.handled| ensures h.handled[i] != h.handled[j] {
        if j == |state.handled| {
          assert h.handled[i] in Elems(state.handled);
        }
      }
    }
  }

  /** The loop of `iterate_auto_fix` from `state` over the passes still to come. */
  function FixLoopFrom(maxIterations: int, state: FixLoop, passes: seq<Pass>): (r: (FixLoop, Stop))
    requires LoopInvariant(maxIterations, state)
    ensures Follows(maxIterations, state, r.0)
    ensures r.1 == IterationsExhausted ==> maxIterations > 0 && |r.0.handled| == maxIterations
    ensures |r.0.requests| > |state.requests| ==> r.0.requests[|state.requests|] == Lookup(state)
    ensures forall k | |state.handled| <= k < |r.0.handled| :: r.0.handled[k] in FailingRunIds(passes)
    ensures StopWitnessed(r.1, passes)
    decreases |passes|, 2
  {
    if !KeepsGoing(maxIterations, state.iteration) then (state, IterationsExhausted)
    else if passes == [] then
      FollowsItself(maxIterations, state);
      (state, OutOfPasses)
    else
      var asked := Ask(state);
      AskFollows(maxIterations, state);
      match passes[0].fetched
      case None => (asked, if Lookup(state).RunById? then RequestFailed else NoFailingRun)
      case Some(run) =>
        if Lower(run.conclusion.GetOr([])) != FailureConclusion then (asked, NotAFailure)
        else
          assert passes == [passes[0]] + passes[1..];
          FailedRun(maxIterations, state, run, passes[0], passes[1..])
  }

  lemma FollowsItself(maxIterations: int, state: FixLoop)
    requires LoopInvariant(maxIterations, state)
    ensures Follows(maxIterations, state, state)
  {
    assert state.handled[..|state.handled|] == state.handled;
    assert state.requests[..|state.requests|] == state.requests;
  }

  /**
   * One pass that found a failed run: a run already handled is skipped
   * without using up an iteration; a new one is handled, and the loop goes
   * on only when the fix's checks fail.
   */
  function FailedRun(maxIterations: int, state: FixLoop, run: WorkflowRun, pass: Pass, rest: seq<Pass>): (r: (FixLoop, Stop))
    requires LoopInvariant(maxIterations, state) && KeepsGoing(maxIterations, state.iteration)
    requires FailedFetch(pass) && pass.fetched.value == run
    ensures Follows(maxIterations, state, r.0)
    ensures r.1 == IterationsExhausted ==> maxIterations > 0 && |r.0.handled| == maxIterations
    ensures |r.0.requests| > |state.requests| ==> r.0.requests[|state.requests|] == Lookup(state)
    ensures forall k | |state.handled| <= k < |r.0.handled| :: r.0.handled[k] in FailingRunIds([pass] + rest)
    ensures StopWitnessed(r.1, [pass] + rest)
    decreases |rest| + 1, 1
  {
    AskFollows(maxIterations, state);
    var hinted := Ask(state).(branchHint := if run.headBranch != [] then Some(run.headBranch) else state.branchHint);
    if run.id in hinted.processed then
      var r := FixLoopFrom(maxIterations, hinted, rest);
      Continues(maxIterations, state, hinted, r.0);
      r
    else NewRun(maxIterations, state, hinted, run.id, pass, rest)
  }

  /** Handling a run not seen before: record it, push the fix, and wait for its checks. */
  function NewRun(maxIterations: int, state: FixLoop, hinted: FixLoop, id: int, pass: Pass, rest: seq<Pass>): (r: (FixLoop, Stop))
    requires LoopInvariant(maxIterations, state) && KeepsGoing(maxIterations, state.iteration)
    requires Follows(maxIterations, state, hinted) && hinted.handled == state.handled && id !in hinted.processed
    requires |hinted.requests| > |state.requests| && hinted.requests[|state.requests|] == Lookup(state)
    requires FailedFetch(pass) && pass.fetched.value.id == id
    ensures Follows(maxIterations, state, r.0)
    ensures r.1 == IterationsExhausted ==> maxIterations > 0 && |r.0.handled| == maxIterations
    ensures |r.0.requests| > |state.requests| ==> r.0.requests[|state.requests|] == Lookup(state)
    ensures forall k | |state.handled| <= k < |r.0.handled| :: r.0.handled[k] in FailingRunIds([pass] + rest)
    ensures StopWitnessed(r.1, [pass] + rest)
    decreases |rest| + 1, 0
  {
    var handled := Handle(hinted, id, pass.newBranch);
    HandleFollows(maxIterations, state, hinted, id, pass.newBranch);
    match PollChecks(pass.polls)
    case Failure(_) => (handled, ChecksTimedOut)
    case Success(true) => (handled, Resolved)
    case Success(false) =>
      var next := handled.(iteration := state.iteration + 1);
      var r := FixLoopFrom(maxIterations, next, rest);
      Continues(maxIterations, state, next, r.0);
      r
  }

  /** The loop going on from `mid` keeps what `state`'s pass recorded. */
  lemma Continues(maxIterations: int, state: FixLoop, mid: FixLoop, after: FixLoop)
    requires Follows(maxIterations, state, mid) && Follows(maxIterations, mid, after)
    requires |mid.requests| > |state.requests| && mid.requests[|state.requests|] == Lookup(state)
    ensures Follows(maxIterations, state, after)
    ensures after.requests[|state.requests|] == Lookup(state)
  {
    FollowsTransitive(maxIterations, state, mid, after);
    assert after.requests[..|mid.requests|][|state.requests|] == Lookup(state);
  }

  /** The loop's state before the first pass. */
  function InitialLoop(config: RepoConfig): (s: FixLoop)
    ensures LoopInvariant(config.maxIterations, s)
  {
    FixLoop({}, [], 1, config.initialBranch, config.initialRunId, [])
  }

  /**
   * `iterate_auto_fix`: each failing run is handled at most once, and only
   * runs that were fetched and concluded with a failure; a positive
   * `max_iterations` bounds the number of fix attempts; only the first
   * lookup uses the configured run id; and every stop reason other than
   * running out is backed by the pass that answered that way.
   */
  function IterateAutoFix(config: RepoConfig, passes: seq<Pass>): (r: (FixLoop, Stop))
    ensures Distinct(r.0.handled)
    ensures config.maxIterations > 0 ==> |r.0.handled| <= config.maxIterations
    ensures r.1 == IterationsExhausted ==> config.maxIterations > 0 && |r.0.handled| == config.maxIterations
    ensures r.0.requests != [] ==>
      r.0.requests[0] == (if config.initialRunId.Some? then RunById(config.initialRunId.value)
                          else LatestFailed(config.initialBranch))
    ensures forall i | 1 <= i < |r.0.requests| :: r.0.requests[i].LatestFailed?
    ensures forall i | 0 <= i < |r.0.handled| :: r.0.handled[i] in FailingRunIds(passes)
    ensures StopWitnessed(r.1, passes)
  {
    FixLoopFrom(config.maxIterations, InitialLoop(config), passes)
  }

  /** Every pass fetches a failed run not handled before, and its fix's checks fail. */
  predicate EveryFixFails(processed: set<int>, passes: seq<Pass>) {
    && (forall i | 0 <= i < |passes| ::
          FailedFetch(passes[i]) && passes[i].fetched.value.id !in processed && PollChecks(passes[i].polls) == Success(false))
    && (forall i, j | 0 <= i < j < |passes| :: passes[i].fetched.value.id != passes[j].fetched.value.id)
  }

  /**
   * When every fix fails, the loop runs out of iterations and raises once
   * it has had a pass for each iteration still left.
   */
  lemma {:induction false} ExhaustsFrom(maxIterations: int, state: FixLoop, passes: seq<Pass>)
    requires LoopInvariant(maxIterations, state) && maxIterations > 0
    requires |passes| >= maxIterations - |state.handled|
    requires EveryFixFails(state.processed, passes)
    ensures FixLoopFrom(maxIterations, state, passes).1 == IterationsExhausted
    decreases |passes|
  {
    if KeepsGoing(maxIterations, state.iteration) {
      var next := FailedFixStep(maxIterations, state, passes);
      EveryFixFailsTail(state.processed, next.processed, passes);
      ExhaustsFrom(maxIterations, next, passes[1..]);
    }
  }

  /** A pass whose new failed run gets a fix that fails leads to the next iteration. */
  lemma FailedFixStep(maxIterations: int, state: FixLoop, passes: seq<Pass>) returns (next: FixLoop)
    requires LoopInvariant(maxIterations, state) && KeepsGoing(maxIterations, state.iteration)
    requires passes != [] && FailedFetch(passes[0]) && passes[0].fetched.value.id !in state.processed
    requires PollChecks(passes[0].polls) == Success(false)
    ensures LoopInvariant(maxIterations, next) && |next.handled| == |state.handled| + 1
    ensures next.processed == state.processed + {passes[0].fetched.value.id}
    ensures FixLoopFrom(maxIterations, state, passes) == FixLoopFrom(maxIterations, next, passes[1..])
  {
    var pass, rest := passes[0], passes[1..];
    var run := pass.fetched.value;
    var hinted := Ask(state).(branchHint := if run.headBranch != [] then Some(run.headBranch) else state.branchHint);
    next := Handle(hinted, run.id, pass.newBranch).(iteration := state.iteration + 1);
    assert FixLoopFrom(maxIterations, state, passes) == FailedRun(maxIterations, state, run, pass, rest);
    assert FailedRun(maxIterations, state, run, pass, rest) == NewRun(maxIterations, state, hinted, run.id, pass, rest);
    HandleFollows(maxIterations, state, hinted, run.id, pass.newBranch);
  }

  /** After the first pass's run is handled, the remaining passes still bring new runs whose fixes fail. */
  lemma EveryFixFailsTail(processed: set<int>, next: set<int>, passes: seq<Pass>)
    requires EveryFixFails(processed, passes) && passes != []
    requires next == processed + {passes[0].fetched.value.id}
    ensures EveryFixFails(next, passes[1..])
  {
    var rest := passes[1..];
    forall i | 0 <= i < |rest|
      ensures rest[i].fetched.value.id !in next
    {
      assert rest[i] == passes[i + 1];
    }
    forall i, j | 0 <= i < j < |rest|
      ensures rest[i].fetched.value.id != rest[j].fetched.value.id
    {
      assert rest[i] == passes[i + 1] && rest[j] == passes[j + 1];
    }
  }

  /**
   * With a positive `max_iterations` and a new failing run whose fix fails
   * in each of that many passes, `iterate_auto_fix` raises.
   */
  lemma ExhaustsWhenEveryFixFails(config: RepoConfig, passes: seq<Pass>)
    requires config.maxIterations > 0 && |passes| >= config.maxIterations
    requires EveryFixFails({}, passes)
    ensures IterateAutoFix(config, passes).1 == IterationsExhausted
  {
    ExhaustsFrom(config.maxIterations, InitialLoop(config), passes);
  }
}
