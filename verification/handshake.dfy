/**
 * One instrumentation run as the screenshot script drives it: every output
 * line is observed and collected, and once the package, the ready flags and
 * the done flags are known the ready payload is read, the screenshot is
 * named and completion is signalled, exactly once. Device commands are
 * parameters: `read` answers `run-as <package> cat <flag>`.
 */
module Handshake {
  import opened Wrappers
  import opened Text
  import opened JsonValues
  import opened HarnessSession
  import opened CacheNames

  /** `run-as <package> cat <flag>`: its output, or `None` when the command fails. */
  type Reader = (string, string) -> Option<string>

  /** What one read of a flag yields once stripped; a failed read yields nothing. */
  function ReadFlag(read: Reader, package: string, flag: string): string {
    match read(package, flag)
    case Some(out) => Strip(out)
    case None => []
  }

  /** The position of the first flag whose read yields something. */
  function FirstReadable(read: Reader, package: string, flags: seq<string>): (r: Option<nat>)
    ensures r.Some? ==> r.value < |flags| && ReadFlag(read, package, flags[r.value]) != []
    ensures r.Some? ==> forall j | 0 <= j < r.value :: ReadFlag(read, package, flags[j]) == []
    ensures r.None? ==> forall j | 0 <= j < |flags| :: ReadFlag(read, package, flags[j]) == []
  {
    FirstIndex(flags, (flag: string) => ReadFlag(read, package, flag) != [])
  }

  /** The package, when the context has a usable one. */
  predicate HasPackage(c: Context) {
    c.package.Some? && c.package.value != []
  }

  /**
   * `read_ready_payload`: the first non-empty read over the ready flags in
   * order, skipping failed reads; nothing without a package or ready flags.
   */
  function ReadReadyPayload(c: Context, read: Reader): (r: Option<string>)
    ensures r.Some? ==>
      HasPackage(c) && r.value != [] && exists i | 0 <= i < |c.readyFlags| :: r.value == ReadFlag(read, c.package.value, c.readyFlags[i])
    ensures r.Some? ==>
      exists i | 0 <= i < |c.readyFlags| ::
        && r.value == ReadFlag(read, c.package.value, c.readyFlags[i])
        && forall j | 0 <= j < i :: ReadFlag(read, c.package.value, c.readyFlags[j]) == []
    ensures r.None? && HasPackage(c) ==>
      forall i | 0 <= i < |c.readyFlags| :: ReadFlag(read, c.package.value, c.readyFlags[i]) == []
  {
    if !HasPackage(c) || c.readyFlags == [] then None
    else
      match FirstReadable(read, c.package.value, c.readyFlags)
      case Some(i) => Some(ReadFlag(read, c.package.value, c.readyFlags[i]))
      case None => None
  }

  /** The payload is the read of the first ready flag whose read yields something. */
  lemma ReadReadyPayloadFirst(c: Context, read: Reader, i: nat)
    requires HasPackage(c) && i < |c.readyFlags|
    requires ReadFlag(read, c.package.value, c.readyFlags[i]) != []
    requires forall j | 0 <= j < i :: ReadFlag(read, c.package.value, c.readyFlags[j]) == []
    ensures ReadReadyPayload(c, read) == Some(ReadFlag(read, c.package.value, c.readyFlags[i]))
  {
    FirstReadableIs(read, c.package.value, c.readyFlags, i);
  }

  /** The first readable flag is the one before which every read yields nothing. */
  lemma FirstReadableIs(read: Reader, package: string, flags: seq<string>, i: nat)
    requires i < |flags| && ReadFlag(read, package, flags[i]) != []
    requires forall j | 0 <= j < i :: ReadFlag(read, package, flags[j]) == []
    ensures FirstReadable(read, package, flags) == Some(i)
  {
  }

  /** The condition under which a line makes the script try to capture. */
  predicate ReadyToCapture(c: Context) {
    !c.captureCompleted && HasPackage(c) && c.readyFlags != [] && c.doneFlags != []
  }

  /** A screenshot taken: the name it is stored under and the done flags then signalled. */
  datatype Capture = Capture(name: CaptureName, signalled: seq<string>)

  /**
   * The state of one run's output loop: the context, the screenshots taken,
   * and the exception that ended the loop early, if one did.
   */
  datatype Session = Session(ctx: Context, captures: seq<Capture>, raised: Option<string>)

  /** What the loop does with a line before the capture check. */
  function CollectLine(c: Context, line: string, env: Env): Context {
    CollectDoneFlags(CollectReadyFlag(CollectPackage(ObserveLine(c, line, env), line, env), line), line)
  }

  lemma CollectLineValid(c: Context, line: string, env: Env)
    requires Valid(c)
    ensures Valid(CollectLine(c, line, env))
  {
    ObserveLineValid(c, line, env);
    var c1 := ObserveLine(c, line, env);
    CollectPackageValid(c1, line, env);
    var c2 := CollectPackage(c1, line, env);
    CollectReadyFlagValid(c2, line);
    CollectDoneFlagsValid(CollectReadyFlag(c2, line), line);
  }

  /**
   * The capture step for a payload already read: the screenshot is named
   * from the payload, completion is signalled on the done flags, and the
   * context is marked as captured; a naming error is raised instead.
   */
  function CaptureWith(s: Session, payload: string, decode: string -> Option<Json>, render: Json -> string): (r: Session)
    ensures CaptureFileName(payload, decode, render).Failure? ==>
      r == s.(raised := Some(CaptureFileName(payload, decode, render).error))
    ensures CaptureFileName(payload, decode, render).Success? ==>
      && r.ctx == s.ctx.(captureCompleted := true) && r.raised == s.raised
      && r.captures == s.captures + [Capture(CaptureFileName(payload, decode, render).value, s.ctx.doneFlags)]
  {
    match CaptureFileName(payload, decode, render)
    case Failure(error) => s.(raised := Some(error))
    case Success(name) =>
      s.(ctx := s.ctx.(captureCompleted := true), captures := s.captures + [Capture(name, s.ctx.doneFlags)])
  }

  /**
   * The capture check of the output loop: only when the context is ready
   * to capture and a payload can be read does anything happen.
   */
  function TryCapture(s: Session, read: Reader, decode: string -> Option<Json>, render: Json -> string): (r: Session)
    ensures !ReadyToCapture(s.ctx) || ReadReadyPayload(s.ctx, read).None? ==> r == s
    ensures ReadyToCapture(s.ctx) && ReadReadyPayload(s.ctx, read).Some? ==>
      r == CaptureWith(s, ReadReadyPayload(s.ctx, read).value, decode, render)
  {
    if !ReadyToCapture(s.ctx) then s
    else
      match ReadReadyPayload(s.ctx, read)
      case None => s
      case Some(payload) => CaptureWith(s, payload, decode, render)
  }

  /** One line of output: ignored once an exception ended the loop. */
  function HandleLine(s: Session, line: string, env: Env, read: Reader, render: Json -> string): (r: Session)
    ensures s.raised.Some? ==> r == s
    ensures s.raised.None? ==> r == TryCapture(s.(ctx := CollectLine(s.ctx, line, env)), read, env.decode, render)
  {
    if s.raised.Some? then s
    else TryCapture(s.(ctx := CollectLine(s.ctx, line, env)), read, env.decode, render)
  }

  /** The output loop over the lines of a run, in order. */
  function RunLines(s: Session, lines: seq<string>, env: Env, read: Reader, render: Json -> string): Session
    decreases |lines|
  {
    if lines == [] then s
    else RunLines(HandleLine(s, lines[0], env, read, render), lines[1..], env, read, render)
  }

  /** Once an exception has ended the loop, the remaining lines change nothing. */
  lemma {:induction false} RunLinesAfterRaise(s: Session, lines: seq<string>, env: Env, read: Reader, render: Json -> string)
    requires s.raised.Some?
    ensures RunLines(s, lines, env, read, render) == s
    decreases |lines|
  {
    if lines != [] {
      RunLinesAfterRaise(HandleLine(s, lines[0], env, read, render), lines[1..], env, read, render);
    }
  }

  /** The loop only appends screenshots: those taken before stay, in order. */
  lemma {:induction false} RunLinesExtends(s: Session, lines: seq<string>, env: Env, read: Reader, render: Json -> string)
    ensures var r := RunLines(s, lines, env, read, render);
      |s.captures| <= |r.captures| && r.captures[..|s.captures|] == s.captures
    decreases |lines|
  {
    if lines != [] {
      var next := HandleLine(s, lines[0], env, read, render);
      HandleLineExtends(s, lines[0], env, read, render);
      RunLinesExtends(next, lines[1..], env, read, render);
      PrefixOfPrefix(RunLines(next, lines[1..], env, read, render).captures, next.captures, s.captures);
    }
  }

  lemma AppendKeepsPrefix<T>(s: seq<T>, x: T)
    ensures (s + [x])[..|s|] == s
  {
  }

  lemma PrefixOfPrefix<T>(a: seq<T>, b: seq<T>, c: seq<T>)
    requires |c| <= |b| <= |a| && a[..|b|] == b && b[..|c|] == c
    ensures a[..|c|] == c
  {
    assert a[..|c|] == a[..|b|][..|c|];
  }

  /** A line adds screenshots at the end, never changing those already taken. */
  lemma HandleLineExtends(s: Session, line: string, env: Env, read: Reader, render: Json -> string)
    ensures var r := HandleLine(s, line, env, read, render);
      |s.captures| <= |r.captures| && r.captures[..|s.captures|] == s.captures
  {
    if s.raised.None? {
      TryCaptureExtends(s.(ctx := CollectLine(s.ctx, line, env)), read, env.decode, render);
    }
  }

  lemma TryCaptureExtends(s: Session, read: Reader, decode: string -> Option<Json>, render: Json -> string)
    ensures var r := TryCapture(s, read, decode, render);
      |s.captures| <= |r.captures| && r.captures[..|s.captures|] == s.captures
  {
    if ReadyToCapture(s.ctx) && ReadReadyPayload(s.ctx, read).Some? {
      var payload := ReadReadyPayload(s.ctx, read).value;
      match CaptureFileName(payload, decode, render)
      case Failure(_) =>
      case Success(name) =>
        AppendKeepsPrefix(s.captures, Capture(name, s.ctx.doneFlags));
    }
  }

  /**
   * What holds throughout a run: the context invariant, and one screenshot
   * exactly when the context says the capture completed.
   */
  predicate SessionValid(s: Session) {
    Valid(s.ctx) && |s.captures| == (if s.ctx.captureCompleted then 1 else 0)
  }

  lemma CaptureWithValid(s: Session, payload: string, decode: string -> Option<Json>, render: Json -> string)
    requires SessionValid(s) && !s.ctx.captureCompleted
    ensures SessionValid(CaptureWith(s, payload, decode, render))
  {
    var r := CaptureWith(s, payload, decode, render);
    if r.ctx != s.ctx {
      assert Valid(r.ctx);
    }
  }

  lemma HandleLineValid(s: Session, line: string, env: Env, read: Reader, render: Json -> string)
    requires SessionValid(s)
    ensures SessionValid(HandleLine(s, line, env, read, render))
  {
    if s.raised.None? {
      CollectLineValid(s.ctx, line, env);
      var s1 := s.(ctx := CollectLine(s.ctx, line, env));
      if ReadyToCapture(s1.ctx) && ReadReadyPayload(s1.ctx, read).Some? {
        CaptureWithValid(s1, ReadReadyPayload(s1.ctx, read).value, env.decode, render);
      }
    }
  }

  /** Collecting a line never clears the capture mark. */
  lemma CollectLineKeepsCapture(c: Context, line: string, env: Env)
    ensures CollectLine(c, line, env).captureCompleted == c.captureCompleted
  {
    var c1 := ObserveLine(c, line, env);
    CollectPackageKeepsCapture(c1, line, env);
    var c2 := CollectPackage(c1, line, env);
    CollectFlagsKeepCapture(c2, line);
  }

  /** Collecting a line takes the done flags from a line that announces them. */
  lemma CollectLineDoneFlags(c: Context, line: string, env: Env)
    requires SearchGroup(line, DoneFlagMarker).Some?
    ensures CollectLine(c, line, env).doneFlags == DoneItems(SearchGroup(line, DoneFlagMarker).value)
  {
  }

  lemma CollectPackageKeepsCapture(c: Context, line: string, env: Env)
    ensures CollectPackage(c, line, env).captureCompleted == c.captureCompleted
  {
  }

  lemma CollectFlagsKeepCapture(c: Context, line: string)
    ensures CollectDoneFlags(CollectReadyFlag(c, line), line).captureCompleted == c.captureCompleted
  {
  }

  lemma {:induction false} RunLinesValid(s: Session, lines: seq<string>, env: Env, read: Reader, render: Json -> string)
    requires SessionValid(s)
    ensures SessionValid(RunLines(s, lines, env, read, render))
    decreases |lines|
  {
    if lines != [] {
      HandleLineValid(s, lines[0], env, read, render);
      RunLinesValid(HandleLine(s, lines[0], env, read, render), lines[1..], env, read, render);
    }
  }

  /** A run starting without a screenshot takes at most one, whatever its output. */
  lemma AtMostOneCapture(s: Session, lines: seq<string>, env: Env, read: Reader, render: Json -> string)
    requires Valid(s.ctx) && !s.ctx.captureCompleted && s.captures == []
    ensures |RunLines(s, lines, env, read, render).captures| <= 1
  {
    RunLinesValid(s, lines, env, read, render);
  }

  /** A line read while the context is ready but nothing can be read changes nothing beyond collection. */
  lemma EmptyPayloadNoCapture(s: Session, line: string, env: Env, read: Reader, render: Json -> string)
    requires s.raised.None?
    requires ReadReadyPayload(CollectLine(s.ctx, line, env), read).None?
    ensures HandleLine(s, line, env, read, render) == s.(ctx := CollectLine(s.ctx, line, env))
  {
  }

  // ---------------------------------------------------------------------------
  // One run

  /** How far the run got before streaming: each failure returns 1 at once. */
  datatype Setup = BadExtraArgs | NoComponent | InstallFailed | LaunchFailed | Launched

  /** How the instrumentation process ended once its output was read. */
  datatype Ending = WaitTimeout | Exited(code: Option<int>)

  /** The output of the process: nothing before the start timeout, or lines and an ending. */
  datatype Stream = StartTimeout | Streamed(lines: seq<string>, ending: Ending)

  /**
   * The result of `run_instrumentation_once`: its exit code, the final
   * context, the screenshots, and the reason native crash artifacts were
   * collected for; or the exception that escaped it.
   */
  datatype RunReport =
    | Finished(exitCode: int, ctx: Context, captures: seq<Capture>, crashReason: Option<string>)
    | Escaped(error: string)

  /** The guidance printed when a run fails. */
  function EmitGuidance(c: Context): Context {
    MaybeEmitPhaseGuidance(MaybeEmitSystemCrashGuidance(MaybeEmitMissingInstrumentationGuidance(c)))
  }

  /** After an instrumentation timeout the missing-instrumentation guidance is not printed. */
  function EmitTimeoutGuidance(c: Context): Context {
    MaybeEmitPhaseGuidance(MaybeEmitSystemCrashGuidance(c))
  }

  lemma EmitGuidanceValid(c: Context)
    requires Valid(c)
    ensures Valid(EmitGuidance(c)) && Valid(EmitTimeoutGuidance(c))
  {
    GuidanceValid(c);
    var c1 := MaybeEmitMissingInstrumentationGuidance(c);
    GuidanceValid(c1);
    MaybeEmitPhaseGuidanceValid(MaybeEmitSystemCrashGuidance(c1));
    MaybeEmitPhaseGuidanceValid(MaybeEmitSystemCrashGuidance(c));
  }

  /** The artifact reason after the process exited with `code`. */
  function ExitCrashReason(c: Context): Option<string> {
    if c.systemCrash then Some("system-server-crash")
    else if c.processCrash then Some("process-crash")
    else None
  }

  /** The exit code and the final steps once the output loop is done. */
  function Conclude(s: Session, ending: Ending): (r: RunReport)
    requires s.raised.None?
    ensures r.Finished?
    ensures r.exitCode == 0 <==> ending == Exited(Some(0)) && s.ctx.captureCompleted
    ensures ending.Exited? && ending.code.Some? && ending.code.value != 0 ==> r.exitCode == ending.code.value
    ensures ending.WaitTimeout? || ending.code.None? || ending.code == Some(0) ==> r.exitCode in {0, 1}
    ensures r.captures == s.captures
    ensures r.ctx.systemCrash == s.ctx.systemCrash && r.ctx.missingInstrumentation == s.ctx.missingInstrumentation
  {
    match ending
    case WaitTimeout =>
      var reason := if s.ctx.systemCrash then "system-server-crash" else "instrumentation-timeout";
      Finished(1, EmitTimeoutGuidance(s.ctx), s.captures, Some(reason))
    case Exited(None) => Finished(1, EmitGuidance(s.ctx), s.captures, Some("unexpected-termination"))
    case Exited(Some(code)) =>
      if code != 0 then Finished(code, EmitGuidance(s.ctx), s.captures, ExitCrashReason(s.ctx))
      else if !s.ctx.captureCompleted then Finished(1, EmitGuidance(s.ctx), s.captures, None)
      else Finished(0, s.ctx, s.captures, None)
  }

  /**
   * `run_instrumentation_once` from the context it prepared: a failed setup
   * returns 1, a silent harness times out, and otherwise the output loop
   * runs and the process's ending decides the exit code.
   */
  function RunOnce(setup: Setup, ctx0: Context, stream: Stream, env: Env, read: Reader, render: Json -> string): (r: RunReport)
    ensures setup != Launched ==> r == Finished(1, ctx0, [], None)
    ensures r.Finished? && r.exitCode == 0 ==>
      && setup == Launched && stream.Streamed? && stream.ending == Exited(Some(0)) && r.ctx.captureCompleted
  {
    if setup != Launched then Finished(1, ctx0, [], None)
    else
      match stream
      case StartTimeout =>
        var reason := if ctx0.systemCrash then "system-server-crash" else "startup-timeout";
        Finished(1, EmitGuidance(ctx0), [], Some(reason))
      case Streamed(lines, ending) =>
        var s := RunLines(Session(ctx0, [], None), lines, env, read, render);
        if s.raised.Some? then Escaped(s.raised.value) else Conclude(s, ending)
  }

  lemma ConcludeValid(s: Session, ending: Ending)
    requires SessionValid(s) && s.raised.None?
    ensures Valid(Conclude(s, ending).ctx) && |Conclude(s, ending).captures| <= 1
  {
    EmitGuidanceValid(s.ctx);
  }

  /** Every finished run keeps the invariant and has at most one screenshot. */
  lemma RunOnceValid(setup: Setup, ctx0: Context, stream: Stream, env: Env, read: Reader, render: Json -> string)
    requires Valid(ctx0) && !ctx0.captureCompleted
    ensures var r := RunOnce(setup, ctx0, stream, env, read, render);
      r.Finished? ==> Valid(r.ctx) && |r.captures| <= 1
  {
    EmitGuidanceValid(ctx0);
    if setup == Launched && stream.Streamed? {
      var s0 := Session(ctx0, [], None);
      RunLinesValid(s0, stream.lines, env, read, render);
      var s := RunLines(s0, stream.lines, env, read, render);
      if s.raised.None? {
        ConcludeValid(s, stream.ending);
      }
    }
  }
}
