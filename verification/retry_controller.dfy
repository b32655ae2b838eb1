/**
 * The retry loop of the screenshot script's `main`: run the instrumentation,
 * and after a failure re-run it at most once after auto-installing the
 * debug APKs (when the instrumentation was missing) and at most once after
 * the system server crashed and the activity manager came back.
 * Each run's outcome and the two device actions are parameters.
 */
module RetryController {

  /** What `main` looks at after a run: its exit code and two of its context's flags. */
  datatype RunOutcome = RunOutcome(exitCode: int, missingInstrumentation: bool, systemCrash: bool)

  datatype Retry = AfterInstall | AfterSystemCrash

  /** What `main` remembers between runs. */
  datatype Controller = Controller(autoInstallAttempted: bool, systemCrashAttempts: nat)

  const MaxSystemCrashRetries: nat := 1

  datatype Decision = Stop(code: int) | Rerun(why: Retry)

  /** A re-run after auto-install is possible for this outcome. */
  predicate InstallEligible(k: Controller, o: RunOutcome, skipAutoInstall: bool) {
    o.missingInstrumentation && !skipAutoInstall && !k.autoInstallAttempted
  }

  /**
   * One pass of the loop body after a run. `installOk` is what
   * `auto_install_debug_apks` answers and `recovered` what
   * `wait_for_activity_manager` answers; each is asked at most once.
   */
  function Decide(k: Controller, o: RunOutcome, skipAutoInstall: bool, installOk: bool, recovered: bool): (r: (Controller, Decision))
    ensures r.1.Stop? ==> r.1.code == o.exitCode
    ensures o.exitCode == 0 ==> r == (k, Stop(0))
    ensures r.1 == Rerun(AfterInstall) <==>
      o.exitCode != 0 && InstallEligible(k, o, skipAutoInstall) && installOk
    ensures r.1 == Rerun(AfterSystemCrash) <==>
      && o.exitCode != 0 && !(InstallEligible(k, o, skipAutoInstall) && installOk)
      && o.systemCrash && k.systemCrashAttempts < MaxSystemCrashRetries && recovered
    ensures r.1 == Rerun(AfterInstall) ==> !k.autoInstallAttempted && r.0 == k.(autoInstallAttempted := true)
    ensures r.1 == Rerun(AfterSystemCrash) ==> r.0.systemCrashAttempts == k.systemCrashAttempts + 1
    ensures (k.autoInstallAttempted ==> r.0.autoInstallAttempted) && r.0.systemCrashAttempts >= k.systemCrashAttempts
    ensures r.0.systemCrashAttempts <= k.systemCrashAttempts + 1
    ensures k.systemCrashAttempts <= MaxSystemCrashRetries ==> r.0.systemCrashAttempts <= MaxSystemCrashRetries
  {
    if o.exitCode == 0 then (k, Stop(0))
    else
      var install := InstallEligible(k, o, skipAutoInstall);
      var k1 := if install then k.(autoInstallAttempted := true) else k;
      if install && installOk then (k1, Rerun(AfterInstall))
      else if o.systemCrash && k1.systemCrashAttempts < MaxSystemCrashRetries then
        var k2 := k1.(systemCrashAttempts := k1.systemCrashAttempts + 1);
        if recovered then (k2, Rerun(AfterSystemCrash)) else (k2, Stop(o.exitCode))
      else
        var k3 := if o.missingInstrumentation then k1.(autoInstallAttempted := true) else k1;
        (k3, Stop(o.exitCode))
  }

  /** How many more re-runs the controller can still grant. */
  function Budget(k: Controller): nat
    requires k.systemCrashAttempts <= MaxSystemCrashRetries
  {
    (if k.autoInstallAttempted then 0 else 1) + (MaxSystemCrashRetries - k.systemCrashAttempts)
  }

  /**
   * `main`'s loop: `run(i)` is the outcome of the `i`-th call of
   * `run_instrumentation_once`. It returns the exit code, how many runs
   * happened, why each re-run happened, and the controller each run was
   * judged by: every re-run is the one Decide granted, and the last run is
   * the one Decide stopped at.
   */
  method RetryLoop(run: nat -> RunOutcome, skipAutoInstall: bool, installOk: bool, recovered: bool)
    returns (code: int, runs: nat, retries: seq<Retry>, ks: seq<Controller>)
    ensures 1 <= runs <= 3 && |retries| == runs - 1 && |ks| == runs
    ensures ks[0] == Controller(skipAutoInstall, 0)
    ensures forall i | 0 <= i < |retries| ::
      Decide(ks[i], run(i), skipAutoInstall, installOk, recovered) == (ks[i + 1], Rerun(retries[i]))
    ensures Decide(ks[runs - 1], run(runs - 1), skipAutoInstall, installOk, recovered).1 == Stop(code)
    ensures code == run(runs - 1).exitCode
    ensures forall i | 0 <= i < runs - 1 :: run(i).exitCode != 0
    ensures forall i, j | 0 <= i < j < |retries| :: retries[i] != retries[j]
    ensures forall i | 0 <= i < |retries| && retries[i] == AfterInstall ::
      run(i).missingInstrumentation && !skipAutoInstall && installOk
    ensures forall i | 0 <= i < |retries| && retries[i] == AfterSystemCrash :: run(i).systemCrash && recovered
  {
    var k := Controller(skipAutoInstall, 0);
    runs := 0;
    retries := [];
    ks := [];
    while true
      invariant k.systemCrashAttempts <= MaxSystemCrashRetries
      invariant runs == |retries| == |ks|
      invariant ks + [k] != [] && (ks + [k])[0] == Controller(skipAutoInstall, 0)
      invariant forall i | 0 <= i < |retries| ::
        Decide((ks + [k])[i], run(i), skipAutoInstall, installOk, recovered) == ((ks + [k])[i + 1], Rerun(retries[i]))
      invariant |retries| + Budget(k) <= 2
      invariant skipAutoInstall ==> k.autoInstallAttempted
      invariant forall i | 0 <= i < runs :: run(i).exitCode != 0
      invariant forall i | 0 <= i < |retries| :: retries[i] == AfterInstall ==> k.autoInstallAttempted
      invariant forall i | 0 <= i < |retries| :: retries[i] == AfterSystemCrash ==> k.systemCrashAttempts == MaxSystemCrashRetries
      invariant forall i, j | 0 <= i < j < |retries| :: retries[i] != retries[j]
      invariant forall i | 0 <= i < |retries| && retries[i] == AfterInstall ::
        run(i).missingInstrumentation && !skipAutoInstall && installOk
      invariant forall i | 0 <= i < |retries| && retries[i] == AfterSystemCrash :: run(i).systemCrash && recovered
      decreases Budget(k)
    {
      var outcome := run(runs);
      var (k', decision) := Decide(k, outcome, skipAutoInstall, installOk, recovered);
      runs := runs + 1;
      if decision.Stop? {
        code := decision.code;
        ks := ks + [k];
        return;
      }
      retries := retries + [decision.why];
      ks := ks + [k];
      k := k';
    }
  }

  /** All three runs happen when the first needs an install and the second crashes the system server. */
  lemma ThreeRunsPossible(o0: RunOutcome, o1: RunOutcome)
    requires o0.exitCode != 0 && o0.missingInstrumentation
    requires o1.exitCode != 0 && o1.systemCrash
    ensures var (k1, d0) := Decide(Controller(false, 0), o0, false, true, true);
      && d0 == Rerun(AfterInstall)
      && Decide(k1, o1, false, true, true).1 == Rerun(AfterSystemCrash)
  {
  }

  /** With auto-install skipped a missing instrumentation never causes a re-run. */
  lemma SkipMeansNoInstallRetry(k: Controller, o: RunOutcome, installOk: bool, recovered: bool)
    ensures Decide(k, o, true, installOk, recovered).1 != Rerun(AfterInstall)
  {
  }
}
