/**
 * Where `collect_native_crash_artifacts` puts a crash's tombstones: a
 * directory `<timestamp>-<reason>` under the artifact root, with `-1` …
 * `-63` appended while the name is taken, and `-<milliseconds>` once all
 * sixty-four are taken. The file system is the `mkdir` parameter.
 */
module CrashArtifacts {
  import opened Wrappers
  import opened Text
  import opened CacheNames

  const MaxAttempts: nat := 64
  const DefaultReason := "diagnostics"

  /** What one `mkdir(parents=True, exist_ok=False)` of a directory does. */
  datatype Mkdir = Created | AlreadyExists | Failed(message: string)

  /** `_sanitize(reason) or "diagnostics"`. */
  function ArtifactReason(reason: string): (r: string)
    ensures r != [] && IsSanitized(r)
    ensures Sanitize(reason) != [] ==> r == Sanitize(reason)
  {
    assert IsSanitized(DefaultReason) by {
      DefaultReasonSanitized();
    }
    if Sanitize(reason) != [] then Sanitize(reason) else DefaultReason
  }

  lemma DefaultReasonSanitized()
    ensures IsSanitized(DefaultReason)
  {
  }

  /** The directory name of attempt `attempt`: no suffix for the first. */
  function Candidate(timestamp: string, reason: string, attempt: nat): (r: string)
    ensures attempt == 0 ==> r == timestamp + "-" + reason
    ensures attempt > 0 ==> r == timestamp + "-" + reason + "-" + NatToString(attempt)
  {
    timestamp + "-" + reason + (if attempt == 0 then "" else "-" + NatToString(attempt))
  }

  /** Different attempts try different directories. */
  lemma CandidatesDistinct(timestamp: string, reason: string, a: nat, b: nat)
    requires a != b
    ensures Candidate(timestamp, reason, a) != Candidate(timestamp, reason, b)
  {
    var stem := timestamp + "-" + reason;
    if a > 0 && b > 0 {
      if Candidate(timestamp, reason, a) == Candidate(timestamp, reason, b) {
        var sa, sb := NatToString(a), NatToString(b);
        assert stem + "-" + sa == stem + "-" + sb;
        assert sa == (stem + "-" + sa)[|stem| + 1..];
        assert sb == (stem + "-" + sb)[|stem| + 1..];
        NatToStringInjective(a, b);
      }
    } else {
      var positive := if a > 0 then a else b;
      assert |Candidate(timestamp, reason, positive)| > |stem|;
    }
  }

  /** The fallback once every attempt is taken. */
  function Fallback(timestamp: string, reason: string, millis: nat): string {
    timestamp + "-" + reason + "-" + NatToString(millis)
  }

  /** The `n`-th directory tried, counting from 1: the attempts, then the fallback. */
  function Tried(timestamp: string, reason: string, millis: nat, n: nat): string
    requires 1 <= n <= MaxAttempts + 1
  {
    if n <= MaxAttempts then Candidate(timestamp, reason, n - 1) else Fallback(timestamp, reason, millis)
  }

  /**
   * The directory the crash's artifacts go to, or the directory whose
   * creation failed, and how many directories were tried, for the reason
   * `name` (`ArtifactReason` of the crash reason). `rootReady` is
   * whether the artifact root could be created (its failure is reported as
   * `Failure("")`), `millis` the clock reading the fallback uses.
   */
  method CreateArtifactDirectory(timestamp: string, name: string, rootReady: bool,
                                 mkdir: string -> Mkdir, millis: nat)
    returns (r: Result<string, string>, tried: nat)
    ensures !rootReady ==> r == Failure("") && tried == 0
    ensures rootReady ==> 1 <= tried <= MaxAttempts + 1
    ensures rootReady ==> r == (if r.Success? then Success(Tried(timestamp, name, millis, tried))
                                else Failure(Tried(timestamp, name, millis, tried)))
    ensures forall a | 0 <= a < tried - 1 && a < MaxAttempts ::
      mkdir(Candidate(timestamp, name, a)) == AlreadyExists
    ensures r.Success? && tried <= MaxAttempts ==> mkdir(r.value) == Created
    ensures r.Success? ==> !mkdir(r.value).Failed?
    ensures r.Failure? && rootReady ==> mkdir(r.error).Failed?
  {
    if !rootReady {
      return Failure(""), 0;
    }
    var attempt := 0;
    while attempt < MaxAttempts
      invariant 0 <= attempt <= MaxAttempts
      invariant forall a | 0 <= a < attempt :: mkdir(Candidate(timestamp, name, a)) == AlreadyExists
    {
      var candidate := Candidate(timestamp, name, attempt);
      match mkdir(candidate)
      case Created =>
        return Success(candidate), attempt + 1;
      case Failed(_) =>
        return Failure(candidate), attempt + 1;
      case AlreadyExists =>
        attempt := attempt + 1;
    }
    tried := MaxAttempts + 1;
    var fallback := Fallback(timestamp, name, millis);
    if mkdir(fallback).Failed? {
      r := Failure(fallback);
    } else {
      r := Success(fallback);
    }
  }
}
