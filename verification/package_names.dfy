/**
 * Android package names as the screenshot harness accepts them
 * (`^[A-Za-z0-9._]+$`), `*` wildcards resolved against the device's
 * `pm list packages` output, and `normalize_package_name`.
 */
module PackageNames {
  import opened Wrappers
  import opened Text

  /** A character `[A-Za-z0-9._]` admits; `-` is not one. */
  predicate IsPackageChar(c: char) {
    IsAlnum(c) || c == '.' || c == '_'
  }

  /** `PACKAGE_NAME_PATTERN.match(value)` for a value without a trailing newline. */
  predicate IsPackageName(s: string) {
    s != [] && forall i | 0 <= i < |s| :: IsPackageChar(s[i])
  }

  /** `re.sub(r"[^A-Za-z0-9._]", "", s)`: the package characters of `s`, in order. */
  function KeepPackageChars(s: string): (r: string)
    ensures |r| <= |s|
    ensures forall i | 0 <= i < |r| :: IsPackageChar(r[i])
    ensures (forall i | 0 <= i < |s| :: IsPackageChar(s[i])) ==> r == s
    ensures (exists i | 0 <= i < |s| :: IsPackageChar(s[i])) <==> r != []
  {
    if s == [] then []
    else
      var rest := KeepPackageChars(s[1..]);
      assert forall i | 1 <= i < |s| :: s[i] == s[1..][i - 1];
      if IsPackageChar(s[0]) then [s[0]] + rest else rest
  }

  // ---------------------------------------------------------------------------
  // Wildcards

  /**
   * Full match of `s` against `pattern` where each `*` stands for any run of
   * characters: the regex `^<escaped pattern with \* turned into .*>$`.
   */
  predicate GlobMatch(pattern: string, s: string)
    decreases |pattern| + |s|
  {
    if pattern == [] then s == []
    else if pattern[0] == '*' then GlobMatch(pattern[1..], s) || (s != [] && GlobMatch(pattern, s[1..]))
    else s != [] && s[0] == pattern[0] && GlobMatch(pattern[1..], s[1..])
  }

  /** Without a `*`, a wildcard pattern matches exactly itself. */
  lemma {:induction false} GlobLiteral(pattern: string, s: string)
    requires forall i | 0 <= i < |pattern| :: pattern[i] != '*'
    ensures GlobMatch(pattern, s) <==> s == pattern
    decreases |pattern|
  {
    if pattern != [] && s != [] {
      GlobLiteral(pattern[1..], s[1..]);
      assert s == [s[0]] + s[1..] && pattern == [pattern[0]] + pattern[1..];
    }
  }

  /** A common literal prefix is matched character by character. */
  lemma {:induction false} GlobLiteralPrefix(prefix: string, pattern: string, s: string)
    requires forall i | 0 <= i < |prefix| :: prefix[i] != '*'
    ensures GlobMatch(prefix + pattern, prefix + s) <==> GlobMatch(pattern, s)
    decreases |prefix|
  {
    if prefix != [] {
      assert (prefix + pattern)[1..] == prefix[1..] + pattern;
      assert (prefix + s)[1..] == prefix[1..] + s;
      assert (prefix + pattern)[0] == prefix[0] && (prefix + s)[0] == prefix[0];
      assert GlobMatch(prefix + pattern, prefix + s) == GlobMatch(prefix[1..] + pattern, prefix[1..] + s);
      GlobLiteralPrefix(prefix[1..], pattern, s);
    } else {
      assert prefix + pattern == pattern && prefix + s == s;
    }
  }

  /** A `*` matches anything. */
  lemma {:induction false} GlobStarMatchesAll(s: string)
    ensures GlobMatch("*", s)
    decreases |s|
  {
    if s != [] {
      GlobStarMatchesAll(s[1..]);
    } else {
      assert GlobMatch("*"[1..], s);
    }
  }

  /** Whatever a pattern matches ends with the pattern's text after its last `*`. */
  lemma {:induction false} GlobMatchEndsWithTail(pattern: string, s: string, tail: string)
    requires GlobMatch(pattern, s)
    requires EndsWith(pattern, tail)
    requires forall i | 0 <= i < |tail| :: tail[i] != '*'
    ensures EndsWith(s, tail)
    decreases |pattern| + |s|
  {
    if |pattern| == |tail| {
      assert pattern == tail;
      GlobLiteral(pattern, s);
    } else if pattern[0] == '*' {
      assert EndsWith(pattern[1..], tail) by {
        assert pattern[1..][|pattern[1..]| - |tail|..] == pattern[|pattern| - |tail|..];
      }
      if GlobMatch(pattern[1..], s) {
        GlobMatchEndsWithTail(pattern[1..], s, tail);
      } else {
        GlobMatchEndsWithTail(pattern, s[1..], tail);
        assert s[1..][|s[1..]| - |tail|..] == s[|s| - |tail|..];
      }
    } else {
      assert EndsWith(pattern[1..], tail) by {
        assert pattern[1..][|pattern[1..]| - |tail|..] == pattern[|pattern| - |tail|..];
      }
      GlobMatchEndsWithTail(pattern[1..], s[1..], tail);
      assert s[1..][|s[1..]| - |tail|..] == s[|s| - |tail|..];
    }
  }

  // ---------------------------------------------------------------------------
  // `pm list packages`

  /** The names listed as `package:<name>` lines. */
  function ListedPackages(lines: seq<string>): (r: seq<string>)
    ensures |r| <= |lines|
    ensures forall i | 0 <= i < |r| :: Strip(r[i]) == r[i]
  {
    if lines == [] then []
    else
      var stripped := Strip(lines[0]);
      var rest := ListedPackages(lines[1..]);
      if StartsWith(stripped, "package:") then
        StripIdempotent(stripped[|"package:"|..]);
        [Strip(stripped[|"package:"|..])] + rest
      else rest
  }

  /** The listed names that the wildcard pattern matches, in listing order. */
  function Matching(pattern: string, names: seq<string>): (r: seq<string>)
    ensures |r| <= |names|
    ensures forall i | 0 <= i < |r| :: GlobMatch(pattern, r[i]) && r[i] in names
    ensures forall i | 0 <= i < |names| :: GlobMatch(pattern, names[i]) ==> names[i] in r
  {
    if names == [] then []
    else
      var rest := Matching(pattern, names[1..]);
      assert forall i | 1 <= i < |names| :: names[i] == names[1..][i - 1];
      if GlobMatch(pattern, names[0]) then [names[0]] + rest else rest
  }

  /** The first of `names` ending with `suffix`. */
  function FirstEndingWith(names: seq<string>, suffix: string): (r: Option<string>)
    ensures r.Some? ==> r.value in names && EndsWith(r.value, suffix)
    ensures r.None? ==> forall i | 0 <= i < |names| :: !EndsWith(names[i], suffix)
    ensures r.Some? && names != [] && EndsWith(names[0], suffix) ==> r.value == names[0]
  {
    if names == [] then None
    else if EndsWith(names[0], suffix) then Some(names[0])
    else FirstEndingWith(names[1..], suffix)
  }

  /**
   * Among the matches, in listing order: the only one, or with several the
   * first ending with the text after the pattern's last `*` (the first match
   * when none does or that text is empty).
   */
  function ChooseMatch(pattern: string, matches: seq<string>): (r: Option<string>)
    ensures r.None? <==> matches == []
    ensures r.Some? ==> r.value in matches
  {
    if matches == [] then None
    else if |matches| > 1 then
      var parts := Split(pattern, "*");
      var suffix := parts[|parts| - 1];
      if suffix != [] then
        match FirstEndingWith(matches, suffix)
        case Some(m) => Some(m)
        case None => Some(matches[0])
      else Some(matches[0])
    else Some(matches[0])
  }

  /**
   * `_resolve_sanitized_package`: `pm` is the `pm list packages` output, or
   * `None` when there is no device or the command failed.
   */
  function ResolveSanitizedPackage(pattern: string, pm: Option<string>): (r: Option<string>)
    ensures pm.None? ==> r.None?
    ensures r.Some? ==> GlobMatch(pattern, r.value) && r.value in ListedPackages(Lines(pm.value))
  {
    match pm
    case None => None
    case Some(output) => ChooseMatch(pattern, Matching(pattern, ListedPackages(Lines(output))))
  }

  lemma {:induction false} JoinEndsWithLast(parts: seq<string>, sep: string)
    requires |parts| >= 1
    ensures EndsWith(Join(parts, sep), parts[|parts| - 1])
    decreases |parts|
  {
    if |parts| > 1 {
      JoinEndsWithLast(parts[1..], sep);
      var rest := Join(parts[1..], sep);
      var whole := parts[0] + sep + rest;
      var last := parts[|parts| - 1];
      assert last == parts[1..][|parts[1..]| - 1];
      assert whole[|whole| - |last|..] == rest[|rest| - |last|..];
    }
  }

  /** No piece of `Split(s, sep)` contains the separator. */
  lemma {:induction false} SplitPiecesFree(s: string, c: char)
    ensures forall k, i | 0 <= k < |Split(s, [c])| && 0 <= i < |Split(s, [c])[k]| :: Split(s, [c])[k][i] != c
    decreases |s|
  {
    var parts := Split(s, [c]);
    match IndexOf(s, [c])
    case None =>
      forall i | 0 <= i < |s|
        ensures s[i] != c
      {
        assert s[i..i + 1] == [s[i]];
        assert !OccursAt(s, [c], i);
      }
    case Some(j) =>
      var head := s[..j];
      var rest := s[j + 1..];
      SplitPiecesFree(rest, c);
      forall i | 0 <= i < |head|
        ensures head[i] != c
      {
        assert s[i..i + 1] == [s[i]];
        assert !OccursAt(s, [c], i);
      }
      assert parts == [head] + Split(rest, [c]);
  }

  /**
   * The suffix preference never changes the answer: every match of the
   * pattern already ends with the text after its last `*`, so the first
   * match is always chosen.
   */
  lemma ChooseMatchIsFirst(pattern: string, matches: seq<string>)
    requires forall i | 0 <= i < |matches| :: GlobMatch(pattern, matches[i])
    ensures ChooseMatch(pattern, matches) == if matches == [] then None else Some(matches[0])
  {
    if |matches| > 1 {
      var parts := Split(pattern, "*");
      var suffix := parts[|parts| - 1];
      JoinEndsWithLast(parts, "*");
      SplitPiecesFree(pattern, '*');
      GlobMatchEndsWithTail(pattern, matches[0], suffix);
    }
  }

  /** Resolution picks the first listed package the pattern matches. */
  lemma ResolveIsFirstMatch(pattern: string, output: string)
    ensures var matches := Matching(pattern, ListedPackages(Lines(output)));
      ResolveSanitizedPackage(pattern, Some(output)) == if matches == [] then None else Some(matches[0])
  {
    ChooseMatchIsFirst(pattern, Matching(pattern, ListedPackages(Lines(output))));
  }

  /** The value contains `*` and the device resolves it to a non-empty package. */
  predicate WildcardResolves(value: string, pm: Option<string>) {
    Contains(value, "*") && ResolveSanitizedPackage(value, pm).Some? && ResolveSanitizedPackage(value, pm).value != []
  }

  /**
   * `normalize_package_name`: a well-formed name is kept, a wildcard is
   * resolved on the device when possible, otherwise the disallowed
   * characters are dropped; nothing usable gives `None`.
   */
  function NormalizePackageName(candidate: string, pm: Option<string>): (r: Option<string>)
    ensures r.Some? ==> r.value != []
    ensures Strip(candidate) == [] ==> r.None?
    ensures IsPackageName(Strip(candidate)) ==> r == Some(Strip(candidate))
    ensures r.Some? && !IsPackageName(r.value) ==>
      Contains(Strip(candidate), "*") && Some(r.value) == ResolveSanitizedPackage(Strip(candidate), pm)
    ensures !IsPackageName(Strip(candidate)) && WildcardResolves(Strip(candidate), pm) ==>
      r == ResolveSanitizedPackage(Strip(candidate), pm)
    ensures Strip(candidate) != [] && !IsPackageName(Strip(candidate)) && !WildcardResolves(Strip(candidate), pm) ==>
      r == (if KeepPackageChars(Strip(candidate)) == [] then None else Some(KeepPackageChars(Strip(candidate))))
  {
    var value := Strip(candidate);
    if value == [] then None
    else if IsPackageName(value) then Some(value)
    else
      var resolved := if Contains(value, "*") then ResolveSanitizedPackage(value, pm) else None;
      if resolved.Some? && resolved.value != [] then resolved
      else
        var sanitized := KeepPackageChars(value);
        if sanitized != [] && IsPackageName(sanitized) then Some(sanitized) else None
  }

  /** A normalised name carries no surrounding whitespace, whichever way it was found. */
  lemma NormalizeTrimmed(candidate: string, pm: Option<string>)
    ensures var r := NormalizePackageName(candidate, pm);
      r.Some? ==> Strip(r.value) == r.value
  {
    var r := NormalizePackageName(candidate, pm);
    if r.Some? {
      if IsPackageName(r.value) {
        StripTrimmed(r.value);
      } else {
        var listed := ListedPackages(Lines(pm.value));
        var k :| 0 <= k < |listed| && listed[k] == r.value;
      }
    }
  }

  /** Without a device, normalising keeps exactly the package characters of the trimmed input. */
  lemma NormalizeWithoutDevice(candidate: string)
    ensures var kept := KeepPackageChars(Strip(candidate));
      NormalizePackageName(candidate, None) == if kept == [] then None else Some(kept)
  {
  }

  /**
   * With a device listing, a malformed wildcard resolves to the first listed
   * package the pattern matches, and falls back to its package characters
   * when the pattern matches nothing.
   */
  lemma NormalizeWithDevice(candidate: string, output: string)
    requires !IsPackageName(Strip(candidate)) && Contains(Strip(candidate), "*")
    ensures var matches := Matching(Strip(candidate), ListedPackages(Lines(output)));
      var kept := KeepPackageChars(Strip(candidate));
      && (matches != [] && matches[0] != [] ==> NormalizePackageName(candidate, Some(output)) == Some(matches[0]))
      && (matches == [] ==> NormalizePackageName(candidate, Some(output)) == if kept == [] then None else Some(kept))
  {
    ResolveIsFirstMatch(Strip(candidate), output);
  }

  /** Normalising a normalised name (without a device) changes nothing. */
  lemma NormalizeIdempotent(candidate: string)
    requires NormalizePackageName(candidate, None).Some?
    ensures var once := NormalizePackageName(candidate, None).value;
      NormalizePackageName(once, None) == Some(once)
  {
    var once := NormalizePackageName(candidate, None).value;
    assert IsPackageName(once);
    assert Strip(once) == once by {
      StripTrimmed(once);
    }
  }

  /** Dropping characters distributes over concatenation. */
  lemma {:induction false} KeepPackageCharsAppend(a: string, b: string)
    ensures KeepPackageChars(a + b) == KeepPackageChars(a) + KeepPackageChars(b)
    decreases |a|
  {
    if a != [] {
      KeepPackageCharsAppend(a[1..], b);
      assert (a + b)[1..] == a[1..] + b;
    } else {
      assert a + b == b;
    }
  }

  /** A trailing disallowed character is dropped from an otherwise valid name. */
  lemma NormalizeDropsTrailing(candidate: string, name: string, c: char)
    requires candidate == name + [c]
    requires IsPackageName(name) && !IsPackageChar(c) && !IsSpace(c)
    ensures NormalizePackageName(candidate, None) == Some(name)
  {
    assert IsPackageChar(name[0]);
    assert candidate[0] == name[0] && candidate[|candidate| - 1] == c;
    StripTrimmed(candidate);
    KeepPackageCharsAppend(name, [c]);
    assert KeepPackageChars(name) == name;
    assert KeepPackageChars([c]) == [] by {
      assert [c][1..] == [];
    }
    assert Strip(candidate) == candidate;
    assert KeepPackageChars(candidate) == name;
    NormalizeWithoutDevice(candidate);
  }

  /** Surrounding whitespace is trimmed from a valid name. */
  lemma NormalizeTrimsPadding(candidate: string, pre: string, name: string, post: string)
    requires candidate == pre + name + post
    requires forall i | 0 <= i < |pre| :: IsSpace(pre[i])
    requires forall i | 0 <= i < |post| :: IsSpace(post[i])
    requires IsPackageName(name)
    ensures NormalizePackageName(candidate, None) == Some(name)
  {
    assert !IsSpace(name[0]) && !IsSpace(name[|name| - 1]);
    StripPadded(pre, name, post);
  }

  /** A candidate without a single package character normalises to nothing. */
  lemma NormalizeNoPackageChars(candidate: string)
    requires candidate != [] && !IsSpace(candidate[0]) && !IsSpace(candidate[|candidate| - 1])
    requires forall i | 0 <= i < |candidate| :: !IsPackageChar(candidate[i])
    ensures NormalizePackageName(candidate, None) == None
  {
    StripTrimmed(candidate);
    NormalizeWithoutDevice(candidate);
  }

  lemma NormalizeScenarioPunctuation()
    ensures NormalizePackageName("com.example.App!", None) == Some("com.example.App")
  {
    NormalizeDropsTrailing("com.example.App!", "com.example.App", '!');
  }

  lemma NormalizeScenarioNothingUsable()
    ensures NormalizePackageName("???", None) == None
  {
    NormalizeNoPackageChars("???");
  }

  lemma NormalizeScenarioPadding()
    ensures NormalizePackageName("  com.example.app ", None) == Some("com.example.app")
  {
    NormalizeTrimsPadding("  com.example.app ", "  ", "com.example.app", " ");
  }
}
