/**
 * The slice of Python's `str` behaviour the tools rely on: whitespace and
 * character classes (ASCII only), prefix/suffix tests, `find`/`rfind`,
 * `strip`, `split`, `splitlines`, `lower`, `int()` and decimal formatting.
 */
module Text {
  import opened Wrappers

  // ---------------------------------------------------------------------------
  // Character classes

  /** `str.isspace` restricted to ASCII: space, \t \n \v \f \r and \x1c-\x1f. */
  predicate IsSpace(c: char) {
    c == ' ' || (9 <= c as int <= 13) || (28 <= c as int <= 31)
  }

  /** A set of characters to strip: whitespace, or an explicit set as in `s.strip("_.")`. */
  datatype CharClass = Spaces | Chars(cs: set<char>)

  predicate InClass(c: char, k: CharClass) {
    match k
    case Spaces => IsSpace(c)
    case Chars(cs) => c in cs
  }

  predicate IsDigit(c: char) {
    '0' <= c <= '9'
  }

  predicate IsAsciiLetter(c: char) {
    ('a' <= c <= 'z') || ('A' <= c <= 'Z')
  }

  /** `str.isalnum` restricted to ASCII. */
  predicate IsAlnum(c: char) {
    IsDigit(c) || IsAsciiLetter(c)
  }

  /** The characters `str.splitlines` breaks on, restricted to ASCII. */
  predicate IsLineBreak(c: char) {
    c == '\n' || c == '\r' || c as int == 11 || c as int == 12 || (28 <= c as int <= 30)
  }

  function LowerChar(c: char): (r: char)
    ensures 'A' <= c <= 'Z' ==> 'a' <= r <= 'z'
    ensures !('A' <= c <= 'Z') ==> r == c
  {
    if 'A' <= c <= 'Z' then (c as int + 32) as char else c
  }

  /** `str.lower` restricted to ASCII: same length, letters folded. */
  function Lower(s: string): (r: string)
    ensures |r| == |s|
    ensures forall i | 0 <= i < |s| :: r[i] == LowerChar(s[i])
  {
    seq(|s|, i requires 0 <= i < |s| => LowerChar(s[i]))
  }

  function UpperChar(c: char): (r: char)
    ensures 'a' <= c <= 'z' ==> 'A' <= r <= 'Z'
    ensures !('a' <= c <= 'z') ==> r == c
  {
    if 'a' <= c <= 'z' then (c as int - 32) as char else c
  }

  /** `str.upper` restricted to ASCII: same length, letters raised. */
  function Upper(s: string): (r: string)
    ensures |r| == |s|
    ensures forall i | 0 <= i < |s| :: r[i] == UpperChar(s[i])
  {
    seq(|s|, i requires 0 <= i < |s| => UpperChar(s[i]))
  }

  // ---------------------------------------------------------------------------
  // Prefixes, suffixes and substring search

  predicate StartsWith(s: string, prefix: string) {
    |prefix| <= |s| && s[..|prefix|] == prefix
  }

  predicate EndsWith(s: string, suffix: string) {
    |suffix| <= |s| && s[|s| - |suffix|..] == suffix
  }

  /** `needle` occurs in `s` starting at index `i`. */
  predicate OccursAt(s: string, needle: string, i: int) {
    0 <= i && i + |needle| <= |s| && s[i..i + |needle|] == needle
  }

  function IndexFrom(s: string, needle: string, k: nat): (r: Option<nat>)
    requires k <= |s|
    ensures r.Some? ==> k <= r.value && OccursAt(s, needle, r.value)
    ensures r.Some? ==> forall j | k <= j < r.value :: !OccursAt(s, needle, j)
    ensures r.None? ==> forall j | k <= j :: !OccursAt(s, needle, j)
    decreases |s| - k
  {
    if OccursAt(s, needle, k) then Some(k)
    else if k == |s| then None
    else IndexFrom(s, needle, k + 1)
  }

  /** `str.find`: the first index at which `needle` occurs. */
  function IndexOf(s: string, needle: string): (r: Option<nat>)
    ensures r.Some? ==> OccursAt(s, needle, r.value)
    ensures r.Some? ==> forall j | 0 <= j < r.value :: !OccursAt(s, needle, j)
    ensures r.None? ==> forall j :: !OccursAt(s, needle, j)
  {
    IndexFrom(s, needle, 0)
  }

  function LastAtOrBelow(s: string, needle: string, k: nat): (r: Option<nat>)
    ensures r.Some? ==> r.value <= k && OccursAt(s, needle, r.value)
    ensures r.Some? ==> forall j | r.value < j <= k :: !OccursAt(s, needle, j)
    ensures r.None? ==> forall j | j <= k :: !OccursAt(s, needle, j)
  {
    if OccursAt(s, needle, k) then Some(k)
    else if k == 0 then None
    else LastAtOrBelow(s, needle, k - 1)
  }

  /** `str.rfind`: the last index at which `needle` occurs. */
  function LastIndexOf(s: string, needle: string): (r: Option<nat>)
    ensures r.Some? ==> OccursAt(s, needle, r.value)
    ensures r.Some? ==> forall j | r.value < j :: !OccursAt(s, needle, j)
    ensures r.None? ==> forall j :: !OccursAt(s, needle, j)
  {
    LastAtOrBelow(s, needle, |s|)
  }

  /** Python's `needle in s` for strings. */
  predicate Contains(s: string, needle: string) {
    IndexOf(s, needle).Some?
  }

  lemma ContainsAt(s: string, needle: string, i: int)
    requires OccursAt(s, needle, i)
    ensures Contains(s, needle)
  {
  }

  /**
   * `re.search(marker + "(.+)", line).group(1)` on one line of output: the
   * rest of the line after the first occurrence of `marker`, when not empty.
   */
  function SearchGroup(line: string, marker: string): (r: Option<string>)
    ensures r.Some? ==> r.value != [] && EndsWith(line, r.value)
    ensures r.Some? ==> OccursAt(line, marker, |line| - |r.value| - |marker|)
    ensures r.Some? ==> forall j | 0 <= j < |line| - |r.value| - |marker| :: !OccursAt(line, marker, j)
    ensures r.None? ==> forall j | 0 <= j && j + |marker| < |line| :: !OccursAt(line, marker, j)
  {
    match IndexOf(line, marker)
    case None => None
    case Some(i) => if i + |marker| < |line| then Some(line[i + |marker|..]) else None
  }

  // ---------------------------------------------------------------------------
  // Stripping

  /** How many leading characters of `s` belong to `k`. */
  function LeadingIn(s: string, k: CharClass): (n: nat)
    ensures n <= |s|
    ensures forall i | 0 <= i < n :: InClass(s[i], k)
    ensures n < |s| ==> !InClass(s[n], k)
  {
    if s == [] || !InClass(s[0], k) then 0 else 1 + LeadingIn(s[1..], k)
  }

  /** How many trailing characters of `s` belong to `k`. */
  function TrailingIn(s: string, k: CharClass): (n: nat)
    ensures n <= |s|
    ensures forall i | |s| - n <= i < |s| :: InClass(s[i], k)
    ensures n < |s| ==> !InClass(s[|s| - n - 1], k)
  {
    if s == [] || !InClass(s[|s| - 1], k) then 0 else 1 + TrailingIn(s[..|s| - 1], k)
  }

  /** `s.strip(chars)`: drop the characters of `k` from both ends. */
  function StripIn(s: string, k: CharClass): (r: string)
    ensures OccursAt(s, r, LeadingIn(s, k))
    ensures r != [] ==> !InClass(r[0], k) && !InClass(r[|r| - 1], k)
    ensures forall i | 0 <= i < LeadingIn(s, k) :: InClass(s[i], k)
    ensures forall i | LeadingIn(s, k) + |r| <= i < |s| :: InClass(s[i], k)
    ensures r == [] <==> forall i | 0 <= i < |s| :: InClass(s[i], k)
  {
    var lead := LeadingIn(s, k);
    if lead == |s| then []
    else
      var trail := TrailingIn(s, k);
      assert lead < |s| - trail;
      s[lead..|s| - trail]
  }

  /** `str.strip()`. */
  function Strip(s: string): (r: string)
    ensures |r| <= |s|
    ensures r != [] ==> !IsSpace(r[0]) && !IsSpace(r[|r| - 1])
    ensures r == [] <==> forall i | 0 <= i < |s| :: IsSpace(s[i])
  {
    StripIn(s, Spaces)
  }

  /** `str.lstrip()`. */
  function LStrip(s: string): (r: string)
    ensures |r| <= |s| && r == s[|s| - |r|..]
    ensures r != [] ==> !IsSpace(r[0])
    ensures forall i | 0 <= i < |s| - |r| :: IsSpace(s[i])
  {
    s[LeadingIn(s, Spaces)..]
  }

  lemma {:induction false} LeadingPadded(pre: string, s: string, k: CharClass)
    requires forall i | 0 <= i < |pre| :: InClass(pre[i], k)
    requires s == [] || !InClass(s[0], k)
    ensures LeadingIn(pre + s, k) == |pre|
    decreases |pre|
  {
    if pre != [] {
      assert (pre + s)[1..] == pre[1..] + s;
      LeadingPadded(pre[1..], s, k);
    }
  }

  lemma {:induction false} TrailingPadded(s: string, post: string, k: CharClass)
    requires forall i | 0 <= i < |post| :: InClass(post[i], k)
    requires s == [] || !InClass(s[|s| - 1], k)
    ensures TrailingIn(s + post, k) == |post|
    decreases |post|
  {
    if post != [] {
      var shorter := post[..|post| - 1];
      assert (s + post)[..|s + post| - 1] == s + shorter;
      TrailingPadded(s, shorter, k);
    }
  }

  /** Stripping removes exactly the padding around a core whose ends are kept. */
  /** A string that neither starts nor ends in the class is its own strip. */
  lemma StripInFixed(s: string, k: CharClass)
    requires s != [] && !InClass(s[0], k) && !InClass(s[|s| - 1], k)
    ensures StripIn(s, k) == s
  {
    StripInPadded([], s, [], k);
    assert [] + s + [] == s;
  }

  lemma StripInPadded(pre: string, s: string, post: string, k: CharClass)
    requires forall i | 0 <= i < |pre| :: InClass(pre[i], k)
    requires forall i | 0 <= i < |post| :: InClass(post[i], k)
    requires s != [] && !InClass(s[0], k) && !InClass(s[|s| - 1], k)
    ensures StripIn(pre + s + post, k) == s
  {
    var whole := pre + s + post;
    assert whole == pre + (s + post);
    LeadingPadded(pre, s + post, k);
    TrailingPadded(pre + s, post, k);
    assert whole[|pre|..|whole| - |post|] == s;
  }

  lemma StripPadded(pre: string, s: string, post: string)
    requires forall i | 0 <= i < |pre| :: IsSpace(pre[i])
    requires forall i | 0 <= i < |post| :: IsSpace(post[i])
    requires s != [] && !IsSpace(s[0]) && !IsSpace(s[|s| - 1])
    ensures Strip(pre + s + post) == s
  {
    StripInPadded(pre, s, post, Spaces);
  }

  /** A string with no padding is its own strip. */
  lemma StripTrimmed(s: string)
    requires s != [] && !IsSpace(s[0]) && !IsSpace(s[|s| - 1])
    ensures Strip(s) == s
  {
    StripPadded([], s, []);
    assert [] + s + [] == s;
  }

  // ---------------------------------------------------------------------------
  // Marker lines

  /** `s.strip().strip() == s.strip()`. */
  lemma StripIdempotent(s: string)
    ensures Strip(Strip(s)) == Strip(s)
  {
    if Strip(s) != [] {
      StripTrimmed(Strip(s));
    }
  }

  /** `[p.strip() for p in parts]` without the empty results, in order. */
  function StrippedNonEmpty(parts: seq<string>): (r: seq<string>)
    ensures |r| <= |parts|
    ensures forall i | 0 <= i < |r| :: r[i] != [] && Strip(r[i]) == r[i]
  {
    if parts == [] then []
    else
      var t := Strip(parts[0]);
      StripIdempotent(parts[0]);
      if t == [] then StrippedNonEmpty(parts[1..]) else [t] + StrippedNonEmpty(parts[1..])
  }

  /** Parts that are already trimmed and non-empty pass through unchanged. */
  lemma {:induction false} StrippedNonEmptyKeeps(parts: seq<string>)
    requires forall i | 0 <= i < |parts| :: parts[i] != [] && Strip(parts[i]) == parts[i]
    ensures StrippedNonEmpty(parts) == parts
    decreases |parts|
  {
    if parts != [] {
      StrippedNonEmptyKeeps(parts[1..]);
      assert parts == [parts[0]] + parts[1..];
    }
  }

  /** The text after the marker prefix, trimmed, when the line carries one. */
  function MarkerPayload(line: string, prefix: string): (r: Option<string>)
    ensures r.Some? <==> StartsWith(Strip(line), prefix) && Strip(Strip(line)[|prefix|..]) != []
    ensures r.Some? ==> r.value == Strip(Strip(line)[|prefix|..])
  {
    var stripped := Strip(line);
    if !StartsWith(stripped, prefix) then None
    else
      var payload := Strip(stripped[|prefix|..]);
      if payload == [] then None else Some(payload)
  }

  /** A prefix followed by a trimmed payload yields that payload. */
  lemma MarkerPayloadOf(prefix: string, payload: string)
    requires prefix != [] && !IsSpace(prefix[0])
    requires payload != [] && !IsSpace(payload[0]) && !IsSpace(payload[|payload| - 1])
    ensures MarkerPayload(prefix + payload, prefix) == Some(payload)
  {
    var line := prefix + payload;
    assert line[0] == prefix[0] && line[|line| - 1] == payload[|payload| - 1];
    StripTrimmed(line);
    assert line[..|prefix|] == prefix;
    assert line[|prefix|..] == payload;
    StripTrimmed(payload);
  }

  // ---------------------------------------------------------------------------
  // Splitting and joining

  /** `sep.join(parts)`. */
  function Join(parts: seq<string>, sep: string): string {
    if |parts| == 0 then ""
    else if |parts| == 1 then parts[0]
    else parts[0] + sep + Join(parts[1..], sep)
  }

  /** `s.split(sep)` for a non-empty separator; joining the pieces gives `s` back. */
  function Split(s: string, sep: string): (r: seq<string>)
    requires |sep| > 0
    ensures |r| >= 1
    ensures Join(r, sep) == s
    decreases |s|
  {
    match IndexOf(s, sep)
    case None => [s]
    case Some(i) =>
      var rest := Split(s[i + |sep|..], sep);
      assert s == s[..i] + sep + s[i + |sep|..] by {
        assert s[i..i + |sep|] == sep;
      }
      assert ([s[..i]] + rest)[1..] == rest;
      [s[..i]] + rest
  }

  /** `s.split(sep, 1)` / `s.partition(sep)`: cut at the first occurrence of `sep`. */
  function SplitFirst(s: string, sep: string): (r: Option<(string, string)>)
    requires |sep| > 0
    ensures r.None? <==> !Contains(s, sep)
    ensures r.Some? ==> r.value.0 + sep + r.value.1 == s
    ensures r.Some? ==> !Contains(r.value.0, sep)
  {
    match IndexOf(s, sep)
    case None => None
    case Some(i) =>
      var head, tail := s[..i], s[i + |sep|..];
      assert s == head + sep + tail by {
        assert s[i..i + |sep|] == sep;
      }
      assert !Contains(head, sep) by {
        forall j | OccursAt(head, sep, j)
          ensures false
        {
          assert head[j..j + |sep|] == s[j..j + |sep|];
          assert OccursAt(s, sep, j);
        }
      }
      Some((head, tail))
  }

  /** `s.partition(sep)[0]`, likewise `s.split(sep, 1)[0]`: the text before the first `sep`, or all of `s`. */
  function Before(s: string, sep: string): (r: string)
    requires |sep| > 0
    ensures !Contains(r, sep)
    ensures |r| <= |s| && r == s[..|r|]
    ensures !Contains(s, sep) ==> r == s
  {
    match SplitFirst(s, sep)
    case Some((head, tail)) =>
      assert s == head + sep + tail;
      head
    case None => s
  }

  /** A string without the character `c` does not contain it. */
  lemma NoCharNotContains(s: string, c: char)
    requires forall i | 0 <= i < |s| :: s[i] != c
    ensures !Contains(s, [c])
  {
    forall j | 0 <= j && j + 1 <= |s|
      ensures !OccursAt(s, [c], j)
    {
      assert s[j..j + 1] == [s[j]];
    }
  }

  /** A piece of a string that does not contain `needle` does not contain it either. */
  lemma PieceNotContains(s: string, piece: string, k: int, needle: string)
    requires OccursAt(s, piece, k) && !Contains(s, needle)
    ensures !Contains(piece, needle)
  {
    forall j | OccursAt(piece, needle, j)
      ensures false
    {
      assert piece == s[k..k + |piece|];
      forall i | 0 <= i < |needle|
        ensures s[k + j..k + j + |needle|][i] == needle[i]
      {
        assert piece[j..j + |needle|][i] == needle[i];
        assert s[k + j + i] == piece[j + i];
      }
      assert s[k + j..k + j + |needle|] == needle;
      ContainsAt(s, needle, k + j);
    }
  }

  /** A string splits at the first occurrence of a one-character separator in only one way. */
  lemma SplitFirstUnique(a: string, b: string, c: string, d: string, sep: string)
    requires |sep| == 1
    requires a + sep + b == c + sep + d
    requires !Contains(a, sep) && !Contains(c, sep)
    ensures a == c && b == d
  {
    var s := a + sep + b;
    assert OccursAt(s, sep, |a|) by {
      assert s[|a|..|a| + |sep|] == sep;
    }
    assert OccursAt(s, sep, |c|) by {
      assert s[|c|..|c| + |sep|] == sep;
    }
    if |a| < |c| {
      assert s[|a|..|a| + 1] == c[|a|..|a| + 1];
      ContainsAt(c, sep, |a|);
    } else if |c| < |a| {
      assert s[|c|..|c| + 1] == a[|c|..|c| + 1];
      ContainsAt(a, sep, |c|);
    }
    assert a == s[..|a|] && c == s[..|c|];
    assert b == s[|a| + |sep|..] && d == s[|c| + |sep|..];
  }

  /** A separator-free head is recovered by `SplitFirst`. */
  lemma SplitFirstOf(a: string, b: string, sep: string)
    requires |sep| == 1
    requires !Contains(a, sep)
    ensures SplitFirst(a + sep + b, sep) == Some((a, b))
  {
    var s := a + sep + b;
    assert OccursAt(s, sep, |a|) by {
      assert s[|a|..|a| + |sep|] == sep;
    }
    ContainsAt(s, sep, |a|);
    var r := SplitFirst(s, sep);
    SplitFirstUnique(r.value.0, r.value.1, a, b, sep);
  }

  /** A needle cannot occur where its first character does not. */
  lemma FirstCharMismatch(s: string, needle: string, j: nat)
    requires |needle| >= 1 && j < |s| && s[j] != needle[0]
    ensures !OccursAt(s, needle, j)
  {
    if j + |needle| <= |s| {
      assert s[j..j + |needle|][0] == s[j];
    }
  }

  /** An occurrence with none before it is the one `find` reports. */
  lemma IndexOfFirst(s: string, needle: string, k: nat)
    requires OccursAt(s, needle, k)
    requires forall j | 0 <= j < k :: !OccursAt(s, needle, j)
    ensures IndexOf(s, needle) == Some(k)
  {
  }

  /** Parts without the separator's first character come back from splitting their join. */
  lemma {:induction false} SplitJoin(parts: seq<string>, sep: string)
    requires |sep| >= 1 && |parts| >= 1
    requires forall i, j | 0 <= i < |parts| && 0 <= j < |parts[i]| :: parts[i][j] != sep[0]
    ensures Split(Join(parts, sep), sep) == parts
    decreases |parts|
  {
    if |parts| == 1 {
      assert !Contains(parts[0], sep) by {
        forall j | 0 <= j <= |parts[0]| - |sep|
          ensures !OccursAt(parts[0], sep, j)
        {
          FirstCharMismatch(parts[0], sep, j);
        }
      }
    } else {
      var head, rest := parts[0], Join(parts[1..], sep);
      var s := head + sep + rest;
      assert OccursAt(s, sep, |head|) by {
        assert s[|head|..|head| + |sep|] == sep;
      }
      forall j | 0 <= j < |head|
        ensures !OccursAt(s, sep, j)
      {
        assert s[j] == head[j];
        FirstCharMismatch(s, sep, j);
      }
      IndexOfFirst(s, sep, |head|);
      assert s[..|head|] == head;
      assert s[|head| + |sep|..] == rest;
      SplitJoin(parts[1..], sep);
      assert parts == [head] + parts[1..];
    }
  }

  /** Length of the longest prefix of `s` without whitespace. */
  function TokenLength(s: string): (n: nat)
    ensures n <= |s|
    ensures forall i | 0 <= i < n :: !IsSpace(s[i])
    ensures n < |s| ==> IsSpace(s[n])
  {
    if s == [] || IsSpace(s[0]) then 0 else 1 + TokenLength(s[1..])
  }

  /** A piece `split()` can return: non-empty and free of whitespace. */
  predicate IsToken(t: string) {
    t != [] && forall c | c in t :: !IsSpace(c)
  }

  /** `str.split()`: the maximal runs of non-whitespace, in order. */
  function SplitWhitespace(s: string): (r: seq<string>)
    ensures forall k | 0 <= k < |r| :: IsToken(r[k])
    decreases |s|
  {
    var lead := LeadingIn(s, Spaces);
    if lead == |s| then []
    else
      var n := TokenLength(s[lead..]);
      [s[lead..lead + n]] + SplitWhitespace(s[lead + n..])
  }

  /** `str.split(None, maxsplit)`: after `maxsplit` cuts the rest is kept whole. */
  function SplitWhitespaceMax(s: string, maxsplit: nat): (r: seq<string>)
    ensures |r| <= maxsplit + 1
    ensures forall k | 0 <= k < |r| :: r[k] != [] && !IsSpace(r[k][0])
    decreases |s|
  {
    var lead := LeadingIn(s, Spaces);
    if lead == |s| then []
    else if maxsplit == 0 then [s[lead..]]
    else
      var n := TokenLength(s[lead..]);
      [s[lead..lead + n]] + SplitWhitespaceMax(s[lead + n..], maxsplit - 1)
  }

  /** The run of non-whitespace at the front of `tok + rest` is `tok` when `rest` starts with whitespace. */
  lemma {:induction false} TokenLengthOf(tok: string, rest: string)
    requires forall i | 0 <= i < |tok| :: !IsSpace(tok[i])
    requires rest == [] || IsSpace(rest[0])
    ensures TokenLength(tok + rest) == |tok|
    decreases |tok|
  {
    if tok != [] {
      assert (tok + rest)[1..] == tok[1..] + rest;
      TokenLengthOf(tok[1..], rest);
    }
  }

  /** `split()` takes the next token off the front. */
  lemma SplitWhitespaceCons(pre: string, tok: string, rest: string)
    requires forall i | 0 <= i < |pre| :: IsSpace(pre[i])
    requires tok != [] && forall i | 0 <= i < |tok| :: !IsSpace(tok[i])
    requires rest == [] || IsSpace(rest[0])
    ensures SplitWhitespace(pre + tok + rest) == [tok] + SplitWhitespace(rest)
  {
    var s := pre + tok + rest;
    assert s == pre + (tok + rest);
    LeadingPadded(pre, tok + rest, Spaces);
    assert s[|pre|..] == tok + rest;
    TokenLengthOf(tok, rest);
    assert s[|pre|..|pre| + |tok|] == tok;
    assert s[|pre| + |tok|..] == rest;
  }

  /** Two tokens with whitespace between them split into those two tokens. */
  lemma SplitWhitespaceTwo(a: string, gap: string, b: string)
    requires a != [] && forall i | 0 <= i < |a| :: !IsSpace(a[i])
    requires gap != [] && forall i | 0 <= i < |gap| :: IsSpace(gap[i])
    requires b != [] && forall i | 0 <= i < |b| :: !IsSpace(b[i])
    ensures SplitWhitespace(a + gap + b) == [a, b]
  {
    SplitWhitespaceLast(gap, b);
    SplitWhitespaceHead(a, gap + b);
    assert a + gap + b == a + (gap + b);
  }

  /** A token at the very front is the first piece. */
  lemma SplitWhitespaceHead(tok: string, rest: string)
    requires tok != [] && forall i | 0 <= i < |tok| :: !IsSpace(tok[i])
    requires rest == [] || IsSpace(rest[0])
    ensures SplitWhitespace(tok + rest) == [tok] + SplitWhitespace(rest)
  {
    var s := tok + rest;
    assert LeadingIn(s, Spaces) == 0 by {
      assert s[0] == tok[0];
    }
    TokenLengthOf(tok, rest);
    assert s[0..|tok|] == tok;
    assert s[|tok|..] == rest;
  }

  /** Whitespace followed by one token splits into that token. */
  lemma SplitWhitespaceLast(gap: string, tok: string)
    requires forall i | 0 <= i < |gap| :: IsSpace(gap[i])
    requires tok != [] && forall i | 0 <= i < |tok| :: !IsSpace(tok[i])
    ensures SplitWhitespace(gap + tok) == [tok]
  {
    var empty: string := [];
    SplitWhitespaceCons(gap, tok, empty);
    SplitWhitespaceBlank(empty);
    assert gap + tok + empty == gap + tok;
  }

  /** Whitespace alone splits into nothing. */
  lemma SplitWhitespaceBlank(pre: string)
    requires forall i | 0 <= i < |pre| :: IsSpace(pre[i])
    ensures SplitWhitespace(pre) == []
  {
    LeadingPadded(pre, [], Spaces);
    assert pre + [] == pre;
  }

  /** With cuts left, `split(None, n)` takes the next token off the front. */
  lemma SplitWhitespaceMaxCons(pre: string, tok: string, rest: string, maxsplit: nat)
    requires forall i | 0 <= i < |pre| :: IsSpace(pre[i])
    requires tok != [] && forall i | 0 <= i < |tok| :: !IsSpace(tok[i])
    requires rest == [] || IsSpace(rest[0])
    requires maxsplit > 0
    ensures SplitWhitespaceMax(pre + tok + rest, maxsplit) == [tok] + SplitWhitespaceMax(rest, maxsplit - 1)
  {
    var s := pre + tok + rest;
    assert s == pre + (tok + rest);
    LeadingPadded(pre, tok + rest, Spaces);
    assert s[|pre|..] == tok + rest;
    TokenLengthOf(tok, rest);
    assert s[|pre|..|pre| + |tok|] == tok;
    assert s[|pre| + |tok|..] == rest;
  }

  /** With cuts left, a token at the very front is the first piece of `split(None, n)`. */
  lemma SplitWhitespaceMaxHead(tok: string, rest: string, maxsplit: nat)
    requires tok != [] && forall i | 0 <= i < |tok| :: !IsSpace(tok[i])
    requires rest == [] || IsSpace(rest[0])
    requires maxsplit > 0
    ensures SplitWhitespaceMax(tok + rest, maxsplit) == [tok] + SplitWhitespaceMax(rest, maxsplit - 1)
  {
    var empty: string := [];
    assert empty + tok + rest == tok + rest;
    SplitWhitespaceMaxCons(empty, tok, rest, maxsplit);
  }

  /** With no cuts left, `split(None, 0)` keeps the rest after the leading whitespace. */
  lemma SplitWhitespaceMaxLast(pre: string, s: string)
    requires forall i | 0 <= i < |pre| :: IsSpace(pre[i])
    requires s != [] && !IsSpace(s[0])
    ensures SplitWhitespaceMax(pre + s, 0) == [s]
  {
    LeadingPadded(pre, s, Spaces);
    assert (pre + s)[|pre|..] == s;
  }

  /** Index of the first line break in `s`, or `|s|`. */
  function BreakIndex(s: string): (i: nat)
    ensures i <= |s|
    ensures forall j | 0 <= j < i :: !IsLineBreak(s[j])
    ensures i < |s| ==> IsLineBreak(s[i])
  {
    if s == [] || IsLineBreak(s[0]) then 0 else 1 + BreakIndex(s[1..])
  }

  /** `str.splitlines()`: `\r\n` is one break and a final break adds no empty line. */
  function Lines(s: string): (r: seq<string>)
    ensures forall k | 0 <= k < |r| :: forall c | c in r[k] :: !IsLineBreak(c)
    ensures s == [] <==> r == []
    decreases |s|
  {
    if s == [] then []
    else
      var i := BreakIndex(s);
      if i == |s| then [s]
      else
        var width := if s[i] == '\r' && i + 1 < |s| && s[i + 1] == '\n' then 2 else 1;
        [s[..i]] + Lines(s[i + width..])
  }

  // ---------------------------------------------------------------------------
  // Slicing

  /** A slice bound as Python reads it: negative counts from the end, then clamped to the string. */
  function SliceBound(i: int, n: nat): (b: nat)
    ensures b <= n
    ensures 0 <= i <= n ==> b == i
    ensures i > n ==> b == n
    ensures i < 0 && i + n >= 0 ==> b == i + n
    ensures i + n < 0 ==> b == 0
  {
    if i < 0 then (if i + n < 0 then 0 else i + n) else if i > n then n else i
  }

  /** `s[a:b]`. */
  function PySlice(s: string, a: int, b: int): (r: string)
    ensures OccursAt(s, r, SliceBound(a, |s|))
    ensures |r| == if SliceBound(a, |s|) < SliceBound(b, |s|) then SliceBound(b, |s|) - SliceBound(a, |s|) else 0
  {
    var lo, hi := SliceBound(a, |s|), SliceBound(b, |s|);
    if lo < hi then s[lo..hi] else []
  }

  // ---------------------------------------------------------------------------
  // Integers

  predicate IsDigits(s: string) {
    |s| > 0 && forall i | 0 <= i < |s| :: IsDigit(s[i])
  }

  function DigitValue(c: char): nat
    requires IsDigit(c)
  {
    c as int - '0' as int
  }

  function DigitChar(d: nat): (c: char)
    requires d < 10
    ensures IsDigit(c) && DigitValue(c) == d
  {
    ('0' as int + d) as char
  }

  /** The value of a string of decimal digits, most significant first. */
  function DigitsValue(s: string): nat
    requires forall i | 0 <= i < |s| :: IsDigit(s[i])
  {
    if s == [] then 0 else DigitsValue(s[..|s| - 1]) * 10 + DigitValue(s[|s| - 1])
  }

  /** Decimal rendering of a natural number (`str(n)`). */
  function NatToString(n: nat): (r: string)
    ensures IsDigits(r)
  {
    if n < 10 then [DigitChar(n)] else NatToString(n / 10) + [DigitChar(n % 10)]
  }

  /** `str(i)` for an integer. */
  function IntToString(i: int): string {
    if i < 0 then "-" + NatToString(-i) else NatToString(i)
  }

  /** Python's `int(s)`: surrounding whitespace, an optional sign, then decimal digits. */
  function ParseInt(s: string): Option<int> {
    var t := Strip(s);
    if |t| > 0 && (t[0] == '-' || t[0] == '+') then
      if IsDigits(t[1..]) then
        var v: int := DigitsValue(t[1..]);
        Some(if t[0] == '-' then -v else v)
      else None
    else if IsDigits(t) then Some(DigitsValue(t))
    else None
  }

  lemma {:induction false} NatToStringValue(n: nat)
    ensures DigitsValue(NatToString(n)) == n
    decreases n
  {
    var s := NatToString(n);
    if n >= 10 {
      NatToStringValue(n / 10);
      assert s[..|s| - 1] == NatToString(n / 10);
    }
  }

  /** `int(str(i)) == i`: decimal rendering and parsing are inverse. */
  lemma IntToStringRoundTrip(i: int)
    ensures ParseInt(IntToString(i)) == Some(i)
  {
    var s := IntToString(i);
    var n: nat := if i < 0 then -i else i;
    var digits := NatToString(n);
    assert DigitsValue(digits) == n by {
      NatToStringValue(n);
    }
    assert Strip(s) == s by {
      assert digits[|digits| - 1] == s[|s| - 1];
      assert IsDigit(digits[|digits| - 1]);
      assert IsDigit(digits[0]);
    }
    if i < 0 {
      assert s == "-" + digits;
      assert s[1..] == digits;
    } else {
      assert s == digits;
    }
  }

  lemma NatToStringInjective(a: nat, b: nat)
    requires NatToString(a) == NatToString(b)
    ensures a == b
  {
    NatToStringValue(a);
    NatToStringValue(b);
  }

  /** Left-pad `s` with `0` up to `width` characters. */
  function ZeroPad(s: string, width: nat): (r: string)
    ensures |r| == if |s| >= width then |s| else width
    ensures EndsWith(r, s)
    ensures forall i | 0 <= i < |r| - |s| :: r[i] == '0'
  {
    if |s| >= width then s else seq(width - |s|, _ => '0') + s
  }

  // ---------------------------------------------------------------------------
  // Ordering

  /** Python's `<` on strings: lexicographic by code point. */
  predicate StrLess(a: string, b: string) {
    if a == [] then b != []
    else if b == [] then false
    else if a[0] != b[0] then a[0] < b[0]
    else StrLess(a[1..], b[1..])
  }

  lemma {:induction false} StrLessIrreflexive(a: string)
    ensures !StrLess(a, a)
  {
    if a != [] {
      StrLessIrreflexive(a[1..]);
    }
  }

  lemma {:induction false} StrLessTransitive(a: string, b: string, c: string)
    requires StrLess(a, b) && StrLess(b, c)
    ensures StrLess(a, c)
  {
    if a != [] && b != [] && c != [] && a[0] == b[0] && b[0] == c[0] {
      StrLessTransitive(a[1..], b[1..], c[1..]);
    }
  }

  lemma {:induction false} StrLessTotal(a: string, b: string)
    requires a != b
    ensures StrLess(a, b) || StrLess(b, a)
  {
    if a != [] && b != [] && a[0] == b[0] {
      assert a == [a[0]] + a[1..] && b == [b[0]] + b[1..];
      StrLessTotal(a[1..], b[1..]);
    }
  }
}
