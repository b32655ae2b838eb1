/**
 * `sanitize_cache_name` / `_sanitize` and the screenshot file name that
 * `capture_screenshot` derives from the ready-flag payload.
 */
module CacheNames {
  import opened Wrappers
  import opened Text
  import opened JsonValues

  /** A character `_sanitize` keeps as it is: alphanumeric or one of `.`, `-`, `_`. */
  predicate IsSafeChar(c: char) {
    IsAlnum(c) || c == '.' || c == '-' || c == '_'
  }

  predicate AllSafe(s: string) {
    forall i | 0 <= i < |s| :: IsSafeChar(s[i])
  }

  /** No two adjacent `c`s. */
  predicate NoRun(s: string, c: char) {
    forall i | 0 <= i < |s| - 1 :: !(s[i] == c && s[i + 1] == c)
  }

  /** The characters `_sanitize` trims from both ends. */
  const EdgeChars: CharClass := Chars({'_', '.'})

  /** What `_sanitize` can return: safe characters, no `__` or `..`, no `_`/`.` at either end. */
  predicate IsSanitized(s: string) {
    && AllSafe(s)
    && NoRun(s, '_')
    && NoRun(s, '.')
    && (s != [] ==> !InClass(s[0], EdgeChars) && !InClass(s[|s| - 1], EdgeChars))
  }

  /** Every unsafe character, whitespace included, becomes `_`. */
  function MapUnsafe(s: string): (r: string)
    ensures |r| == |s| && AllSafe(r)
    ensures forall i | 0 <= i < |s| :: IsSafeChar(s[i]) ==> r[i] == s[i]
    ensures forall i | 0 <= i < |s| :: !IsSafeChar(s[i]) ==> r[i] == '_'
  {
    seq(|s|, i requires 0 <= i < |s| => if IsSafeChar(s[i]) then s[i] else '_')
  }

  /** `re.sub(c + "+", c, s)`: every run of `c` becomes one `c`. */
  function Collapse(s: string, c: char): (r: string)
    ensures |r| <= |s|
    ensures NoRun(r, c)
    ensures s != [] ==> r != [] && r[0] == s[0] && r[|r| - 1] == s[|s| - 1]
    ensures AllSafe(s) ==> AllSafe(r)
  {
    if |s| <= 1 then s
    else if s[0] == c && s[1] == c then Collapse(s[1..], c)
    else [s[0]] + Collapse(s[1..], c)
  }

  /** A string without a run of `c` has none after its first character either. */
  lemma NoRunTail(s: string, c: char)
    requires s != [] && NoRun(s, c)
    ensures NoRun(s[1..], c)
  {
    forall i | 0 <= i < |s[1..]| - 1
      ensures !(s[1..][i] == c && s[1..][i + 1] == c)
    {
      assert s[1..][i] == s[i + 1] && s[1..][i + 1] == s[i + 2];
    }
  }

  /** Collapsing runs of one character leaves no new run of another. */
  lemma {:induction false} CollapseKeepsNoRun(s: string, c: char, d: char)
    requires c != d && NoRun(s, d)
    ensures NoRun(Collapse(s, c), d)
    decreases |s|
  {
    if |s| > 1 {
      NoRunTail(s, d);
      CollapseKeepsNoRun(s[1..], c, d);
    }
  }

  /** Collapsing is the identity where there is no run to collapse. */
  lemma {:induction false} CollapseNoRun(s: string, c: char)
    requires NoRun(s, c)
    ensures Collapse(s, c) == s
    decreases |s|
  {
    if |s| > 1 {
      NoRunTail(s, c);
      CollapseNoRun(s[1..], c);
      assert !(s[0] == c && s[1] == c);
      assert Collapse(s, c) == [s[0]] + Collapse(s[1..], c);
      assert s == [s[0]] + s[1..];
    }
  }

  /** A contiguous piece of a string keeps its safety and run-freedom. */
  lemma PieceKeeps(s: string, r: string, k: int)
    requires OccursAt(s, r, k)
    ensures AllSafe(s) ==> AllSafe(r)
    ensures NoRun(s, '_') ==> NoRun(r, '_')
    ensures NoRun(s, '.') ==> NoRun(r, '.')
  {
    assert forall i | 0 <= i < |r| :: r[i] == s[k + i];
  }

  /** `_sanitize`. */
  function Sanitize(value: string): (r: string)
    ensures IsSanitized(r)
    ensures |r| <= |value|
  {
    if value == [] then []
    else
      var mapped := MapUnsafe(value);
      var single := Collapse(Collapse(mapped, '_'), '.');
      CollapseKeepsNoRun(Collapse(mapped, '_'), '.', '_');
      var r := StripIn(single, EdgeChars);
      PieceKeeps(single, r, LeadingIn(single, EdgeChars));
      r
  }

  /** A sanitized, non-empty value is its own sanitization. */
  lemma SanitizeFixes(s: string)
    requires IsSanitized(s) && s != []
    ensures Sanitize(s) == s
  {
    assert MapUnsafe(s) == s;
    CollapseNoRun(s, '_');
    CollapseNoRun(s, '.');
    StripInFixed(s, EdgeChars);
  }

  /** `_sanitize` is idempotent. */
  lemma SanitizeIdempotent(value: string)
    ensures Sanitize(Sanitize(value)) == Sanitize(value)
  {
    if Sanitize(value) != [] {
      SanitizeFixes(Sanitize(value));
    }
  }

  /** The name used when neither the value nor the fallback leaves anything. */
  const DefaultDocument: string := "document"

  lemma DefaultDocumentSanitized()
    ensures IsSanitized(DefaultDocument) && DefaultDocument != []
  {
  }

  lemma DefaultDocumentFixed()
    ensures Sanitize(Strip(DefaultDocument)) == DefaultDocument
  {
    DefaultDocumentSanitized();
    SanitizedTrimmed(DefaultDocument);
    SanitizeFixes(DefaultDocument);
  }

  /** `sanitize_cache_name(value, fallback)`. */
  function SanitizeCacheName(value: string, fallback: Option<string>): (r: string)
    ensures IsSanitized(r) && r != []
    ensures Sanitize(Strip(value)) != [] ==> r == Sanitize(Strip(value))
    ensures Sanitize(Strip(value)) == [] && fallback.Some? && Sanitize(Strip(fallback.value)) != [] ==>
      r == Sanitize(Strip(fallback.value))
    ensures Sanitize(Strip(value)) == [] && (fallback.None? || Sanitize(Strip(fallback.value)) == []) ==> r == DefaultDocument
  {
    DefaultDocumentSanitized();
    var sanitized := Sanitize(Strip(value));
    if sanitized != [] then sanitized
    else if fallback.Some? && fallback.value != [] then
      var fromFallback := Sanitize(Strip(fallback.value));
      if fromFallback != [] then fromFallback else DefaultDocument
    else DefaultDocument
  }

  /** A sanitized name has no whitespace at its ends. */
  lemma SanitizedTrimmed(s: string)
    requires IsSanitized(s) && s != []
    ensures Strip(s) == s
  {
    StripTrimmed(s);
  }

  /** Sanitizing a cache name again changes nothing, whatever the fallback. */
  lemma SanitizeCacheNameIdempotent(value: string, fallback: Option<string>, fallback2: Option<string>)
    ensures var once := SanitizeCacheName(value, fallback);
      SanitizeCacheName(once, fallback2) == once
  {
    var once := SanitizeCacheName(value, fallback);
    SanitizedTrimmed(once);
    SanitizeFixes(once);
  }

  // ---------------------------------------------------------------------------
  // Capture file names

  /** `f"{n:04d}"`: at least four characters, zero-padded after any sign. */
  function PageText(n: int): (r: string)
    ensures |r| >= 4
  {
    var magnitude: nat := if n < 0 then -n else n;
    if n < 0 then ['-'] + ZeroPad(NatToString(magnitude), 3) else ZeroPad(NatToString(magnitude), 4)
  }

  lemma {:induction false} DigitsValueLeadingZero(s: string)
    requires forall i | 0 <= i < |s| :: IsDigit(s[i])
    ensures DigitsValue("0" + s) == DigitsValue(s)
    decreases |s|
  {
    if s != [] {
      var t := "0" + s;
      assert t[..|t| - 1] == "0" + s[..|s| - 1];
      DigitsValueLeadingZero(s[..|s| - 1]);
    }
  }

  lemma {:induction false} DigitsValueZeros(k: nat, s: string)
    requires forall i | 0 <= i < |s| :: IsDigit(s[i])
    ensures var z := seq(k, _ => '0') + s;
      (forall i | 0 <= i < |z| :: IsDigit(z[i])) && DigitsValue(z) == DigitsValue(s)
    decreases k
  {
    if k == 0 {
      assert seq(k, _ => '0') + s == s;
    } else {
      DigitsValueZeros(k - 1, s);
      var rest := seq(k - 1, _ => '0') + s;
      assert seq(k, _ => '0') + s == "0" + rest;
      DigitsValueLeadingZero(rest);
    }
  }

  lemma ZeroPadValue(n: nat, width: nat)
    ensures IsDigits(ZeroPad(NatToString(n), width))
    ensures DigitsValue(ZeroPad(NatToString(n), width)) == n
  {
    var s := NatToString(n);
    NatToStringValue(n);
    if |s| < width {
      DigitsValueZeros(width - |s|, s);
    }
  }

  /** `int()` of a plain digit string is its value. */
  lemma ParseDigits(t: string)
    requires IsDigits(t)
    ensures ParseInt(t) == Some(DigitsValue(t))
  {
    assert !IsSpace(t[0]) && !IsSpace(t[|t| - 1]);
    StripTrimmed(t);
  }

  /** `int()` of `-` followed by digits is the negated value. */
  lemma ParseNegativeDigits(t: string, digits: string)
    requires IsDigits(digits) && t == ['-'] + digits
    ensures ParseInt(t) == Some(-(DigitsValue(digits) as int))
  {
    assert !IsSpace(t[0]) && t[|t| - 1] == digits[|digits| - 1] && !IsSpace(t[|t| - 1]);
    StripTrimmed(t);
    assert t[1..] == digits;
  }

  /** `int(f"{n:04d}") == n`: the page text names the page number it was made from. */
  lemma PageTextRoundTrip(n: int)
    ensures ParseInt(PageText(n)) == Some(n)
  {
    var m: nat := if n < 0 then -n else n;
    var width := if n < 0 then 3 else 4;
    ZeroPadValue(m, width);
    if n < 0 {
      ParseNegativeDigits(PageText(n), ZeroPad(NatToString(m), width));
    } else {
      ParseDigits(PageText(n));
    }
  }

  /**
   * `data.get("sanitizedDocumentId") or data.get("documentId") or "document"`,
   * rendered with `str()`.
   */
  function DocumentId(fields: map<string, Json>, render: Json -> string): string {
    var sanitizedId := Get(fields, "sanitizedDocumentId");
    var documentId := Get(fields, "documentId");
    if Truthy(sanitizedId) then PyStr(sanitizedId, render)
    else if Truthy(documentId) then PyStr(documentId, render)
    else DefaultDocument
  }

  /** `str(data.get("documentId", "document"))`: a present `null` renders as `None`. */
  function FallbackId(fields: map<string, Json>, render: Json -> string): string {
    if "documentId" in fields then PyStr(fields["documentId"], render) else DefaultDocument
  }

  /**
   * `int(data.get("pageNumber") or (int(data.get("pageIndex", 0)) + 1))`;
   * a failure is the `ValueError`/`TypeError` that `int()` raises.
   */
  function PageNumber(fields: map<string, Json>): (r: Option<int>)
    ensures Truthy(Get(fields, "pageNumber")) ==> r == PyInt(fields["pageNumber"])
    ensures !Truthy(Get(fields, "pageNumber")) && "pageIndex" !in fields ==> r == Some(1)
    ensures !Truthy(Get(fields, "pageNumber")) && "pageIndex" in fields && PyInt(fields["pageIndex"]).Some? ==>
      r == Some(PyInt(fields["pageIndex"]).value + 1)
  {
    var pageNumber := Get(fields, "pageNumber");
    if Truthy(pageNumber) then PyInt(pageNumber)
    else
      var pageIndex := if "pageIndex" in fields then fields["pageIndex"] else JInt(0);
      match PyInt(pageIndex)
      case Some(i) => Some(i + 1)
      case None => None
  }

  /** The file name parts a capture is stored under. */
  datatype CaptureName = CaptureName(document: string, page: int)

  /** `<document>_page<NNNN>.png`. */
  function FileName(c: CaptureName): (r: string)
    ensures StartsWith(r, c.document) && EndsWith(r, ".png")
  {
    c.document + "_page" + PageText(c.page) + ".png"
  }

  /**
   * The name `capture_screenshot` stores the screenshot under. A payload that
   * is not JSON is read as `{"status": payload}`; a payload that is JSON but
   * not an object raises `AttributeError` at `data.get`.
   */
  function CaptureFileName(payload: string, decode: string -> Option<Json>, render: Json -> string): (r: Result<CaptureName, string>)
    ensures r.Success? ==> IsSanitized(r.value.document) && r.value.document != []
    ensures decode(payload).Some? && !decode(payload).value.JObject? ==> r == Failure("AttributeError")
    ensures decode(payload).Some? && decode(payload).value.JObject? ==>
      (r.Success? <==> PageNumber(decode(payload).value.fields).Some?)
    ensures decode(payload).Some? && decode(payload).value.JObject? && r.Success? ==>
      var fields := decode(payload).value.fields;
      && r.value.page == PageNumber(fields).value
      && r.value.document == SanitizeCacheName(DocumentId(fields, render), Some(FallbackId(fields, render)))
  {
    var data := match decode(payload)
      case None => JObject(map["status" := JString(payload)])
      case Some(j) => j;
    if !data.JObject? then Failure("AttributeError")
    else
      var fields := data.fields;
      var document := SanitizeCacheName(DocumentId(fields, render), Some(FallbackId(fields, render)));
      match PageNumber(fields)
      case None => Failure("ValueError")
      case Some(page) => Success(CaptureName(document, page))
  }

  /** The page part of a capture's file name reads back as its page number. */
  lemma FileNamePage(c: CaptureName)
    ensures var r := FileName(c);
      r[|c.document| + 5..|r| - 4] == PageText(c.page) && ParseInt(PageText(c.page)) == Some(c.page)
  {
    PageTextRoundTrip(c.page);
  }

  /**
   * For a JSON object whose page number reads, the stored file name starts
   * with the sanitized document id and its page part reads back as that
   * page number.
   */
  lemma CaptureFileNameOfObject(payload: string, decode: string -> Option<Json>, render: Json -> string,
                                fields: map<string, Json>)
    requires decode(payload) == Some(JObject(fields)) && PageNumber(fields).Some?
    ensures CaptureFileName(payload, decode, render).Success?
    ensures var c := CaptureFileName(payload, decode, render).value;
      var name := FileName(c);
      && StartsWith(name, SanitizeCacheName(DocumentId(fields, render), Some(FallbackId(fields, render))))
      && ParseInt(name[|c.document| + 5..|name| - 4]) == PageNumber(fields)
  {
    FileNamePage(CaptureFileName(payload, decode, render).value);
  }

  /** A payload that is not JSON names the default document, page 1. */
  lemma NonJsonPayload(payload: string, decode: string -> Option<Json>, render: Json -> string)
    requires decode(payload).None?
    ensures CaptureFileName(payload, decode, render) == Success(CaptureName(DefaultDocument, 1))
  {
    DefaultDocumentFixed();
  }

  /** Where the character mapping alone yields a sanitized value, that is the result. */
  lemma SanitizeOfMapped(value: string, w: string)
    requires value != [] && MapUnsafe(value) == w
    requires IsSanitized(w) && w != []
    ensures Sanitize(value) == w
  {
    SanitizeFixes(w);
    assert MapUnsafe(w) == w;
  }

  lemma JoinedWordsSanitized(a: string, b: string)
    requires a != [] && b != []
    requires forall i | 0 <= i < |a| :: IsAlnum(a[i])
    requires forall i | 0 <= i < |b| :: IsAlnum(b[i])
    ensures IsSanitized(a + ['_'] + b)
  {
    var w := a + ['_'] + b;
    assert forall i | 0 <= i < |w| :: w[i] == '_' || IsAlnum(w[i]);
    forall i | 0 <= i < |w| - 1
      ensures !(w[i] == '_' && w[i + 1] == '_')
    {
      if i < |a| {
        assert w[i] == a[i];
      } else {
        assert w[i + 1] == b[i - |a|];
      }
    }
  }

  /** Two words joined by a space sanitize to the words joined by `_`. */
  lemma SanitizeJoinsWords(value: string, a: string, b: string)
    requires value == a + [' '] + b
    requires a != [] && b != []
    requires forall i | 0 <= i < |a| :: IsAlnum(a[i])
    requires forall i | 0 <= i < |b| :: IsAlnum(b[i])
    ensures Strip(value) == value
    ensures Sanitize(value) == a + ['_'] + b
  {
    var w := a + ['_'] + b;
    assert value[0] == a[0] && value[|value| - 1] == b[|b| - 1];
    StripTrimmed(value);
    assert MapUnsafe(value) == w;
    JoinedWordsSanitized(a, b);
    SanitizeOfMapped(value, w);
  }

  /** A document id of two words and a page index are stored under `<word>_<word>` and the next page. */
  lemma CaptureOfWords(payload: string, decode: string -> Option<Json>, render: Json -> string,
                       fields: map<string, Json>, a: string, b: string, index: int)
    requires decode(payload) == Some(JObject(fields))
    requires Get(fields, "sanitizedDocumentId") == JNull && Get(fields, "pageNumber") == JNull
    requires Get(fields, "documentId") == JString(a + [' '] + b)
    requires "pageIndex" in fields && fields["pageIndex"] == JInt(index)
    requires a != [] && b != []
    requires forall i | 0 <= i < |a| :: IsAlnum(a[i])
    requires forall i | 0 <= i < |b| :: IsAlnum(b[i])
    ensures CaptureFileName(payload, decode, render) == Success(CaptureName(a + ['_'] + b, index + 1))
  {
    SanitizeJoinsWords(a + [' '] + b, a, b);
    assert DocumentId(fields, render) == a + [' '] + b;
    PageFromIndex(fields, index);
  }

  /** Without a page number, the page is the page index plus one. */
  lemma PageFromIndex(fields: map<string, Json>, index: int)
    requires Get(fields, "pageNumber") == JNull
    requires "pageIndex" in fields && fields["pageIndex"] == JInt(index)
    ensures PageNumber(fields) == Some(index + 1)
  {
  }

  const SampleCapture: map<string, Json> := map["documentId" := JString("Doc 1"), "pageIndex" := JInt(0)]

  lemma SampleCaptureFields()
    ensures Get(SampleCapture, "sanitizedDocumentId") == JNull && Get(SampleCapture, "pageNumber") == JNull
    ensures Get(SampleCapture, "documentId") == JString("Doc" + [' '] + "1")
    ensures "pageIndex" in SampleCapture && SampleCapture["pageIndex"] == JInt(0)
  {
    assert "Doc" + [' '] + "1" == "Doc 1";
  }

  lemma SampleWords()
    ensures forall i | 0 <= i < |"Doc"| :: IsAlnum("Doc"[i])
    ensures forall i | 0 <= i < |"1"| :: IsAlnum("1"[i])
    ensures "Doc" + ['_'] + "1" == "Doc_1"
  {
  }

  /** `{"documentId": "Doc 1", "pageIndex": 0}` is stored as `Doc_1_page0001.png`. */
  lemma CaptureScenario(decode: string -> Option<Json>, render: Json -> string, payload: string)
    requires decode(payload) == Some(JObject(SampleCapture))
    ensures CaptureFileName(payload, decode, render) == Success(CaptureName("Doc_1", 1))
  {
    SampleCaptureFields();
    SampleWords();
    CaptureOfWords(payload, decode, render, SampleCapture, "Doc", "1", 0);
  }

  lemma FileNameScenario()
    ensures FileName(CaptureName("Doc_1", 1)) == "Doc_1_page0001.png"
  {
    assert NatToString(1) == "1";
  }
}
