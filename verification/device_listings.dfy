/**
 * The device listings the screenshot script reads: `ps` output (to find
 * lingering instrumentation processes), `pm list instrumentation` output
 * (the installed components) and `dumpsys package` output (the package an
 * instrumentation targets). Each reader works on the lines of the output.
 */
module DeviceListings {
  import opened Wrappers
  import opened Text

  // ---------------------------------------------------------------------------
  // `ps` output

  /** A header row: its upper-cased text starts with `PID` or `USER`. */
  predicate IsHeaderRow(stripped: string) {
    StartsWith(Upper(stripped), "PID") || StartsWith(Upper(stripped), "USER")
  }

  /** A row's pid and name from its columns, `split(None, 2)` of the stripped row. */
  function ProcessOfColumns(parts: seq<string>): (r: Option<(string, string)>)
    requires forall k | 0 <= k < |parts| :: parts[k] != [] && !IsSpace(parts[k][0])
    ensures r.Some? ==> r.value.0 != [] && Strip(r.value.1) == r.value.1
    ensures r.Some? <==> |parts| >= 3 && Strip(parts[2]) != []
  {
    if |parts| < 3 then None
    else
      var pid, name := Strip(parts[0]), Strip(parts[2]);
      StripIdempotent(parts[2]);
      assert pid != [] by {
        assert !IsSpace(parts[0][0]);
      }
      if pid != [] && name != [] then Some((pid, name)) else None
  }

  /**
   * One row of `_parse_process_listing`: the first and third whitespace
   * separated columns, the third running to the end of the row.
   */
  function ProcessOfLine(line: string): (r: Option<(string, string)>)
    ensures r.Some? ==> r.value.0 != [] && Strip(r.value.1) == r.value.1
    ensures Strip(line) == [] || IsHeaderRow(Strip(line)) ==> r.None?
  {
    var stripped := Strip(line);
    if stripped == [] || IsHeaderRow(stripped) then None
    else ProcessOfColumns(SplitWhitespaceMax(stripped, 2))
  }

  /** `_parse_process_listing` over the lines of the output: (pid, name) per process row. */
  function ParseProcessListing(lines: seq<string>): (r: seq<(string, string)>)
    ensures |r| <= |lines|
    ensures forall k | 0 <= k < |r| :: exists i | 0 <= i < |lines| :: ProcessOfLine(lines[i]) == Some(r[k])
    ensures forall i | 0 <= i < |lines| && ProcessOfLine(lines[i]).Some? :: ProcessOfLine(lines[i]).value in r
  {
    FilterMap(lines, ProcessOfLine)
  }

  /** The three columns of a `pid user name` row. */
  lemma RowColumns(pid: string, user: string, name: string)
    requires pid != [] && forall i | 0 <= i < |pid| :: !IsSpace(pid[i])
    requires user != [] && forall i | 0 <= i < |user| :: !IsSpace(user[i])
    requires name != [] && !IsSpace(name[0])
    ensures SplitWhitespaceMax(pid + " " + user + " " + name, 2) == [pid, user, name]
  {
    var afterPid := " " + user + " " + name;
    RowAfterPid(pid, user, name);
    assert afterPid[0] == ' ';
    SplitWhitespaceMaxHead(pid, afterPid, 2);
    TailColumns(user, name);
  }

  lemma RowAfterPid(pid: string, user: string, name: string)
    ensures pid + " " + user + " " + name == pid + (" " + user + " " + name)
  {
  }

  /** The `user name` tail of a row, after the pid's separator. */
  lemma TailColumns(user: string, name: string)
    requires user != [] && forall i | 0 <= i < |user| :: !IsSpace(user[i])
    requires name != [] && !IsSpace(name[0])
    ensures SplitWhitespaceMax(" " + user + " " + name, 1) == [user, name]
  {
    var afterUser := " " + name;
    assert " " + user + " " + name == " " + user + afterUser;
    SplitWhitespaceMaxLast(" ", name);
    SplitWhitespaceMaxCons(" ", user, afterUser, 1);
  }

  lemma DigitsNoSpace(s: string)
    requires IsDigits(s)
    ensures forall i | 0 <= i < |s| :: !IsSpace(s[i])
  {
    assert forall i | 0 <= i < |s| :: IsDigit(s[i]);
  }

  /** A row starting with a digit is not a header. */
  lemma DigitRowNotHeader(row: string)
    requires row != [] && IsDigit(row[0])
    ensures !IsHeaderRow(row)
  {
    assert Upper(row)[0] == row[0];
  }

  lemma RowTrimmed(pid: string, user: string, name: string)
    requires pid != [] && !IsSpace(pid[0])
    requires name != [] && !IsSpace(name[|name| - 1])
    ensures Strip(pid + " " + user + " " + name) == pid + " " + user + " " + name
  {
    var line := pid + " " + user + " " + name;
    assert line[0] == pid[0] && line[|line| - 1] == name[|name| - 1];
    StripTrimmed(line);
  }

  lemma ColumnsOf(pid: string, user: string, name: string)
    requires pid != [] && forall i | 0 <= i < |pid| :: !IsSpace(pid[i])
    requires user != [] && !IsSpace(user[0])
    requires name != [] && !IsSpace(name[0]) && !IsSpace(name[|name| - 1])
    ensures ProcessOfColumns([pid, user, name]) == Some((pid, name))
  {
    StripTrimmed(pid);
    StripTrimmed(name);
  }

  /** A trimmed, non-header row reads as its columns do. */
  lemma TrimmedRow(row: string, p: (string, string))
    requires row != [] && Strip(row) == row && !IsHeaderRow(row)
    requires ProcessOfColumns(SplitWhitespaceMax(row, 2)) == Some(p)
    ensures ProcessOfLine(row) == Some(p)
  {
  }

  /** A row `pid user name` of a numeric pid gives back the pid and the name. */
  lemma ProcessRowOf(pid: string, user: string, name: string)
    requires pid != [] && IsDigits(pid)
    requires user != [] && forall i | 0 <= i < |user| :: !IsSpace(user[i])
    requires name != [] && !IsSpace(name[0]) && !IsSpace(name[|name| - 1])
    ensures ProcessOfLine(pid + " " + user + " " + name) == Some((pid, name))
  {
    var line := pid + " " + user + " " + name;
    DigitsNoSpace(pid);
    RowTrimmed(pid, user, name);
    DigitRowNotHeader(line);
    RowColumns(pid, user, name);
    ColumnsOf(pid, user, name);
    TrimmedRow(line, (pid, name));
  }

  // ---------------------------------------------------------------------------
  // `pm list instrumentation` output

  const InstrumentationPrefix := "instrumentation:"

  /** The component a `instrumentation:<component> (target=…)` line names, if any. */
  function ComponentOfLine(line: string): (r: Option<string>)
    ensures r.Some? ==> r.value != [] && Strip(r.value) == r.value && !Contains(r.value, " ")
    ensures !StartsWith(Strip(line), InstrumentationPrefix) ==> r.None?
  {
    var stripped := Strip(line);
    if !StartsWith(stripped, InstrumentationPrefix) then None
    else
      var candidate := Strip(Before(stripped[|InstrumentationPrefix|..], " "));
      StripIdempotent(Before(stripped[|InstrumentationPrefix|..], " "));
      if candidate == [] then None
      else
        PieceNotContains(Before(stripped[|InstrumentationPrefix|..], " "), candidate,
                         LeadingIn(Before(stripped[|InstrumentationPrefix|..], " "), Spaces), " ");
        Some(candidate)
  }

  /** `_extract_instrumentation_components`: the components, in listing order. */
  function ExtractInstrumentationComponents(lines: seq<string>): (r: seq<string>)
    ensures |r| <= |lines|
    ensures forall k | 0 <= k < |r| :: exists i | 0 <= i < |lines| :: ComponentOfLine(lines[i]) == Some(r[k])
    ensures forall i | 0 <= i < |lines| && ComponentOfLine(lines[i]).Some? :: ComponentOfLine(lines[i]).value in r
  {
    FilterMap(lines, ComponentOfLine)
  }

  /** The line `pm` prints for a component, `instrumentation:<component> (target=…)`, gives the component back. */
  lemma ComponentLineOf(component: string, rest: string)
    requires component != [] && forall i | 0 <= i < |component| :: !IsSpace(component[i])
    requires rest != [] && !IsSpace(rest[|rest| - 1])
    ensures ComponentOfLine(InstrumentationPrefix + component + " " + rest) == Some(component)
  {
    var line := InstrumentationPrefix + component + " " + rest;
    assert Strip(line) == line by {
      StripTrimmed(line);
    }
    assert StartsWith(line, InstrumentationPrefix) by {
      assert line[..|InstrumentationPrefix|] == InstrumentationPrefix;
    }
    assert Before(line[|InstrumentationPrefix|..], " ") == component by {
      assert line[|InstrumentationPrefix|..] == component + " " + rest;
      NoCharNotContains(component, ' ');
      SplitFirstOf(component, rest, " ");
    }
    assert Strip(component) == component by {
      StripTrimmed(component);
    }
  }

  // ---------------------------------------------------------------------------
  // `dumpsys package` output

  const BlockPrefix := "Instrumentation "
  const TargetPrefix := "targetPackage="

  /** What a `dumpsys package` line means to the target search. */
  datatype DumpLine =
    | Header(component: string)   // `Instrumentation <component>:` opens a block
    | Target(package: string)     // `targetPackage=<package>` with a non-blank value
    | Other

  /** The non-blank value of a `targetPackage=<package>` line. */
  function TargetValue(stripped: string): (r: Option<string>)
    ensures r.Some? ==> r.value != [] && Strip(r.value) == r.value
  {
    if StartsWith(stripped, TargetPrefix) && Strip(stripped[|TargetPrefix|..]) != [] then
      StripIdempotent(stripped[|TargetPrefix|..]);
      Some(Strip(stripped[|TargetPrefix|..]))
    else None
  }

  /** A header line wins over everything else, as the loop tests it first. */
  function Classify(line: string): (d: DumpLine)
    ensures d.Target? ==> d.package != [] && Strip(d.package) == d.package
  {
    var stripped := Strip(line);
    if StartsWith(stripped, BlockPrefix) then Header(Before(stripped[|BlockPrefix|..], ":"))
    else match TargetValue(stripped)
      case Some(p) => Target(p)
      case None => Other
  }

  /**
   * The loop of `_extract_instrumentation_target`, `current` being the block
   * it is in: the first target inside a block of `component`.
   */
  function TargetFrom(lines: seq<DumpLine>, current: Option<string>, component: string): (r: Option<string>)
    decreases |lines|
  {
    if lines == [] then None
    else match lines[0]
      case Header(name) => TargetFrom(lines[1..], Some(name), component)
      case Target(p) => if current == Some(component) then Some(p) else TargetFrom(lines[1..], current, component)
      case Other => TargetFrom(lines[1..], current, component)
  }

  /** `_extract_instrumentation_target`: no block is open before the first header. */
  function ExtractInstrumentationTarget(lines: seq<string>, component: string): (r: Option<string>)
    ensures r.Some? ==> r.value != [] && Strip(r.value) == r.value
  {
    var classified := seq(|lines|, i requires 0 <= i < |lines| => Classify(lines[i]));
    TargetIsFirstInBlock(classified, None, component);
    TargetFrom(classified, None, component)
  }

  /** The block a line lies in: that of the last header before it, or `current` when there is none. */
  function OwnerOf(before: seq<DumpLine>, current: Option<string>): Option<string>
    decreases |before|
  {
    if before == [] then current
    else match before[|before| - 1]
      case Header(name) => Some(name)
      case _ => OwnerOf(before[..|before| - 1], current)
  }

  /** Line `i` is a target line inside a block of `component`. */
  predicate TargetOf(lines: seq<DumpLine>, current: Option<string>, component: string, i: int)
    requires 0 <= i < |lines|
  {
    lines[i].Target? && OwnerOf(lines[..i], current) == Some(component)
  }

  /** Peeling the first line off changes the owner only through that line. */
  lemma {:induction false} OwnerOfCons(line: DumpLine, rest: seq<DumpLine>, current: Option<string>)
    ensures OwnerOf([line] + rest, current) == OwnerOf(rest, if line.Header? then Some(line.component) else current)
    decreases |rest|
  {
    if rest != [] {
      var whole := [line] + rest;
      assert whole[..|whole| - 1] == [line] + rest[..|rest| - 1];
      assert whole[|whole| - 1] == rest[|rest| - 1];
      OwnerOfCons(line, rest[..|rest| - 1], current);
    }
  }

  /** Line `i` of `lines` is a target of `component` exactly when line `i - 1` of the tail is, from the next block. */
  lemma TargetOfTail(lines: seq<DumpLine>, current: Option<string>, component: string, i: int)
    requires 1 <= i < |lines|
    ensures TargetOf(lines, current, component, i) ==
      TargetOf(lines[1..], if lines[0].Header? then Some(lines[0].component) else current, component, i - 1)
  {
    assert lines[..i] == [lines[0]] + lines[1..][..i - 1];
    OwnerOfCons(lines[0], lines[1..][..i - 1], current);
  }

  /**
   * The result is the package of the first target line in a block of
   * `component`; with no such line there is none.
   */
  lemma {:induction false} TargetIsFirstInBlock(lines: seq<DumpLine>, current: Option<string>, component: string)
    ensures var r := TargetFrom(lines, current, component);
      && (r.Some? ==> exists i | 0 <= i < |lines| ::
            && TargetOf(lines, current, component, i) && r == Some(lines[i].package)
            && forall j | 0 <= j < i :: !TargetOf(lines, current, component, j))
      && (r.None? ==> forall i | 0 <= i < |lines| :: !TargetOf(lines, current, component, i))
    decreases |lines|
  {
    if lines != [] {
      var next := if lines[0].Header? then Some(lines[0].component) else current;
      var rest := lines[1..];
      forall i | 1 <= i < |lines|
        ensures TargetOf(lines, current, component, i) == TargetOf(rest, next, component, i - 1)
      {
        TargetOfTail(lines, current, component, i);
      }
      assert lines[..0] == [];
      TargetIsFirstInBlock(rest, next, component);
      var r := TargetFrom(lines, current, component);
      if !TargetOf(lines, current, component, 0) && r.Some? {
        var k :| 0 <= k < |rest| && TargetOf(rest, next, component, k) && r == Some(rest[k].package)
          && forall j | 0 <= j < k :: !TargetOf(rest, next, component, j);
        assert TargetOf(lines, current, component, k + 1);
      }
    }
  }
}
