/**
 * `device_resource_snapshot.py`: the parsers that read `/proc/meminfo`,
 * the aggregate line of `/proc/stat` and `/sys/devices/system/cpu/present`
 * on the device, and the `adb` command line they are read with. What adb
 * prints is a parameter; a failed adb call is `None`.
 */
module ResourceSnapshot {
  import opened Wrappers
  import opened Text

  const CpuLinePrefix := "cpu "
  const CpuStatsMissing := "Unable to locate aggregate CPU stats in /proc/stat output"
  const SerialFlag := "-s"
  const ProcessorPrefix := "processor"
  const MemTotalKey := "MemTotal"
  const MemAvailableKey := "MemAvailable"
  const MemFreeKey := "MemFree"
  const SwapFreeKey := "SwapFree"

  // ---------------------------------------------------------------------------
  // The adb command line

  /** `build_adb_command`: the device is selected with `-s` when a serial is given. */
  function BuildAdbCommand(adb: string, serial: Option<string>, extra: seq<string>): (r: seq<string>)
    ensures |r| >= 1 + |extra| && r[0] == adb
    ensures r[|r| - |extra|..] == extra
  {
    [adb] + (if serial.Some? && serial.value != [] then [SerialFlag, serial.value] else []) + extra
  }

  /** The serial a command line selects, read back from its arguments. */
  function SelectedSerial(command: seq<string>): Option<string> {
    if |command| >= 3 && command[1] == SerialFlag then Some(command[2]) else None
  }

  /** The serial given is the serial selected, and the extra arguments follow it unchanged. */
  lemma AdbCommandRoundTrip(adb: string, serial: Option<string>, extra: seq<string>)
    requires extra == [] || extra[0] != SerialFlag
    ensures var command := BuildAdbCommand(adb, serial, extra);
      && SelectedSerial(command) == (if serial.Some? && serial.value != [] then serial else None)
      && command[|command| - |extra|..] == extra
      && |command| == 1 + |extra| + (if serial.Some? && serial.value != [] then 2 else 0)
  {
  }

  // ---------------------------------------------------------------------------
  // /proc/meminfo

  /** One `parse_meminfo` line: trimmed key, first value token as an integer. */
  function MeminfoEntry(line: string): (r: Option<(string, int)>)
    ensures !Contains(line, ":") ==> r.None?
    ensures r.Some? ==> Strip(r.value.0) == r.value.0
  {
    match SplitFirst(line, ":")
    case None => None
    case Some((key, value)) =>
      var tokens := SplitWhitespace(Strip(value));
      if tokens == [] then None
      else
        match ParseInt(tokens[0])
        case None => None
        case Some(n) =>
          StripIdempotent(key);
          Some((Strip(key), n))
  }

  /** `parse_meminfo` over the lines: later duplicate keys overwrite earlier ones. */
  function MeminfoOfLines(lines: seq<string>): (info: map<string, int>)
    ensures forall k :: k in info <==> exists i | 0 <= i < |lines| :: MeminfoEntry(lines[i]).Some? && MeminfoEntry(lines[i]).value.0 == k
    ensures forall k | k in info :: exists i | 0 <= i < |lines| :: MeminfoEntry(lines[i]) == Some((k, info[k]))
  {
    KeyedLast(lines, MeminfoEntry)
  }

  /** `parse_meminfo(raw)`. */
  function ParseMeminfo(raw: string): (info: map<string, int>)
    ensures forall k :: k in info <==>
      exists i | 0 <= i < |Lines(raw)| :: MeminfoEntry(Lines(raw)[i]).Some? && MeminfoEntry(Lines(raw)[i]).value.0 == k
    ensures forall k | k in info :: exists i | 0 <= i < |Lines(raw)| :: MeminfoEntry(Lines(raw)[i]) == Some((k, info[k]))
  {
    MeminfoOfLines(Lines(raw))
  }

  /** A key's value is the one on the last line that names it. */
  lemma MeminfoLastLineWins(lines: seq<string>, i: nat, key: string, value: int)
    requires i < |lines| && MeminfoEntry(lines[i]) == Some((key, value))
    requires forall j | i < j < |lines| && MeminfoEntry(lines[j]).Some? :: MeminfoEntry(lines[j]).value.0 != key
    ensures key in MeminfoOfLines(lines) && MeminfoOfLines(lines)[key] == value
  {
    KeyedLastWins(lines, MeminfoEntry, i, key, value);
  }

  /** A `meminfo` line `<key>:<spaces><number><unit>` reads back as the key and the number. */
  lemma MeminfoLineRoundTrip(key: string, gap: string, n: int, unit: string)
    requires !Contains(key, ":") && key != [] && !IsSpace(key[0]) && !IsSpace(key[|key| - 1])
    requires forall i | 0 <= i < |gap| :: IsSpace(gap[i])
    requires unit == [] || (IsSpace(unit[0]) && !IsSpace(unit[|unit| - 1]))
    ensures MeminfoEntry(key + Colon + gap + IntToString(n) + unit) == Some((key, n))
  {
    var number := IntToString(n);
    var value := gap + number + unit;
    assert key + Colon + gap + number + unit == key + Colon + value;
    SplitFirstOf(key, value, Colon);
    IntToStringToken(n);
    ValueTokens(gap, number, unit);
    IntToStringRoundTrip(n);
    StripTrimmed(key);
    MeminfoEntryOf(key + Colon + value, key, value, n);
  }

  const Colon := ":"

  lemma MeminfoEntryOf(line: string, key: string, value: string, n: int)
    requires SplitFirst(line, Colon) == Some((key, value))
    requires SplitWhitespace(Strip(value)) != [] && ParseInt(SplitWhitespace(Strip(value))[0]) == Some(n)
    requires Strip(key) == key
    ensures MeminfoEntry(line) == Some((key, n))
  {
  }

  /** The value part of a `meminfo` line: its first token is the number. */
  lemma ValueTokens(gap: string, number: string, unit: string)
    requires forall i | 0 <= i < |gap| :: IsSpace(gap[i])
    requires number != [] && forall i | 0 <= i < |number| :: !IsSpace(number[i])
    requires unit == [] || (IsSpace(unit[0]) && !IsSpace(unit[|unit| - 1]))
    ensures SplitWhitespace(Strip(gap + number + unit)) != []
    ensures SplitWhitespace(Strip(gap + number + unit))[0] == number
  {
    StripValue(gap, number, unit);
    SplitWhitespaceHead(number, unit);
  }

  /** Stripping the value part drops exactly the gap in front of the number. */
  lemma StripValue(gap: string, number: string, unit: string)
    requires forall i | 0 <= i < |gap| :: IsSpace(gap[i])
    requires number != [] && forall i | 0 <= i < |number| :: !IsSpace(number[i])
    requires unit == [] || (IsSpace(unit[0]) && !IsSpace(unit[|unit| - 1]))
    ensures Strip(gap + number + unit) == number + unit
  {
    var empty: string := [];
    var body := number + unit;
    assert body[0] == number[0];
    assert body[|body| - 1] == (if unit == [] then number[|number| - 1] else unit[|unit| - 1]);
    StripPadded(gap, body, empty);
    assert gap + body + empty == gap + number + unit;
  }

  /** `str(n)` is one non-blank token. */
  lemma IntToStringToken(n: int)
    ensures IntToString(n) != []
    ensures forall i | 0 <= i < |IntToString(n)| :: !IsSpace(IntToString(n)[i])
  {
    var digits := NatToString(if n < 0 then -n else n);
    assert forall i | 0 <= i < |digits| :: IsDigit(digits[i]);
  }

  /** What `capture_snapshot` reads out of `meminfo`: a missing key reads as 0. */
  datatype Memory = Memory(totalKb: int, availableKb: int, freeKb: int, swapFreeKb: int)

  function ReadMemory(info: map<string, int>): (m: Memory)
    ensures MemTotalKey in info ==> m.totalKb == info[MemTotalKey]
    ensures MemTotalKey !in info ==> m.totalKb == 0
    ensures MemAvailableKey in info ==> m.availableKb == info[MemAvailableKey]
    ensures MemAvailableKey !in info ==> m.availableKb == 0
    ensures MemFreeKey in info ==> m.freeKb == info[MemFreeKey]
    ensures MemFreeKey !in info ==> m.freeKb == 0
    ensures SwapFreeKey in info ==> m.swapFreeKb == info[SwapFreeKey]
    ensures SwapFreeKey !in info ==> m.swapFreeKb == 0
  {
    Memory(
      if MemTotalKey in info then info[MemTotalKey] else 0,
      if MemAvailableKey in info then info[MemAvailableKey] else 0,
      if MemFreeKey in info then info[MemFreeKey] else 0,
      if SwapFreeKey in info then info[SwapFreeKey] else 0)
  }

  // ---------------------------------------------------------------------------
  // /proc/stat

  function Sum(values: seq<int>): int {
    if values == [] then 0 else values[0] + Sum(values[1..])
  }

  /** A `/proc/stat` field: an integer, or 0 when it does not parse. */
  function FieldValue(token: string): int {
    match ParseInt(token)
    case Some(v) => v
    case None => 0
  }

  /** The fields after the `cpu` label, as `parse_cpu_line` reads them. */
  function CpuFields(line: string): (values: seq<int>)
    ensures var parts := SplitWhitespace(line);
      |values| == (if parts == [] then 0 else |parts| - 1)
  {
    var parts := SplitWhitespace(line);
    if parts == [] then []
    else seq(|parts| - 1, i requires 0 <= i < |parts| - 1 => FieldValue(parts[i + 1]))
  }

  /** Idle time: the fourth field, plus the fifth (iowait) when present. */
  function IdleOf(values: seq<int>): int {
    (if |values| > 3 then values[3] else 0) + (if |values| > 4 then values[4] else 0)
  }

  /** Total and idle time of an aggregate line, or `None` when it has no fields. */
  function CpuTimes(line: string): (r: Option<(int, int)>)
    ensures r.None? <==> CpuFields(line) == []
    ensures r.Some? ==> r.value == (Sum(CpuFields(line)), IdleOf(CpuFields(line)))
  {
    var values := CpuFields(line);
    if values == [] then None else Some((Sum(values), IdleOf(values)))
  }

  /** The index of the first line that starts with `cpu `. */
  function FirstCpuLine(lines: seq<string>): (r: Option<nat>)
    ensures r.Some? ==> r.value < |lines| && StartsWith(lines[r.value], CpuLinePrefix)
    ensures r.Some? ==> forall j | 0 <= j < r.value :: !StartsWith(lines[j], CpuLinePrefix)
    ensures r.None? ==> forall j | 0 <= j < |lines| :: !StartsWith(lines[j], CpuLinePrefix)
  {
    if lines == [] then None
    else if StartsWith(lines[0], CpuLinePrefix) then Some(0)
    else
      match FirstCpuLine(lines[1..])
      case None => None
      case Some(k) => Some(k + 1)
  }

  /**
   * `parse_cpu_line` over the lines: the first aggregate line decides, and
   * it raises when there is none or that line has no fields.
   */
  function CpuOfLines(lines: seq<string>): (r: Result<(int, int), string>)
    ensures r.Failure? ==> r.error == CpuStatsMissing
    ensures r.Success? <==> FirstCpuLine(lines).Some? && CpuTimes(lines[FirstCpuLine(lines).value]).Some?
    ensures r.Success? ==> r.value == CpuTimes(lines[FirstCpuLine(lines).value]).value
  {
    match FirstCpuLine(lines)
    case None => Failure(CpuStatsMissing)
    case Some(i) =>
      match CpuTimes(lines[i])
      case None => Failure(CpuStatsMissing)
      case Some(times) => Success(times)
  }

  /** `parse_cpu_line(raw)`. */
  function ParseCpuLine(raw: string): (r: Result<(int, int), string>)
    ensures r.Failure? ==> r.error == CpuStatsMissing
    ensures r.Success? <==> FirstCpuLine(Lines(raw)).Some? && CpuTimes(Lines(raw)[FirstCpuLine(Lines(raw)).value]).Some?
    ensures r.Success? ==> r.value == CpuTimes(Lines(raw)[FirstCpuLine(Lines(raw)).value]).value
  {
    CpuOfLines(Lines(raw))
  }

  /** Lines that do not start with `cpu ` in front of the aggregate line change nothing. */
  lemma {:induction false} OtherLinesIgnored(others: seq<string>, lines: seq<string>)
    requires forall j | 0 <= j < |others| :: !StartsWith(others[j], CpuLinePrefix)
    ensures CpuOfLines(others + lines) == CpuOfLines(lines)
    decreases |others|
  {
    if others != [] {
      var rest := others[1..] + lines;
      assert others + lines == [others[0]] + rest;
      FirstCpuLineShift(others[0], rest);
      OtherLinesIgnored(others[1..], lines);
    } else {
      assert others + lines == lines;
    }
  }

  lemma FirstCpuLineShift(line: string, lines: seq<string>)
    requires !StartsWith(line, CpuLinePrefix)
    ensures CpuOfLines([line] + lines) == CpuOfLines(lines)
  {
    assert ([line] + lines)[1..] == lines;
    match FirstCpuLine(lines)
    case None =>
    case Some(k) =>
      assert ([line] + lines)[k + 1] == lines[k];
  }

  /** A per-core line `cpu<n> ...` never starts with `cpu `, so it is never read. */
  lemma PerCoreLineIgnored(n: nat, rest: string)
    ensures !StartsWith("cpu" + NatToString(n) + rest, CpuLinePrefix)
  {
    var line := "cpu" + NatToString(n) + rest;
    assert line[3] == NatToString(n)[0];
    assert IsDigit(NatToString(n)[0]);
  }

  /** The idle share never exceeds the total when no field is negative. */
  lemma IdleWithinTotal(values: seq<int>)
    requires forall i | 0 <= i < |values| :: values[i] >= 0
    ensures 0 <= IdleOf(values) <= Sum(values)
  {
    SumNonNegative(values);
    if |values| > 4 {
      SumAtLeastTwo(values, 3, 4);
    } else if |values| > 3 {
      SumAtLeastOne(values, 3);
    }
  }

  lemma {:induction false} SumNonNegative(values: seq<int>)
    requires forall i | 0 <= i < |values| :: values[i] >= 0
    ensures Sum(values) >= 0
    decreases |values|
  {
    if values != [] {
      SumNonNegative(values[1..]);
    }
  }

  lemma {:induction false} SumAtLeastOne(values: seq<int>, i: nat)
    requires i < |values| && forall k | 0 <= k < |values| :: values[k] >= 0
    ensures Sum(values) >= values[i]
    decreases |values|
  {
    if i == 0 {
      SumNonNegative(values[1..]);
    } else {
      SumAtLeastOne(values[1..], i - 1);
    }
  }

  lemma {:induction false} SumAtLeastTwo(values: seq<int>, i: nat, j: nat)
    requires i < j < |values| && forall k | 0 <= k < |values| :: values[k] >= 0
    ensures Sum(values) >= values[i] + values[j]
    decreases |values|
  {
    if i == 0 {
      SumAtLeastOne(values[1..], j - 1);
    } else {
      SumAtLeastTwo(values[1..], i - 1, j - 1);
    }
  }

  const Space := " "

  /** Tokens each preceded by one space. */
  function SpaceJoined(tokens: seq<string>): (s: string)
    ensures s == [] || IsSpace(s[0])
  {
    if tokens == [] then [] else Space + tokens[0] + SpaceJoined(tokens[1..])
  }

  /** Splitting on whitespace recovers the tokens. */
  lemma {:induction false} SpaceJoinedTokens(tokens: seq<string>)
    requires forall k | 0 <= k < |tokens| :: tokens[k] != [] && forall i | 0 <= i < |tokens[k]| :: !IsSpace(tokens[k][i])
    ensures SplitWhitespace(SpaceJoined(tokens)) == tokens
    decreases |tokens|
  {
    if tokens != [] {
      SpaceJoinedTokens(tokens[1..]);
      SpaceJoinedCons(tokens);
      assert [tokens[0]] + tokens[1..] == tokens;
    }
  }

  /** Splitting takes the first joined token off the front. */
  lemma SpaceJoinedCons(tokens: seq<string>)
    requires tokens != [] && tokens[0] != [] && forall i | 0 <= i < |tokens[0]| :: !IsSpace(tokens[0][i])
    ensures SplitWhitespace(SpaceJoined(tokens)) == [tokens[0]] + SplitWhitespace(SpaceJoined(tokens[1..]))
  {
    var rest := SpaceJoined(tokens[1..]);
    assert SpaceJoined(tokens) == Space + tokens[0] + rest;
    SpaceGap();
    SplitWhitespaceCons(Space, tokens[0], rest);
  }

  /** The separator is whitespace. */
  lemma SpaceGap()
    ensures forall i | 0 <= i < |Space| :: IsSpace(Space[i])
  {
  }

  /** A `/proc/stat` aggregate line's fields, built from counters. */
  function StatFields(values: seq<nat>): string {
    SpaceJoined(Rendered(values))
  }

  function Naturals(values: seq<nat>): (r: seq<int>)
    ensures |r| == |values| && forall i | 0 <= i < |values| :: r[i] == values[i]
  {
    seq(|values|, i requires 0 <= i < |values| => values[i] as int)
  }

  function Rendered(values: seq<nat>): (r: seq<string>)
    ensures |r| == |values| && forall i | 0 <= i < |values| :: r[i] == NatToString(values[i])
  {
    seq(|values|, i requires 0 <= i < |values| => NatToString(values[i]))
  }

  lemma StatFieldsTokens(values: seq<nat>)
    ensures SplitWhitespace(StatFields(values)) == Rendered(values)
  {
    var tokens := Rendered(values);
    forall k | 0 <= k < |tokens|
      ensures tokens[k] != [] && forall i | 0 <= i < |tokens[k]| :: !IsSpace(tokens[k][i])
    {
      IntToStringToken(values[k]);
    }
    SpaceJoinedTokens(tokens);
  }

  /** Reading the line `cpu <v0> <v1> ...` gives back the counters' sum and idle time. */
  lemma CpuLineRoundTrip(values: seq<nat>)
    requires values != []
    ensures CpuTimes(CpuLabel + StatFields(values)) == Some((Sum(Naturals(values)), IdleOf(Naturals(values))))
  {
    var line := CpuLabel + StatFields(values);
    LineTokens(values);
    FieldsOfTokens(line, values);
    assert Naturals(values) != [];
  }

  /** The aggregate line splits into its label and the rendered counters. */
  lemma LineTokens(values: seq<nat>)
    ensures SplitWhitespace(CpuLabel + StatFields(values)) == [CpuLabel] + Rendered(values)
  {
    var fields := StatFields(values);
    assert fields == [] || IsSpace(fields[0]);
    LabelToken();
    StatFieldsTokens(values);
    SplitWhitespaceHead(CpuLabel, fields);
  }

  /** The label `cpu` is one non-blank token. */
  lemma LabelToken()
    ensures CpuLabel != [] && forall i | 0 <= i < |CpuLabel| :: !IsSpace(CpuLabel[i])
  {
  }

  /** Fields rendered from counters parse back to the counters. */
  lemma FieldsOfTokens(line: string, values: seq<nat>)
    requires SplitWhitespace(line) == [CpuLabel] + Rendered(values)
    ensures CpuFields(line) == Naturals(values)
  {
    var parts := SplitWhitespace(line);
    var fields := CpuFields(line);
    forall i | 0 <= i < |values|
      ensures fields[i] == values[i]
    {
      assert parts[i + 1] == NatToString(values[i]);
      FieldValueOf(values[i]);
    }
  }

  /** A rendered counter is read back as itself. */
  lemma FieldValueOf(n: nat)
    ensures FieldValue(NatToString(n)) == n
  {
    IntToStringRoundTrip(n);
  }

  const CpuLabel := "cpu"

  /** With its counters, the aggregate line is the one read. */
  lemma AggregateLineRead(values: seq<nat>)
    requires values != []
    ensures StartsWith(CpuLabel + StatFields(values), CpuLinePrefix)
  {
    var line := CpuLabel + StatFields(values);
    assert line[..4] == CpuLinePrefix;
  }

  // ---------------------------------------------------------------------------
  // Core count

  /** One fragment of `cpu/present`: `a-b` counts `b - a + 1`, an integer 1, anything else 0. */
  function FragmentCount(fragment: string): int {
    match SplitFirst(fragment, "-")
    case Some((start, end)) =>
      (match (ParseInt(start), ParseInt(end))
       case (Some(a), Some(b)) => b - a + 1
       case _ => 0)
    case None =>
      if ParseInt(fragment).Some? then 1 else 0
  }

  /** The fragments' counts added up, each fragment trimmed first. */
  function CountFragments(fragments: seq<string>): int
    decreases |fragments|
  {
    if fragments == [] then 0
    else CountFragments(fragments[..|fragments| - 1]) + FragmentCount(Strip(fragments[|fragments| - 1]))
  }

  /** The count of a list is the sum of its parts' counts. */
  lemma {:induction false} CountFragmentsAppend(a: seq<string>, b: seq<string>)
    ensures CountFragments(a + b) == CountFragments(a) + CountFragments(b)
    decreases |b|
  {
    if b == [] {
      assert a + b == a;
    } else {
      var init := b[..|b| - 1];
      assert (a + b)[..|a + b| - 1] == a + init;
      CountFragmentsAppend(a, init);
    }
  }

  /** The comma-separated CPU list of `cpu/present`, counted. */
  function PresentCount(raw: string): int {
    var text := Strip(raw);
    if text == [] then 0 else CountFragments(Split(text, ","))
  }

  /** A trimmed list of fragments without commas counts as its fragments do. */
  lemma PresentCountOfList(fragments: seq<string>)
    requires fragments != []
    requires forall i, j | 0 <= i < |fragments| && 0 <= j < |fragments[i]| :: fragments[i][j] != ','
    requires Strip(Join(fragments, ",")) == Join(fragments, ",") && Join(fragments, ",") != []
    ensures PresentCount(Join(fragments, ",")) == CountFragments(fragments)
  {
    SplitJoin(fragments, ",");
  }

  /** The range `a-b` counts `b - a + 1` CPUs. */
  lemma RangeFragment(a: nat, b: nat)
    ensures FragmentCount(NatToString(a) + "-" + NatToString(b)) == b - a + 1
  {
    var sa, sb := NatToString(a), NatToString(b);
    assert forall i | 0 <= i < |sa| :: IsDigit(sa[i]);
    NoCharNotContains(sa, '-');
    SplitFirstOf(sa, sb, "-");
    IntToStringRoundTrip(a);
    IntToStringRoundTrip(b);
  }

  /** A lone CPU number counts one CPU. */
  lemma SingleFragment(n: nat)
    ensures FragmentCount(NatToString(n)) == 1
  {
    var s := NatToString(n);
    assert forall i | 0 <= i < |s| :: IsDigit(s[i]);
    NoCharNotContains(s, '-');
    IntToStringRoundTrip(n);
  }

  /** `cpuinfo` lines that start, in lower case, with `processor`. */
  function ProcessorCount(lines: seq<string>): (n: nat)
    ensures n <= |lines|
  {
    |Filter(lines, (line: string) => StartsWith(Lower(line), ProcessorPrefix))|
  }

  lemma ProcessorCountAppend(a: seq<string>, b: seq<string>)
    ensures ProcessorCount(a + b) == ProcessorCount(a) + ProcessorCount(b)
  {
    FilterAppend(a, b, (line: string) => StartsWith(Lower(line), ProcessorPrefix));
  }

  /**
   * `detect_cpu_cores`: the `cpu/present` count when positive, otherwise
   * the `processor` lines of `cpuinfo`, otherwise 0. A failed adb call is `None`.
   */
  function DetectCpuCores(present: Option<string>, cpuinfo: Option<string>): (r: int)
    ensures r >= 0
    ensures PresentCount(present.GetOr([])) > 0 ==> r == PresentCount(present.GetOr([]))
    ensures PresentCount(present.GetOr([])) <= 0 && cpuinfo.None? ==> r == 0
    ensures PresentCount(present.GetOr([])) <= 0 && cpuinfo.Some? ==> r == ProcessorCount(Lines(cpuinfo.value))
  {
    var total := PresentCount(present.GetOr([]));
    if total > 0 then total
    else
      match cpuinfo
      case None => 0
      case Some(text) => ProcessorCount(Lines(text))
  }
}
