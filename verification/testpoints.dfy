/**
 * Harness test points: the closed set of markers the instrumentation prints
 * as `HARNESS TESTPOINT: <name>[: <detail>]`, their parser, and the
 * dispatcher that records each event and notifies registered callbacks.
 */
module TestPoints {
  import opened Wrappers
  import opened Text

  const Prefix: string := "HARNESS TESTPOINT: "

  datatype TestPoint =
    | PreInitialization
    | CacheReady
    | UiLoaded
    | ReadyForScreenshot
    | ErrorSignaled

  /** The enum value each test point is printed as. */
  function Label(p: TestPoint): string {
    match p
    case PreInitialization => "pre_initialization"
    case CacheReady => "cache_ready"
    case UiLoaded => "ui_loaded"
    case ReadyForScreenshot => "ready_for_screenshot"
    case ErrorSignaled => "error_signaled"
  }

  /** `HarnessTestPoint.from_label`, with the `ValueError` as `None`. */
  function FromLabel(name: string): (r: Option<TestPoint>)
    ensures r.Some? ==> Label(r.value) == name
    ensures r.None? ==> forall p :: Label(p) != name
  {
    if name == "pre_initialization" then Some(PreInitialization)
    else if name == "cache_ready" then Some(CacheReady)
    else if name == "ui_loaded" then Some(UiLoaded)
    else if name == "ready_for_screenshot" then Some(ReadyForScreenshot)
    else if name == "error_signaled" then Some(ErrorSignaled)
    else None
  }

  type Event = (TestPoint, Option<string>)

  /** Cut a payload into its name part and trimmed, non-blank detail. */
  function SplitName(payload: string): (r: (string, Option<string>))
    ensures OccursAt(payload, r.0, 0)
    ensures r.1.Some? ==> r.1.value != [] && Strip(r.1.value) == r.1.value
  {
    match SplitFirst(payload, ":")
    case Some((head, tail)) =>
      assert payload[..|head|] == head;
      var trimmed := Strip(tail);
      (head, if trimmed == [] then None else Some(trimmed))
    case None => (payload, None)
  }

  /** `parse_testpoint`: never fails, unknown names read as no test point. */
  function ParseTestpoint(line: string): (r: Option<Event>)
    ensures r.Some? ==> MarkerPayload(line, Prefix).Some?
    ensures r.Some? && r.value.1.Some? ==>
      r.value.1.value != [] && Strip(r.value.1.value) == r.value.1.value
  {
    match MarkerPayload(line, Prefix)
    case None => None
    case Some(payload) =>
      var (name, detail) := SplitName(payload);
      match FromLabel(Strip(name))
      case None => None
      case Some(p) => Some((p, detail))
  }

  /** A trimmed, colon-free name (every `Label` is one). */
  predicate PlainName(name: string) {
    && name != [] && !IsSpace(name[0]) && !IsSpace(name[|name| - 1])
    && forall i | 0 <= i < |name| :: name[i] != ':'
  }

  lemma LabelPlain(p: TestPoint)
    ensures PlainName(Label(p))
  {
  }

  lemma FromLabelOfLabel(p: TestPoint)
    ensures FromLabel(Label(p)) == Some(p)
  {
    match p
    case PreInitialization =>
    case CacheReady =>
    case UiLoaded =>
    case ReadyForScreenshot =>
    case ErrorSignaled =>
  }

  lemma PlainNameNoColon(name: string)
    requires PlainName(name)
    ensures !Contains(name, ":")
  {
    NoCharNotContains(name, ':');
  }

  /** `ParseTestpoint` assembled from its three stages. */
  lemma ParseFromParts(line: string, payload: string, name: string, detail: Option<string>)
    requires MarkerPayload(line, Prefix) == Some(payload)
    requires SplitName(payload) == (name, detail)
    requires Strip(name) == name
    ensures ParseTestpoint(line) == if FromLabel(name).Some? then Some((FromLabel(name).value, detail)) else None
  {
  }

  lemma ParsePlainName(name: string)
    requires PlainName(name)
    ensures ParseTestpoint(Prefix + name) == if FromLabel(name).Some? then Some((FromLabel(name).value, None)) else None
  {
    MarkerPayloadOf(Prefix, name);
    PlainNameNoColon(name);
    StripTrimmed(name);
    ParseFromParts(Prefix + name, name, name, None);
  }

  lemma DetailPayload(name: string, detail: string)
    requires PlainName(name)
    requires detail != [] && !IsSpace(detail[|detail| - 1])
    ensures MarkerPayload(Prefix + name + ": " + detail, Prefix) == Some(name + ":" + " " + detail)
  {
    var payload := name + ":" + " " + detail;
    assert Prefix + name + ": " + detail == Prefix + payload;
    assert payload[0] == name[0] && payload[|payload| - 1] == detail[|detail| - 1];
    MarkerPayloadOf(Prefix, payload);
  }

  lemma DetailSplit(name: string, detail: string)
    requires PlainName(name)
    requires detail != [] && !IsSpace(detail[0]) && !IsSpace(detail[|detail| - 1])
    ensures SplitName(name + ":" + " " + detail) == (name, Some(detail))
  {
    var tail := " " + detail;
    assert Strip(tail) == detail by {
      StripPadded(" ", detail, []);
      assert " " + detail + [] == tail;
    }
    assert name + ":" + " " + detail == name + ":" + tail;
    PlainNameNoColon(name);
    SplitFirstOf(name, tail, ":");
  }

  lemma ParsePlainNameDetail(name: string, detail: string)
    requires PlainName(name)
    requires detail != [] && !IsSpace(detail[0]) && !IsSpace(detail[|detail| - 1])
    ensures ParseTestpoint(Prefix + name + ": " + detail) ==
      if FromLabel(name).Some? then Some((FromLabel(name).value, Some(detail))) else None
  {
    DetailPayload(name, detail);
    DetailSplit(name, detail);
    StripTrimmed(name);
    ParseFromParts(Prefix + name + ": " + detail, name + ":" + " " + detail, name, Some(detail));
  }

  /** Printing a bare marker and parsing it back gives the test point without detail. */
  lemma ParseLabelRoundTrip(p: TestPoint)
    ensures ParseTestpoint(Prefix + Label(p)) == Some((p, None))
  {
    LabelPlain(p);
    FromLabelOfLabel(p);
    ParsePlainName(Label(p));
  }

  /** A marker printed as `<name>: <detail>` parses back to the same test point and detail. */
  lemma ParseDetailRoundTrip(p: TestPoint, detail: string)
    requires detail != [] && !IsSpace(detail[0]) && !IsSpace(detail[|detail| - 1])
    ensures ParseTestpoint(Prefix + Label(p) + ": " + detail) == Some((p, Some(detail)))
  {
    LabelPlain(p);
    FromLabelOfLabel(p);
    ParsePlainNameDetail(Label(p), detail);
  }

  // ---------------------------------------------------------------------------
  // Dispatcher

  /** Callbacks are opaque; the model identifies each by a number. */
  type CallbackId = nat

  /** One call of `callback(point, detail)`. */
  datatype Invocation = Invocation(callback: CallbackId, point: TestPoint, detail: Option<string>)

  datatype Dispatcher = Dispatcher(
    callbacks: map<TestPoint, seq<CallbackId>>,
    anyCallbacks: seq<CallbackId>,
    events: seq<Event>)
  {
    /** `self._callbacks.get(point, [])`. */
    function PointCallbacks(p: TestPoint): seq<CallbackId> {
      if p in callbacks then callbacks[p] else []
    }
  }

  const EmptyDispatcher: Dispatcher := Dispatcher(map[], [], [])

  /** `register`: append to the point's callback list, leaving everything else alone. */
  function Register(d: Dispatcher, p: TestPoint, cb: CallbackId): (r: Dispatcher)
    ensures r.PointCallbacks(p) == d.PointCallbacks(p) + [cb]
    ensures forall q | q != p :: r.PointCallbacks(q) == d.PointCallbacks(q)
    ensures r.anyCallbacks == d.anyCallbacks && r.events == d.events
  {
    d.(callbacks := d.callbacks[p := d.PointCallbacks(p) + [cb]])
  }

  /** `register_any`: append to the catch-all list. */
  function RegisterAny(d: Dispatcher, cb: CallbackId): (r: Dispatcher)
    ensures r.anyCallbacks == d.anyCallbacks + [cb]
    ensures r.callbacks == d.callbacks && r.events == d.events
  {
    d.(anyCallbacks := d.anyCallbacks + [cb])
  }

  function Notify(ids: seq<CallbackId>, p: TestPoint, detail: Option<string>): (r: seq<Invocation>)
    ensures |r| == |ids|
    ensures forall i | 0 <= i < |ids| :: r[i] == Invocation(ids[i], p, detail)
  {
    seq(|ids|, i requires 0 <= i < |ids| => Invocation(ids[i], p, detail))
  }

  /**
   * `dispatch`: record exactly one event, then call the point's callbacks
   * and then the catch-all callbacks, each group in registration order.
   */
  function Dispatch(d: Dispatcher, p: TestPoint, detail: Option<string>): (r: (Dispatcher, seq<Invocation>))
    ensures r.0.events == d.events + [(p, detail)]
    ensures r.0.callbacks == d.callbacks && r.0.anyCallbacks == d.anyCallbacks
    ensures |r.1| == |d.PointCallbacks(p)| + |d.anyCallbacks|
    ensures forall i | 0 <= i < |r.1| :: r.1[i].point == p && r.1[i].detail == detail
    ensures forall i | 0 <= i < |d.PointCallbacks(p)| :: r.1[i].callback == d.PointCallbacks(p)[i]
    ensures forall i | 0 <= i < |d.anyCallbacks| ::
      r.1[|d.PointCallbacks(p)| + i].callback == d.anyCallbacks[i]
  {
    var calls := Notify(d.PointCallbacks(p), p, detail) + Notify(d.anyCallbacks, p, detail);
    (d.(events := d.events + [(p, detail)]), calls)
  }

  /** `extend`: dispatch each event in turn, concatenating the notifications. */
  function Extend(d: Dispatcher, evs: seq<Event>): (r: (Dispatcher, seq<Invocation>))
    ensures r.0.events == d.events + evs
    ensures r.0.callbacks == d.callbacks && r.0.anyCallbacks == d.anyCallbacks
    decreases |evs|
  {
    if evs == [] then (d, [])
    else
      var (d1, first) := Dispatch(d, evs[0].0, evs[0].1);
      var (d2, rest) := Extend(d1, evs[1..]);
      assert d.events + evs == d1.events + evs[1..];
      (d2, first + rest)
  }

  /** Extending by two batches is extending by their concatenation. */
  lemma {:induction false} ExtendConcat(d: Dispatcher, a: seq<Event>, b: seq<Event>)
    ensures Extend(d, a + b).0 == Extend(Extend(d, a).0, b).0
    ensures Extend(d, a + b).1 == Extend(d, a).1 + Extend(Extend(d, a).0, b).1
    decreases |a|
  {
    if a != [] {
      var d1 := Dispatch(d, a[0].0, a[0].1).0;
      assert (a + b)[0] == a[0] && (a + b)[1..] == a[1..] + b;
      ExtendConcat(d1, a[1..], b);
    } else {
      assert a + b == b;
    }
  }

  /** The catch-all and point callbacks both hear a dispatched event. */
  lemma DispatchScenario()
    ensures var d := RegisterAny(Register(EmptyDispatcher, UiLoaded, 0), 1);
      Dispatch(d, UiLoaded, Some("page=1/10")) ==
        (d.(events := [(UiLoaded, Some("page=1/10"))]),
         [Invocation(0, UiLoaded, Some("page=1/10")), Invocation(1, UiLoaded, Some("page=1/10"))])
  {
    var d := RegisterAny(Register(EmptyDispatcher, UiLoaded, 0), 1);
    assert d.PointCallbacks(UiLoaded) == [0];
    assert d.anyCallbacks == [1];
    var r := Dispatch(d, UiLoaded, Some("page=1/10"));
    assert |r.1| == 2;
    assert r.1[0] == Invocation(0, UiLoaded, Some("page=1/10"));
    assert r.1[1] == Invocation(1, UiLoaded, Some("page=1/10"));
    assert r.1 == [Invocation(0, UiLoaded, Some("page=1/10")), Invocation(1, UiLoaded, Some("page=1/10"))];
    assert d.events == [];
    assert r.0 == d.(events := [(UiLoaded, Some("page=1/10"))]);
  }
}
