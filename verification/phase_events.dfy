/**
 * Harness phase events: lines `HARNESS PHASE: <json>` that the
 * instrumentation prints at each lifecycle step of a component operation.
 * JSON decoding is supplied by the caller as `decode`, which answers `None`
 * where `json.loads` raises `JSONDecodeError`.
 */
module PhaseEvents {
  import opened Wrappers
  import opened Text
  import opened JsonValues

  const PhasePrefix: string := "HARNESS PHASE: "

  /**
   * A parsed phase record. `checkpoint`, `detail`, `errorType` and
   * `errorMessage` are copied from the payload without any type check, so
   * they stay decoded JSON values (`JNull` when absent).
   */
  datatype PhaseEvent = PhaseEvent(
    phaseType: string,
    component: string,
    operation: string,
    attempt: int,
    timestampMs: Option<int>,
    context: map<string, string>,
    checkpoint: Json,
    detail: Json,
    nextAttempt: Option<int>,
    errorType: Json,
    errorMessage: Json)

  /**
   * `_coerce_int`: an int (and so a bool, which Python treats as one) is
   * kept, a string goes through `int()`, anything else is `None`.
   */
  function CoerceInt(j: Json): (r: Option<int>)
    ensures j.JInt? ==> r == Some(j.i)
    ensures j.JBool? ==> r == Some(if j.b then 1 else 0)
    ensures j.JString? ==> r == ParseInt(j.s)
    ensures !(j.JInt? || j.JBool? || j.JString?) ==> r.None?
  {
    match j
    case JInt(i) => Some(i)
    case JBool(b) => Some(if b then 1 else 0)
    case JString(s) => ParseInt(s)
    case _ => None
  }

  predicate NonEmptyString(j: Json) {
    j.JString? && j.s != ""
  }

  /**
   * The context kept from `data.get("context") or {}`: only a dict
   * contributes, and only its entries whose value is a str, int, float or
   * bool, each rendered with `str()`.
   */
  function ContextOf(raw: Json): (r: map<string, string>)
    ensures forall k :: k in r <==> raw.JObject? && k in raw.fields && IsScalar(raw.fields[k])
    ensures forall k | k in r :: r[k] == ScalarStr(raw.fields[k])
  {
    match raw
    case JObject(fields) => map k | k in fields && IsScalar(fields[k]) :: ScalarStr(fields[k])
    case _ => map[]
  }

  /** The conditions a decoded object must meet to be a phase event. */
  predicate IsPhaseRecord(fields: map<string, Json>) {
    && Get(fields, "event") == JString("harness_phase")
    && NonEmptyString(Get(fields, "type"))
    && NonEmptyString(Get(fields, "component"))
    && NonEmptyString(Get(fields, "operation"))
    && CoerceInt(Get(fields, "attempt")).Some?
  }

  /** The event a phase record describes. */
  function EventOf(fields: map<string, Json>): (e: PhaseEvent)
    requires IsPhaseRecord(fields)
    ensures e.phaseType == fields["type"].s && e.phaseType != ""
    ensures e.component == fields["component"].s && e.component != ""
    ensures e.operation == fields["operation"].s && e.operation != ""
    ensures Some(e.attempt) == CoerceInt(fields["attempt"])
    ensures e.context == ContextOf(Get(fields, "context"))
    ensures e.timestampMs == CoerceInt(Get(fields, "timestampMs"))
    ensures e.nextAttempt == CoerceInt(Get(fields, "nextAttempt"))
  {
    PhaseEvent(
      Get(fields, "type").s,
      Get(fields, "component").s,
      Get(fields, "operation").s,
      CoerceInt(Get(fields, "attempt")).value,
      CoerceInt(Get(fields, "timestampMs")),
      ContextOf(Get(fields, "context")),
      Get(fields, "checkpoint"),
      Get(fields, "detail"),
      CoerceInt(Get(fields, "nextAttempt")),
      Get(fields, "errorType"),
      Get(fields, "errorMessage"))
  }

  /** The decoded payload of a phase line, when it has one and it decodes. */
  function DecodedPayload(line: string, decode: string -> Option<Json>): Option<Json> {
    match MarkerPayload(line, PhasePrefix)
    case None => None
    case Some(payload) => decode(payload)
  }

  /**
   * `parse_phase_event`, total: a line yields an event exactly when its
   * payload decodes to an object that is a phase record; anything else,
   * including a payload that decodes to a non-object, yields `None`.
   */
  function ParsePhaseEvent(line: string, decode: string -> Option<Json>): (r: Option<PhaseEvent>)
    ensures r.Some? <==>
      DecodedPayload(line, decode).Some? && DecodedPayload(line, decode).value.JObject? &&
      IsPhaseRecord(DecodedPayload(line, decode).value.fields)
    ensures r.Some? ==> r.value == EventOf(DecodedPayload(line, decode).value.fields)
    ensures !StartsWith(Strip(line), PhasePrefix) ==> r.None?
  {
    match DecodedPayload(line, decode)
    case Some(JObject(fields)) => if IsPhaseRecord(fields) then Some(EventOf(fields)) else None
    case _ => None
  }

  // ---------------------------------------------------------------------------
  // The function as the source writes it

  /** What a call of the source function does: return a value or raise. */
  datatype ParseOutcome = Parsed(event: PhaseEvent) | NotAnEvent | Raised(error: string)

  /**
   * `parse_phase_event` as written: `data.get("event")` is called on whatever
   * `json.loads` returned, so a payload that is valid JSON but not an object
   * (`[1]`, `5`, `"x"`, `null`) raises `AttributeError` instead of yielding `None`.
   */
  function ParsePhaseEventAsWritten(line: string, decode: string -> Option<Json>): (r: ParseOutcome)
    ensures r.Raised? <==> DecodedPayload(line, decode).Some? && !DecodedPayload(line, decode).value.JObject?
  {
    match DecodedPayload(line, decode)
    case None => NotAnEvent
    case Some(JObject(fields)) => if IsPhaseRecord(fields) then Parsed(EventOf(fields)) else NotAnEvent
    case Some(_) => Raised("AttributeError")
  }

  /** Wherever the source does not raise, the corrected parser agrees with it. */
  lemma CorrectedAgreesWhenNotRaised(line: string, decode: string -> Option<Json>)
    ensures ParsePhaseEventAsWritten(line, decode).Parsed? ==>
      ParsePhaseEvent(line, decode) == Some(ParsePhaseEventAsWritten(line, decode).event)
    ensures ParsePhaseEventAsWritten(line, decode).NotAnEvent? ==> ParsePhaseEvent(line, decode).None?
  {
  }

  /** `HARNESS PHASE: [1]` makes the source raise where `None` was intended. */
  lemma ArrayPayloadRaises(decode: string -> Option<Json>)
    requires decode("[1]") == Some(JArray([JInt(1)]))
    ensures ParsePhaseEventAsWritten(PhasePrefix + "[1]", decode).Raised?
    ensures ParsePhaseEvent(PhasePrefix + "[1]", decode).None?
  {
    assert MarkerPayload(PhasePrefix + "[1]", PhasePrefix) == Some("[1]") by {
      MarkerPayloadOf(PhasePrefix, "[1]");
    }
  }

  // ---------------------------------------------------------------------------
  // Scenarios

  const SampleRecord: map<string, Json> := map[
    "event" := JString("harness_phase"), "type" := JString("checkpoint"),
    "component" := JString("Foo"), "operation" := JString("bar"), "attempt" := JInt(2),
    "timestampMs" := JInt(12345), "checkpoint" := JString("load_cache"),
    "detail" := JString("directories=/tmp"),
    "context" := JObject(map["docId" := JString("abc"), "page" := JInt(3)]),
    "nextAttempt" := JInt(3)]

  const SampleEvent: PhaseEvent := PhaseEvent(
    "checkpoint", "Foo", "bar", 2, Some(12345), map["docId" := "abc", "page" := "3"],
    JString("load_cache"), JString("directories=/tmp"), Some(3), JNull, JNull)

  lemma SampleRecordEvent()
    ensures IsPhaseRecord(SampleRecord) && EventOf(SampleRecord) == SampleEvent
  {
    SampleRecordHead();
    SampleRecordTail();
    SampleContext();
  }

  lemma SampleContext()
    ensures ContextOf(JObject(map["docId" := JString("abc"), "page" := JInt(3)])) == map["docId" := "abc", "page" := "3"]
  {
    assert IntToString(3) == "3";
  }

  lemma SampleRecordHead()
    ensures Get(SampleRecord, "event") == JString("harness_phase")
    ensures Get(SampleRecord, "type") == JString("checkpoint")
    ensures Get(SampleRecord, "component") == JString("Foo")
    ensures Get(SampleRecord, "operation") == JString("bar")
    ensures Get(SampleRecord, "attempt") == JInt(2)
    ensures Get(SampleRecord, "timestampMs") == JInt(12345)
  {
  }

  lemma SampleRecordTail()
    ensures Get(SampleRecord, "checkpoint") == JString("load_cache")
    ensures Get(SampleRecord, "detail") == JString("directories=/tmp")
    ensures Get(SampleRecord, "nextAttempt") == JInt(3)
    ensures Get(SampleRecord, "errorType") == JNull
    ensures Get(SampleRecord, "errorMessage") == JNull
    ensures Get(SampleRecord, "context") == JObject(map["docId" := JString("abc"), "page" := JInt(3)])
  {
  }

  /** A full record parses, with its scalar context entries rendered as strings. */
  lemma ValidRecordScenario(decode: string -> Option<Json>, payload: string)
    requires payload != [] && !IsSpace(payload[0]) && !IsSpace(payload[|payload| - 1])
    requires decode(payload) == Some(JObject(SampleRecord))
    ensures ParsePhaseEvent(PhasePrefix + payload, decode) == Some(SampleEvent)
  {
    assert MarkerPayload(PhasePrefix + payload, PhasePrefix) == Some(payload) by {
      MarkerPayloadOf(PhasePrefix, payload);
    }
    SampleRecordEvent();
  }

  lemma NotANumber()
    ensures ParseInt("not-a-number").None?
  {
    StripTrimmed("not-a-number");
  }

  /** An attempt that is not an integer string rejects the record. */
  lemma BadAttemptScenario(decode: string -> Option<Json>, payload: string)
    requires payload != [] && !IsSpace(payload[0]) && !IsSpace(payload[|payload| - 1])
    requires decode(payload) == Some(JObject(map[
      "event" := JString("harness_phase"), "type" := JString("start"),
      "component" := JString("x"), "operation" := JString("y"),
      "attempt" := JString("not-a-number")]))
    ensures ParsePhaseEvent(PhasePrefix + payload, decode).None?
  {
    assert MarkerPayload(PhasePrefix + payload, PhasePrefix) == Some(payload) by {
      MarkerPayloadOf(PhasePrefix, payload);
    }
    NotANumber();
  }
}
