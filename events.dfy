/**
  The ingested event record and the validation that the ingest handler applies
  to a request body before it reaches the store.
*/
module Events {

  datatype Option<T> = None | Some(value: T)

  datatype Result<T, E> = Ok(value: T) | Err(error: E)

  /** One interaction event as the store keeps it. `timestamp` is the instant the
      event's timestamp text denotes, in milliseconds since the epoch. */
  datatype Event = Event(
    timestamp: int,
    sessionId: string,
    intent: string,
    latencyMs: real,
    success: bool,
    confidence: real)

  /** A request body, field by field. `None` stands for a key that is absent or
      JSON null, and for a numeric field also NaN. `parsedTimestamp` is what
      parsing the timestamp text yields, `None` when the text is not a valid
      instant. For `success` only an absent key is `None`; any other falsy value
      is `Some(false)`, since the handler compares it with `undefined` only. */
  datatype Payload = Payload(
    timestamp: Option<string>,
    parsedTimestamp: Option<int>,
    sessionId: Option<string>,
    intent: Option<string>,
    latencyMs: Option<real>,
    success: Option<bool>,
    confidence: Option<real>)

  /** The two client errors of the ingest handler. */
  datatype Rejection = InvalidPayload | InvalidTimestampFormat

  /** JavaScript truthiness of a text field: present and non-empty. */
  predicate TruthyText(o: Option<string>) {
    o.Some? && o.value != ""
  }

  /** JavaScript truthiness of a numeric field: present, not NaN, not zero. */
  predicate TruthyNumber(o: Option<real>) {
    o.Some? && o.value != 0.0
  }

  /** The presence test of the ingest handler, field by field. */
  predicate FieldsPresent(p: Payload) {
    && TruthyText(p.timestamp)
    && TruthyText(p.sessionId)
    && TruthyText(p.intent)
    && TruthyNumber(p.latencyMs)
    && p.success.Some?
    && TruthyNumber(p.confidence)
  }

  /** Validation of a request body: the presence test first, then the
      timestamp parse; an accepted body becomes the stored event. */
  function Validate(p: Payload): (r: Result<Event, Rejection>)
    ensures r.Ok? ==> r.value.sessionId != "" && r.value.intent != ""
    ensures r.Ok? ==> r.value.latencyMs != 0.0 && r.value.confidence != 0.0
    ensures r.Ok? ==> p.parsedTimestamp == Some(r.value.timestamp)
    ensures r.Ok? ==> p.success == Some(r.value.success)
    ensures r == Err(InvalidTimestampFormat) <==> FieldsPresent(p) && p.parsedTimestamp.None?
    ensures !FieldsPresent(p) ==> r == Err(InvalidPayload)
    ensures FieldsPresent(p) && p.parsedTimestamp.Some? ==> r.Ok?
  {
    if !FieldsPresent(p) then
      Err(InvalidPayload)
    else if p.parsedTimestamp.None? then
      Err(InvalidTimestampFormat)
    else
      Ok(Event(p.parsedTimestamp.value, p.sessionId.value, p.intent.value,
               p.latencyMs.value, p.success.value, p.confidence.value))
  }

  /** The request body a producer sends for event `e`, with `text` the
      timestamp as written. */
  function Encode(e: Event, text: string): Payload {
    Payload(Some(text), Some(e.timestamp), Some(e.sessionId), Some(e.intent),
            Some(e.latencyMs), Some(e.success), Some(e.confidence))
  }

  /** The events the handler accepts unchanged: both text fields non-empty and
      neither latency nor confidence zero. */
  predicate Acceptable(e: Event) {
    e.sessionId != "" && e.intent != "" && e.latencyMs != 0.0 && e.confidence != 0.0
  }

  /** Round trip: encoding an event and validating the body gives the event
      back exactly when it passes the truthiness tests; otherwise the body is
      rejected as an invalid payload. */
  lemma ValidateEncode(e: Event, text: string)
    requires text != ""
    ensures Validate(Encode(e, text)) == if Acceptable(e) then Ok(e) else Err(InvalidPayload)
  {
  }

  /** Every accepted body is the encoding of its event, so validation loses
      nothing but the timestamp text. */
  lemma ValidateDecodes(p: Payload)
    requires Validate(p).Ok?
    ensures Acceptable(Validate(p).value)
    ensures Encode(Validate(p).value, p.timestamp.value) == p
  {
  }

  /** A latency or confidence of exactly zero is rejected, as JavaScript treats
      zero as falsy. */
  lemma ZeroMeasurementRejected(p: Payload)
    requires p.latencyMs == Some(0.0) || p.confidence == Some(0.0)
    ensures Validate(p) == Err(InvalidPayload)
  {
  }
}
