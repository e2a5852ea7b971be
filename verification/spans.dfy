/** The slice of the OpenTelemetry tracing API the instrumentations use: a
    span as a record of what was done to it (name, kind, attributes, status,
    recorded exceptions, and how many times `end()` was called). */
module Spans {
  import opened Wrappers
  import opened Records
  import AnyValues

  type HostValue = AnyValues.HostValue

  datatype SpanKind = Internal | Server | Client | Producer | Consumer

  /** `SpanStatusCode`: UNSET, OK, ERROR. */
  datatype StatusCode = Unset | OkCode | ErrorCode

  datatype SpanStatus = SpanStatus(code: StatusCode, message: Option<string>)

  /** A thrown JavaScript value as the handlers read it: `message` is
      `String(err.message)` when `err` is an object whose `message` is neither
      `null` nor `undefined`, and `text` is `String(err)`. */
  datatype Thrown = Thrown(message: Option<string>, text: string)

  datatype SpanRecord = SpanRecord(
    name: string,
    kind: SpanKind,
    attributes: Record<HostValue>,
    status: SpanStatus,
    exceptions: seq<Thrown>,
    ends: nat)

  /** A span as `startSpan` / `startActiveSpan` hand it out: unset status,
      nothing recorded, not ended. */
  function StartSpan(name: string, kind: SpanKind, attributes: Record<HostValue>): (s: SpanRecord)
    ensures s.name == name && s.kind == kind && s.attributes == attributes
    ensures s.status.code == Unset && s.exceptions == [] && s.ends == 0
  {
    SpanRecord(name, kind, attributes, SpanStatus(Unset, None), [], 0)
  }

  function SetStatus(s: SpanRecord, status: SpanStatus): SpanRecord {
    s.(status := status)
  }

  function SetAttribute(s: SpanRecord, key: string, value: HostValue): SpanRecord {
    s.(attributes := Assign(s.attributes, key, value))
  }

  function RecordException(s: SpanRecord, err: Thrown): SpanRecord {
    s.(exceptions := s.exceptions + [err])
  }

  function End(s: SpanRecord): SpanRecord {
    s.(ends := s.ends + 1)
  }

  /** A span created and ended at once, as the business and app-state
      instrumentations do. */
  function Marker(name: string, attributes: Record<HostValue>): (s: SpanRecord)
    ensures s.name == name && s.kind == Internal && s.attributes == attributes
    ensures s.status.code == Unset && s.exceptions == [] && s.ends == 1
  {
    End(StartSpan(name, Internal, attributes))
  }
}
