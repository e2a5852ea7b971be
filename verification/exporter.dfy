/** `BaseHttpExporter` and the two exporters of `src/exporters/otlp-http.ts`:
    header merge, timeout default, the one-way shutdown flag, the checks `send`
    makes before and after the network call, and the one result callback of
    every export. The network call itself is an input: whether a global
    `fetch` exists and what it answers. */
module Exporter {
  import opened Wrappers
  import opened Records
  import Decimal
  import AnyValues
  import OtlpTraces
  import OtlpMetrics

  const ContentType: string := "content-type"
  const ApplicationJson: string := "application/json"
  const DefaultTimeoutMillis: int := 15_000

  datatype ExporterOptions = ExporterOptions(url: string, headers: Option<Record<string>>, timeoutMillis: Option<int>)

  datatype HttpExporter = HttpExporter(url: string, headers: Record<string>, timeoutMillis: int, isShutdown: bool)

  /** The constructor: `content-type: application/json` first, then the
      caller's headers spread over it, so a caller's `content-type` wins;
      the timeout defaults to 15000 ms only when absent. */
  function NewExporter(options: ExporterOptions): (e: HttpExporter)
    requires options.headers.Some? ==> UniqueKeys(options.headers.value)
    ensures e.url == options.url && !e.isShutdown
    ensures UniqueKeys(e.headers)
    ensures Get(e.headers, ContentType) ==
      if options.headers.Some? && HasKey(options.headers.value, ContentType)
      then Get(options.headers.value, ContentType) else Some(ApplicationJson)
    ensures forall k :: k != ContentType ==>
      Get(e.headers, k) == if options.headers.Some? then Get(options.headers.value, k) else None
    ensures options.timeoutMillis.None? ==> e.timeoutMillis == DefaultTimeoutMillis
    ensures options.timeoutMillis.Some? ==> e.timeoutMillis == options.timeoutMillis.value
  {
    var base := [(ContentType, ApplicationJson)];
    var caller := options.headers.GetOr([]);
    var headers := Spread(base, caller);
    SpreadUnique(base, caller);
    assert forall k :: Get(headers, k) == if HasKey(caller, k) then Get(caller, k) else Get(base, k) by {
      forall k ensures Get(headers, k) == if HasKey(caller, k) then Get(caller, k) else Get(base, k) {
        SpreadGet(base, caller, k);
      }
    }
    HttpExporter(options.url, headers, options.timeoutMillis.GetOr(DefaultTimeoutMillis), false)
  }

  /** `shutdown()`: sets the flag and nothing else. */
  function Shutdown(e: HttpExporter): (e': HttpExporter)
    ensures e'.isShutdown
    ensures e'.url == e.url && e'.headers == e.headers && e'.timeoutMillis == e.timeoutMillis
  {
    e.(isShutdown := true)
  }

  /** What the global `fetch` does with a request: answer with a status, or
      reject (a network failure or an abort after the timeout). */
  datatype FetchAnswer = Response(ok: bool, status: int) | Rejected(message: string)

  /** The runtime as `send` sees it. */
  datatype Environment = Environment(hasFetch: bool, answer: FetchAnswer)

  datatype Request = Request(url: string, httpMethod: string, headers: Record<string>, body: string)

  datatype SendError = ShutDownError | NoFetchError | StatusError(status: int) | NetworkError(message: string)

  /** The message of each error `send` raises. */
  function ErrorMessage(err: SendError): string {
    match err
    case ShutDownError => "Exporter is shut down"
    case NoFetchError => "global fetch is not available in this environment"
    case StatusError(status) => "Failed to export telemetry (" + Decimal.IntToString(status) + ")"
    case NetworkError(message) => message
  }

  /** One call of `send`: the request handed to `fetch`, if any, and the error
      it ends with, if any. */
  datatype SendOutcome = SendOutcome(request: Option<Request>, error: Option<SendError>)

  /** `send(body)`, with the body already serialized. */
  function Send(e: HttpExporter, env: Environment, body: string): (r: SendOutcome)
    ensures e.isShutdown ==> r == SendOutcome(None, Some(ShutDownError))
    ensures !e.isShutdown && !env.hasFetch ==> r == SendOutcome(None, Some(NoFetchError))
    ensures r.request.Some? <==> !e.isShutdown && env.hasFetch
    ensures r.request.Some? ==> r.request.value == Request(e.url, "POST", e.headers, body)
    ensures r.error.None? <==> r.request.Some? && env.answer.Response? && env.answer.ok
    ensures r.request.Some? && env.answer.Response? && !env.answer.ok ==> r.error == Some(StatusError(env.answer.status))
    ensures r.request.Some? && env.answer.Rejected? ==> r.error == Some(NetworkError(env.answer.message))
  {
    if e.isShutdown then SendOutcome(None, Some(ShutDownError))
    else if !env.hasFetch then SendOutcome(None, Some(NoFetchError))
    else
      var request := Request(e.url, "POST", e.headers, body);
      match env.answer
      case Response(ok, status) =>
        if ok then SendOutcome(Some(request), None) else SendOutcome(Some(request), Some(StatusError(status)))
      case Rejected(message) => SendOutcome(Some(request), Some(NetworkError(message)))
  }

  /** The SDK's `ExportResultCode`. */
  datatype ResultCode = Success | Failed

  /** The error handed to the result callback: one that `send` raised, or the
      `RangeError` thrown while the payload was built. */
  datatype ExportError = SendFailed(sendError: SendError) | EncodeFailed(encodeError: AnyValues.EncodeError)

  datatype ExportResult = ExportResult(code: ResultCode, error: Option<ExportError>)

  /** One export: the request sent, if any, and every invocation of the result
      callback, in order. */
  datatype ExportOutcome = ExportOutcome(request: Option<Request>, callbacks: seq<ExportResult>)

  /** The body of `export`, for a payload already serialized: send, then
      report SUCCESS, or FAILED with the error `send` raised. */
  function Export(e: HttpExporter, env: Environment, body: string): (r: ExportOutcome)
    ensures |r.callbacks| == 1
    ensures r.callbacks[0].code == Success <==> Send(e, env, body).error.None?
    ensures r.callbacks[0].code == Success ==> r.callbacks[0].error.None?
    ensures r.callbacks[0].code == Failed ==>
      r.callbacks[0].error == Some(SendFailed(Send(e, env, body).error.value))
    ensures r.request == Send(e, env, body).request
  {
    var sent := Send(e, env, body);
    match sent.error
    case None => ExportOutcome(sent.request, [ExportResult(Success, None)])
    case Some(err) => ExportOutcome(sent.request, [ExportResult(Failed, Some(SendFailed(err)))])
  }

  /** The `try` block of `export`: the payload is built before `send` is
      called, so a throw while building it is caught and reported as FAILED
      with nothing sent, whatever the state of the exporter. */
  function ExportBuilt<P>(e: HttpExporter, env: Environment, stringify: P -> string, payload: Result<P, AnyValues.EncodeError>)
    : (r: ExportOutcome)
    ensures |r.callbacks| == 1
    ensures payload.Err? ==> r == ExportOutcome(None, [ExportResult(Failed, Some(EncodeFailed(AnyValues.InvalidTimeValue)))])
    ensures payload.Ok? ==> r == Export(e, env, stringify(payload.value))
    ensures r.request.Some? <==> payload.Ok? && !e.isShutdown && env.hasFetch
    ensures r.request.Some? ==> r.request.value == Request(e.url, "POST", e.headers, stringify(payload.value))
    ensures r.callbacks[0].code == Success ==> r.request.Some? && env.answer.Response? && env.answer.ok
  {
    match payload
    case Err(_) => ExportOutcome(None, [ExportResult(Failed, Some(EncodeFailed(AnyValues.InvalidTimeValue)))])
    case Ok(p) => Export(e, env, stringify(p))
  }

  /** `ReactNativeOTLPTraceExporter.export`: the spans grouped into one trace
      request and sent as JSON; an invalid date anywhere in the batch fails
      the export before anything is sent. `stringify` stands for
      `JSON.stringify`. */
  function ExportSpans(
    e: HttpExporter, env: Environment, rt: AnyValues.Runtime, json: AnyValues.HostValue -> string,
    stringify: seq<OtlpTraces.ResourceSpans> -> string, spans: seq<OtlpTraces.Span>): (r: ExportOutcome)
    ensures |r.callbacks| == 1
    ensures OtlpTraces.PayloadHasInvalidDate(json, spans) ==>
      r == ExportOutcome(None, [ExportResult(Failed, Some(EncodeFailed(AnyValues.InvalidTimeValue)))])
    ensures r.request.Some? <==> !OtlpTraces.PayloadHasInvalidDate(json, spans) && !e.isShutdown && env.hasFetch
    ensures r.request.Some? ==>
      r.request.value == Request(e.url, "POST", e.headers, stringify(OtlpTraces.GroupSpansByJoinedKeys(rt, json, spans)))
    ensures r.callbacks[0].code == Success ==> r.request.Some? && env.answer.Response? && env.answer.ok
  {
    ExportBuilt(e, env, stringify, OtlpTraces.GroupSpansAsWritten(rt, json, spans))
  }

  /** The trace export over the corrected pipeline: identity keys and the
      encoder that never throws. Every export reaches `send`. */
  function ExportSpansCorrected(
    e: HttpExporter, env: Environment, rt: AnyValues.Runtime, json: AnyValues.HostValue -> string,
    stringify: seq<OtlpTraces.ResourceSpans> -> string, spans: seq<OtlpTraces.Span>): (r: ExportOutcome)
    ensures |r.callbacks| == 1
    ensures r.request.Some? <==> !e.isShutdown && env.hasFetch
    ensures r.request.Some? ==> r.request.value.body == stringify(OtlpTraces.GroupSpans(rt, json, spans))
  {
    Export(e, env, stringify(OtlpTraces.GroupSpans(rt, json, spans)))
  }

  /** `ReactNativeOTLPMetricsExporter.export`: the one collection wrapped as
      the only entry of the request; an invalid date in it fails the export
      before anything is sent. */
  function ExportMetrics(
    e: HttpExporter, env: Environment, rt: AnyValues.Runtime,
    stringify: seq<OtlpMetrics.ResourceMetricsEnvelope> -> string, metrics: OtlpMetrics.ResourceMetrics): (r: ExportOutcome)
    ensures |r.callbacks| == 1
    ensures OtlpMetrics.ResourceMetricsHasInvalidDate(metrics) ==>
      r == ExportOutcome(None, [ExportResult(Failed, Some(EncodeFailed(AnyValues.InvalidTimeValue)))])
    ensures r.request.Some? <==> !OtlpMetrics.ResourceMetricsHasInvalidDate(metrics) && !e.isShutdown && env.hasFetch
    ensures r.request.Some? ==>
      r.request.value == Request(e.url, "POST", e.headers, stringify(OtlpMetrics.GroupMetrics(rt, [metrics])))
    ensures r.callbacks[0].code == Success ==> r.request.Some? && env.answer.Response? && env.answer.ok
  {
    var payload := OtlpMetrics.GroupMetricsAsWritten(rt, [metrics]);
    assert payload.Err? <==> OtlpMetrics.ResourceMetricsHasInvalidDate(metrics) by {
      assert [metrics][0] == metrics;
    }
    ExportBuilt(e, env, stringify, payload)
  }

  /** The metric export over the corrected encoder. */
  function ExportMetricsCorrected(
    e: HttpExporter, env: Environment, rt: AnyValues.Runtime,
    stringify: seq<OtlpMetrics.ResourceMetricsEnvelope> -> string, metrics: OtlpMetrics.ResourceMetrics): (r: ExportOutcome)
    ensures |r.callbacks| == 1
    ensures r.request.Some? <==> !e.isShutdown && env.hasFetch
    ensures r.request.Some? ==> r.request.value.body == stringify(OtlpMetrics.GroupMetrics(rt, [metrics]))
  {
    Export(e, env, stringify(OtlpMetrics.GroupMetrics(rt, [metrics])))
  }

  /** A span holding an invalid date fails the whole batch, even on an
      exporter that has been shut down and so would otherwise report
      "Exporter is shut down". */
  lemma InvalidDateFailsBeforeShutdownCheck(
    e: HttpExporter, env: Environment, rt: AnyValues.Runtime, json: AnyValues.HostValue -> string,
    stringify: seq<OtlpTraces.ResourceSpans> -> string, spans: seq<OtlpTraces.Span>, i: nat)
    requires i < |spans| && OtlpTraces.SpanHasInvalidDate(spans[i])
    ensures ExportSpans(e, env, rt, json, stringify, spans).callbacks ==
      [ExportResult(Failed, Some(EncodeFailed(AnyValues.InvalidTimeValue)))]
    ensures ExportSpans(e, env, rt, json, stringify, spans).request.None?
    ensures e.isShutdown ==>
      ExportSpansCorrected(e, env, rt, json, stringify, spans).callbacks == [ExportResult(Failed, Some(SendFailed(ShutDownError)))]
  {
  }

  // ---------------------------------------------------------------------
  // A sequence of calls on one exporter

  datatype Call = SendCall(env: Environment, body: string) | ShutdownCall

  /** Runs the calls in order; each send yields its outcome, each shutdown
      yields `None`. */
  function Run(e: HttpExporter, calls: seq<Call>): (r: (HttpExporter, seq<Option<SendOutcome>>))
    ensures |r.1| == |calls|
    ensures r.0.url == e.url && r.0.headers == e.headers && r.0.timeoutMillis == e.timeoutMillis
    decreases |calls|
  {
    if |calls| == 0 then (e, [])
    else
      var n := |calls| - 1;
      var (before, outcomes) := Run(e, calls[..n]);
      match calls[n]
      case ShutdownCall => (Shutdown(before), outcomes + [None])
      case SendCall(env, body) => (before, outcomes + [Some(Send(before, env, body))])
  }

  /** Shutdown is permanent: once called, the flag stays set, and every later
      send fails with "Exporter is shut down" without reaching `fetch`. */
  lemma {:induction false} ShutdownIsFinal(e: HttpExporter, calls: seq<Call>, i: nat)
    requires i < |calls| && calls[i].ShutdownCall?
    ensures Run(e, calls).0.isShutdown
    ensures forall j :: i < j < |calls| && calls[j].SendCall? ==>
      Run(e, calls).1[j] == Some(SendOutcome(None, Some(ShutDownError)))
    decreases |calls|
  {
    var n := |calls| - 1;
    var init := calls[..n];
    if i < n {
      ShutdownIsFinal(e, init, i);
    }
    var before := Run(e, init).0;
    var outcomes := Run(e, calls).1;
    forall j | i < j < |calls| && calls[j].SendCall?
      ensures outcomes[j] == Some(SendOutcome(None, Some(ShutDownError)))
    {
      if j < n {
        assert init[j] == calls[j];
      } else {
        assert before.isShutdown;
      }
    }
  }

  /** Starting from a fresh exporter, the flag is set exactly when some
      shutdown call has been made. */
  lemma {:induction false} ShutdownFlag(e: HttpExporter, calls: seq<Call>)
    requires !e.isShutdown
    ensures Run(e, calls).0.isShutdown <==> exists i :: 0 <= i < |calls| && calls[i].ShutdownCall?
    decreases |calls|
  {
    if |calls| > 0 {
      var n := |calls| - 1;
      ShutdownFlag(e, calls[..n]);
      if exists i :: 0 <= i < n && calls[..n][i].ShutdownCall? {
        var i :| 0 <= i < n && calls[..n][i].ShutdownCall?;
        assert calls[i].ShutdownCall?;
      }
      if exists i :: 0 <= i < |calls| && calls[i].ShutdownCall? {
        var i :| 0 <= i < |calls| && calls[i].ShutdownCall?;
        if i < n {
          assert calls[..n][i].ShutdownCall?;
        }
      }
    }
  }

  /** Shutting down twice reaches the same state as shutting down once. */
  lemma ShutdownIdempotent(e: HttpExporter, calls: seq<Call>)
    ensures Run(e, calls + [ShutdownCall]).0 == Run(e, calls + [ShutdownCall, ShutdownCall]).0
  {
    var once := calls + [ShutdownCall];
    var twice := calls + [ShutdownCall, ShutdownCall];
    assert twice[..|once|] == once;
    assert once[..|calls|] == calls;
  }
}
