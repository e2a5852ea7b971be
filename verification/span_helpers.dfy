/** The helpers of `src/context.ts`: `startActiveSpan`, which runs a callback
    inside a span and turns its completion into the span's status, and
    `withParent`, which runs a callback under a given or the active context. */
module SpanHelpers {
  import opened Wrappers
  import opened Spans
  import StackContext

  /** The status message of a failure: `String(err?.message ?? err)`. */
  function ErrorText(err: Thrown): (text: string)
    ensures err.message.Some? ==> text == err.message.value
    ensures err.message.None? ==> text == err.text
  {
    err.message.GetOr(err.text)
  }

  /** `startActiveSpan(name, fn, kind)`. The callback gets the new span and
      may act on it; its completion (`Ok` value or `Err` thrown value) is the
      helper's. On success the status becomes OK; on failure the exception is
      recorded and the status becomes ERROR with the error's text, and the
      error is rethrown. The span is ended once on both paths. */
  function StartActiveSpan<T>(name: string, kind: Option<SpanKind>,
                              fn: SpanRecord -> (SpanRecord, Result<T, Thrown>)): (r: (SpanRecord, Result<T, Thrown>))
    ensures var (seen, completion) := fn(StartSpan(name, kind.GetOr(Internal), []));
      && r.1 == completion
      && r.0.name == seen.name && r.0.kind == seen.kind && r.0.attributes == seen.attributes
      && r.0.ends == seen.ends + 1
      && (completion.Ok? ==>
            r.0.status == SpanStatus(OkCode, None) && r.0.exceptions == seen.exceptions)
      && (completion.Err? ==>
            r.0.status == SpanStatus(ErrorCode, Some(ErrorText(completion.error))) &&
            r.0.exceptions == seen.exceptions + [completion.error])
  {
    var (span, completion) := fn(StartSpan(name, kind.GetOr(Internal), []));
    match completion
    case Ok(_) => (End(SetStatus(span, SpanStatus(OkCode, None))), completion)
    case Err(err) =>
      (End(SetStatus(RecordException(span, err), SpanStatus(ErrorCode, Some(ErrorText(err))))), completion)
  }

  /** A callback that leaves the span alone and completes with `c`. */
  function Completes<T>(c: Result<T, Thrown>): SpanRecord -> (SpanRecord, Result<T, Thrown>) {
    span => (span, c)
  }

  /** For a callback that does not touch its span, the helper produces exactly
      one ended span named `name`, of the given kind or INTERNAL, whose status
      is OK exactly when the callback returned. */
  lemma SpanOutcome<T>(name: string, kind: Option<SpanKind>, c: Result<T, Thrown>)
    ensures var (span, completion) := StartActiveSpan(name, kind, Completes(c));
      && completion == c
      && span.name == name && span.kind == kind.GetOr(Internal) && span.ends == 1
      && (span.status.code == OkCode <==> c.Ok?)
      && (span.status.code == ErrorCode <==> c.Err?)
      && |span.exceptions| == (if c.Err? then 1 else 0)
  {
    var started := StartSpan(name, kind.GetOr(Internal), []);
    assert Completes(c)(started) == (started, c);
  }

  /** `withParent(parentContext, fn)`: `context.with` under the given context,
      or under the active one when it is omitted. */
  function WithParent(m: StackContext.Manager, parent: Option<StackContext.Context>,
                      fn: StackContext.Callable): StackContext.Outcome
  {
    StackContext.RunWith(m, parent.GetOr(StackContext.Active(m)), fn)
  }

  /** Under an enabled manager the callback starts under the given parent, or
      under the context that was active when it was omitted, and the stack is
      as before once it returns or throws. */
  lemma WithParentScopes(m: StackContext.Manager, parent: Option<StackContext.Context>, body: StackContext.Stmt)
    requires m.enabled && StackContext.NoDisable(body)
    ensures var o := WithParent(m, parent, StackContext.Plain(StackContext.Seq(StackContext.Observe, body)));
      |o.trace| > 0 && o.trace[0] == parent.GetOr(StackContext.Active(m)) && o.m.stack == m.stack
  {
    var c := parent.GetOr(StackContext.Active(m));
    var f := StackContext.Plain(StackContext.Seq(StackContext.Observe, body));
    assert StackContext.NoDisableFn(f);
    StackContext.WithRestores(m, c, f);
  }
}
