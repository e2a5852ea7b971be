/** The outbound HTTP instrumentation of `src/instrumentations/fetch.ts`: the
    wrapper installed over the global `fetch`. It picks the method and URL,
    opens a CLIENT span, adds a W3C `traceparent` header (version `00`, flags
    `01`), forwards the call and turns its answer into the span's outcome.
    The `Request` and `Headers` constructors and the original `fetch` are
    foreign: what they produce is part of the environment. */
module FetchInstrumentation {
  import opened Wrappers
  import opened Records
  import opened Spans
  import AnyValues

  // ---------------------------------------------------------------------
  // Method and URL

  function UpperChar(c: char): (u: char)
    ensures 'a' <= c <= 'z' ==> u as int == c as int - 32
    ensures !('a' <= c <= 'z') ==> u == c
  {
    if 'a' <= c <= 'z' then (c as int - 32) as char else c
  }

  /** `String.prototype.toUpperCase` on ASCII letters. */
  function ToUpperCase(s: string): (u: string)
    ensures |u| == |s|
    ensures forall i :: 0 <= i < |s| ==> u[i] == UpperChar(s[i])
  {
    seq(|s|, i requires 0 <= i < |s| => UpperChar(s[i]))
  }

  predicate NoLowerCase(s: string) {
    forall i :: 0 <= i < |s| ==> !('a' <= s[i] <= 'z')
  }

  type Headers = Record<string>

  /** The first argument of `fetch`: a URL string, an object (a `Request`, a
      `URL`, or a plain object) with the properties the wrapper reads, or
      nothing. A `method` is present only when it is a string. */
  datatype FetchInput =
    | UrlText(text: string)
    | InputObject(httpMethod: Option<string>, url: Option<string>, headers: Option<Headers>)
    | NoInput

  /** The second argument of `fetch`, when given. */
  datatype FetchInit = FetchInit(httpMethod: Option<string>, headers: Option<Headers>, others: Record<AnyValues.HostValue>)

  /** What `new Request(input, init)` gives. */
  datatype RequestLike = RequestLike(httpMethod: Option<string>, url: Option<string>, headers: Option<Headers>)

  /** `normalizeRequest`: no `Request` constructor, a request, or a throw. */
  datatype Normalized = NoRequestCtor | Constructed(request: RequestLike) | ConstructorThrew(error: Thrown)

  function InputMethod(input: FetchInput): Option<string> {
    if input.InputObject? then input.httpMethod else None
  }

  function InputHeaders(input: FetchInput): Option<Headers> {
    if input.InputObject? then input.headers else None
  }

  /** The request's method, else the init's, else the input's, each upper
      cased, else `GET`. */
  function SelectMethod(request: Option<RequestLike>, init: Option<FetchInit>, input: FetchInput): (m: string)
    ensures NoLowerCase(m)
    ensures request.Some? && request.value.httpMethod.Some? ==> m == ToUpperCase(request.value.httpMethod.value)
    ensures (request.None? || request.value.httpMethod.None?) && init.Some? && init.value.httpMethod.Some? ==>
      m == ToUpperCase(init.value.httpMethod.value)
    ensures (request.None? || request.value.httpMethod.None?) && (init.None? || init.value.httpMethod.None?) ==>
      m == if InputMethod(input).Some? then ToUpperCase(InputMethod(input).value) else "GET"
  {
    if request.Some? && request.value.httpMethod.Some? then ToUpperCase(request.value.httpMethod.value)
    else if init.Some? && init.value.httpMethod.Some? then ToUpperCase(init.value.httpMethod.value)
    else if InputMethod(input).Some? then ToUpperCase(InputMethod(input).value)
    else "GET"
  }

  /** Upper-casing is idempotent, so a method that is already upper case is
      forwarded unchanged. */
  lemma ToUpperCaseIdempotent(s: string)
    ensures ToUpperCase(ToUpperCase(s)) == ToUpperCase(s)
    ensures NoLowerCase(s) ==> ToUpperCase(s) == s
  {
  }

  /** The request's URL, else the input when it is a string, else the input's
      `url` property. */
  function SelectUrl(request: Option<RequestLike>, input: FetchInput): (u: Option<string>)
    ensures request.Some? && request.value.url.Some? ==> u == request.value.url
    ensures (request.None? || request.value.url.None?) && input.UrlText? ==> u == Some(input.text)
    ensures (request.None? || request.value.url.None?) && input.InputObject? ==> u == input.url
    ensures (request.None? || request.value.url.None?) && input.NoInput? ==> u.None?
  {
    if request.Some? && request.value.url.Some? then request.value.url
    else match input
      case UrlText(text) => Some(text)
      case InputObject(_, url, _) => url
      case NoInput => None
  }

  // ---------------------------------------------------------------------
  // traceparent (section 3.2 of the W3C Trace Context recommendation)

  datatype SpanContext = SpanContext(traceId: string, spanId: string)

  /** `00-<traceId>-<spanId>-01` when both ids are non-empty, else none. */
  function Traceparent(sc: SpanContext): (tp: Option<string>)
    ensures tp.Some? <==> sc.traceId != "" && sc.spanId != ""
    ensures tp.Some? ==> |tp.value| == |sc.traceId| + |sc.spanId| + 7
  {
    if sc.traceId != "" && sc.spanId != "" then Some("00-" + sc.traceId + "-" + sc.spanId + "-01") else None
  }

  predicate IsLowerHex(s: string) {
    forall i :: 0 <= i < |s| ==> ('0' <= s[i] <= '9' || 'a' <= s[i] <= 'f')
  }

  /** The ids a span context carries: 32 and 16 lower-case hex digits. */
  predicate ValidIds(sc: SpanContext) {
    |sc.traceId| == 32 && |sc.spanId| == 16 && IsLowerHex(sc.traceId) && IsLowerHex(sc.spanId)
  }

  /** The fields of a `traceparent` header value. */
  datatype TraceparentFields = TraceparentFields(version: string, traceId: string, parentId: string, flags: string)

  /** Reads a version-00 header value: 55 characters, four dash-separated
      lower-case hex fields of widths 2, 32, 16 and 2. */
  function ParseTraceparent(s: string): Option<TraceparentFields> {
    if |s| == 55 && s[2] == '-' && s[35] == '-' && s[52] == '-' &&
       IsLowerHex(s[0..2]) && IsLowerHex(s[3..35]) && IsLowerHex(s[36..52]) && IsLowerHex(s[53..55])
    then Some(TraceparentFields(s[0..2], s[3..35], s[36..52], s[53..55]))
    else None
  }

  /** For a context with valid ids the header is well formed and reads back
      as version `00`, the context's ids, and the sampled flag `01`. */
  lemma TraceparentRoundTrip(sc: SpanContext)
    requires ValidIds(sc)
    ensures Traceparent(sc).Some?
    ensures ParseTraceparent(Traceparent(sc).value) == Some(TraceparentFields("00", sc.traceId, sc.spanId, "01"))
  {
    var s := Traceparent(sc).value;
    assert s == "00-" + sc.traceId + "-" + sc.spanId + "-01";
    assert s[0..2] == "00";
    assert s[3..35] == sc.traceId;
    assert s[36..52] == sc.spanId;
    assert s[53..55] == "01";
  }

  // ---------------------------------------------------------------------
  // Headers

  /** The global `Headers` class of React Native is the whatwg-fetch
      polyfill; its object keeps a map from lower-cased names to values. */
  type HeaderMap = Record<string>

  function LowerChar(c: char): (l: char)
    ensures 'A' <= c <= 'Z' ==> l as int == c as int + 32
    ensures !('A' <= c <= 'Z') ==> l == c
  {
    if 'A' <= c <= 'Z' then (c as int + 32) as char else c
  }

  /** `String.prototype.toLowerCase` on ASCII letters. */
  function ToLowerCase(s: string): (l: string)
    ensures |l| == |s|
    ensures forall i :: 0 <= i < |s| ==> l[i] == LowerChar(s[i])
  {
    seq(|s|, i requires 0 <= i < |s| => LowerChar(s[i]))
  }

  predicate NoUpperCase(s: string) {
    forall i :: 0 <= i < |s| ==> !('A' <= s[i] <= 'Z')
  }

  /** Two names that differ at most in the case of their letters. */
  predicate EqualIgnoringCase(a: string, b: string) {
    |a| == |b| && forall i :: 0 <= i < |a| ==> LowerChar(a[i]) == LowerChar(b[i])
  }

  /** A character the polyfill accepts in a header name: an ASCII letter or
      digit, or one of ``-#$%&'*+.^_`|~!``. */
  predicate TokenChar(c: char) {
    'a' <= c <= 'z' || 'A' <= c <= 'Z' || '0' <= c <= '9' || c in "-#$%&'*+.^_`|~!"
  }

  predicate ValidName(name: string) {
    |name| > 0 && forall i :: 0 <= i < |name| ==> TokenChar(name[i])
  }

  /** The `TypeError` of `normalizeName`. */
  function InvalidName(name: string): Thrown {
    var message := "Invalid character in header field name: \"" + name + "\"";
    Thrown(Some(message), "TypeError: " + message)
  }

  /** `normalizeName`: the lower-cased name, or a `TypeError` for an empty
      name or one with a character outside the token set. */
  function NormalizeName(name: string): (r: Result<string, Thrown>)
    ensures r.Ok? <==> ValidName(name)
    ensures r.Ok? ==> r.value == ToLowerCase(name) && NoUpperCase(r.value)
    ensures r.Err? ==> r.error == InvalidName(name)
  {
    if ValidName(name) then Ok(ToLowerCase(name)) else Err(InvalidName(name))
  }

  /** Valid names share a map key exactly when they differ only in case. */
  lemma SameKeyIgnoringCase(a: string, b: string)
    requires ValidName(a) && ValidName(b)
    ensures NormalizeName(a) == NormalizeName(b) <==> EqualIgnoringCase(a, b)
  {
    var la, lb := ToLowerCase(a), ToLowerCase(b);
    if EqualIgnoringCase(a, b) {
      assert la == lb;
    }
    if la == lb {
      assert forall i :: 0 <= i < |a| ==> LowerChar(a[i]) == la[i] == lb[i] == LowerChar(b[i]);
    }
  }

  /** Every key of the map is a lower-case name. */
  ghost predicate LowerKeys(m: HeaderMap) {
    forall q :: HasKey(m, q) ==> NoUpperCase(q)
  }

  /** `append(name, value)`: a second value under a name already present is
      joined to the first with ", ", unless the first is empty (falsy). */
  function Append(m: HeaderMap, name: string, value: string): (r: Result<HeaderMap, Thrown>)
    ensures r.Ok? <==> ValidName(name)
    ensures r.Err? ==> r.error == InvalidName(name)
    ensures r.Ok? ==> forall q :: HasKey(r.value, q) <==> q == ToLowerCase(name) || HasKey(m, q)
    ensures r.Ok? && UniqueKeys(m) ==> UniqueKeys(r.value)
    ensures r.Ok? ==> forall q :: q != ToLowerCase(name) ==> Get(r.value, q) == Get(m, q)
    ensures r.Ok? && !HasKey(m, ToLowerCase(name)) ==> Get(r.value, ToLowerCase(name)) == Some(value)
  {
    var key :- NormalizeName(name);
    var prior := Get(m, key);
    var combined := if prior.Some? && prior.value != "" then prior.value + ", " + value else value;
    AssignGet(m, key, combined, key);
    forall q ensures HasKey(Assign(m, key, combined), q) <==> q == key || HasKey(m, q)
      ensures q != key ==> Get(Assign(m, key, combined), q) == Get(m, q) {
      AssignGet(m, key, combined, q);
    }
    if UniqueKeys(m) then
      AssignUnique(m, key, combined);
      Ok(Assign(m, key, combined))
    else Ok(Assign(m, key, combined))
  }

  /** True when every name of the record is valid. */
  predicate AllNamesValid(existing: Record<string>) {
    forall i :: 0 <= i < |existing| ==> ValidName(existing[i].0)
  }

  /** `new Headers(existing)` for a record (or another `Headers` object,
      whose map it copies): every property appended in order; the first
      invalid name throws. */
  function Construct(existing: Record<string>): (r: Result<HeaderMap, Thrown>)
    ensures r.Ok? <==> AllNamesValid(existing)
    ensures r.Err? ==>
      exists j :: 0 <= j < |existing| && r.error == InvalidName(existing[j].0) && !ValidName(existing[j].0) &&
        forall i :: 0 <= i < j ==> ValidName(existing[i].0)
    ensures r.Ok? ==> UniqueKeys(r.value) && LowerKeys(r.value)
    ensures r.Ok? ==> forall q :: HasKey(r.value, q) <==> exists i :: 0 <= i < |existing| && ToLowerCase(existing[i].0) == q
    decreases |existing|
  {
    if |existing| == 0 then Ok([])
    else
      var n := |existing| - 1;
      var init := existing[..n];
      assert forall i :: 0 <= i < n ==> init[i] == existing[i];
      var m :- Construct(init);
      var r := Append(m, existing[n].0, existing[n].1);
      assert r.Err? ==> !ValidName(existing[n].0) && forall i :: 0 <= i < n ==> ValidName(existing[i].0);
      r
  }

  /** Names no two of which differ only in case. */
  predicate DistinctIgnoringCase(existing: Record<string>) {
    forall a, b :: 0 <= a < b < |existing| ==> ToLowerCase(existing[a].0) != ToLowerCase(existing[b].0)
  }

  /** The last property is appended onto the headers built from the others. */
  lemma ConstructLast(existing: Record<string>)
    requires |existing| > 0 && AllNamesValid(existing)
    ensures AllNamesValid(existing[..|existing| - 1])
    ensures Construct(existing) ==
      Append(Construct(existing[..|existing| - 1]).value, existing[|existing| - 1].0, existing[|existing| - 1].1)
  {
    var n := |existing| - 1;
    assert forall i :: 0 <= i < n ==> existing[..n][i] == existing[i];
  }

  /** With distinct names, the last name's key is new. */
  lemma LastKeyIsNew(existing: Record<string>)
    requires |existing| > 0 && AllNamesValid(existing) && DistinctIgnoringCase(existing)
    ensures !HasKey(Construct(existing[..|existing| - 1]).value, ToLowerCase(existing[|existing| - 1].0))
  {
    var n := |existing| - 1;
    var init := existing[..n];
    assert forall i :: 0 <= i < n ==> init[i] == existing[i];
    assert AllNamesValid(init);
  }

  /** When no two names differ only in case, each name's value is kept
      under its lower-cased key. */
  lemma {:induction false} ConstructKeepsValues(existing: Record<string>, i: nat)
    requires i < |existing| && AllNamesValid(existing) && DistinctIgnoringCase(existing)
    ensures Get(Construct(existing).value, ToLowerCase(existing[i].0)) == Some(existing[i].1)
    decreases |existing|
  {
    var n := |existing| - 1;
    var init := existing[..n];
    ConstructLast(existing);
    if i < n {
      assert forall j :: 0 <= j < n ==> init[j] == existing[j];
      assert DistinctIgnoringCase(init);
      ConstructKeepsValues(init, i);
      assert ToLowerCase(existing[i].0) != ToLowerCase(existing[n].0);
    } else {
      LastKeyIsNew(existing);
    }
  }

  /** Two spellings of one name are combined under the lower-cased key. */
  lemma CaseVariantsCombine()
    ensures Construct([("X-Id", "1"), ("x-id", "2")]) == Ok([("x-id", "1, 2")])
  {
    var e := [("X-Id", "1"), ("x-id", "2")];
    assert ValidName("X-Id") by { assert TokenChar('X') && TokenChar('-') && TokenChar('I') && TokenChar('d'); }
    assert ValidName("x-id") by { assert TokenChar('x') && TokenChar('-') && TokenChar('i') && TokenChar('d'); }
    assert ToLowerCase("X-Id") == "x-id";
    assert ToLowerCase("x-id") == "x-id";
    var one := [("X-Id", "1")];
    assert one[..0] == [];
    assert Construct(one[..0]) == Ok([]);
    assert Append([], "X-Id", "1") == Ok([("x-id", "1")]);
    assert Construct(one) == Ok([("x-id", "1")]);
    assert e[..1] == one;
    assert Get([("x-id", "1")], "x-id") == Some("1");
    assert "1" + ", " + "2" == "1, 2";
    assert Assign([("x-id", "1")], "x-id", "1, 2") == [("x-id", "1, 2")];
    assert Append([("x-id", "1")], "x-id", "2") == Ok([("x-id", "1, 2")]);
  }

  /** A name with a space is refused. */
  lemma InvalidNameThrows()
    ensures Construct([("x id", "1")]) == Err(InvalidName("x id"))
  {
    var e := [("x id", "1")];
    assert !TokenChar(e[0].0[1]);
    assert !ValidName(e[0].0);
    assert e[..0] == [];
    assert Construct(e[..0]) == Ok([]);
  }

  const TraceparentHeader: string := "traceparent"

  /** `buildHeaders`: none without a `Headers` constructor; otherwise a
      `Headers` built from the request's, else the init's, else the input's
      headers, with `traceparent` set when there is one. Building throws on
      an invalid name among the existing headers. */
  function BuildHeaders(canConstructHeaders: bool, request: Option<RequestLike>, init: Option<FetchInit>,
                        input: FetchInput, traceparent: Option<string>): (r: Result<Option<HeaderMap>, Thrown>)
    ensures r.Ok? <==> !canConstructHeaders || AllNamesValid(ExistingHeaders(request, init, input))
    ensures r.Err? ==> r == Construct(ExistingHeaders(request, init, input)).PropagateFailure()
    ensures r.Ok? ==> (r.value.Some? <==> canConstructHeaders)
    ensures r.Ok? && r.value.Some? ==> UniqueKeys(r.value.value) && LowerKeys(r.value.value)
    ensures r.Ok? && r.value.Some? ==>
      forall k :: Get(r.value.value, k) ==
        if k == TraceparentHeader && traceparent.Some? then traceparent
        else Get(Construct(ExistingHeaders(request, init, input)).value, k)
  {
    if !canConstructHeaders then Ok(None)
    else
      var existing := ExistingHeaders(request, init, input);
      var h :- Construct(existing);
      if traceparent.Some? then
        var withTp := Assign(h, TraceparentHeader, traceparent.value);
        assert forall k :: Get(withTp, k) == if k == TraceparentHeader then traceparent else Get(h, k) by {
          forall k ensures Get(withTp, k) == if k == TraceparentHeader then traceparent else Get(h, k) {
            AssignGet(h, TraceparentHeader, traceparent.value, k);
          }
        }
        AssignUnique(h, TraceparentHeader, traceparent.value);
        assert NoUpperCase(TraceparentHeader);
        Ok(Some(withTp))
      else Ok(Some(h))
  }

  /** A caller's `traceparent` in any spelling is replaced: the headers sent
      hold exactly one `traceparent`, the new one. */
  lemma CallerTraceparentReplaced(request: Option<RequestLike>, init: Option<FetchInit>, input: FetchInput,
                                  traceparent: string, previous: string)
    requires ExistingHeaders(request, init, input) == [("TraceParent", previous)]
    ensures BuildHeaders(true, request, init, input, Some(traceparent)) == Ok(Some([(TraceparentHeader, traceparent)]))
  {
    var e := [("TraceParent", previous)];
    assert ValidName("TraceParent") by {
      assert forall c :: c in "TraceParent" ==> TokenChar(c);
    }
    assert ToLowerCase("TraceParent") == TraceparentHeader;
    assert e[..0] == [];
    assert Construct(e[..0]) == Ok([]);
    assert Append([], "TraceParent", previous) == Ok([(TraceparentHeader, previous)]);
    assert Construct(e) == Ok([(TraceparentHeader, previous)]);
    assert Assign([(TraceparentHeader, previous)], TraceparentHeader, traceparent) == [(TraceparentHeader, traceparent)];
  }

  /** `request?.headers ?? init?.headers ?? input?.headers`, with an absent
      value giving empty headers. */
  function ExistingHeaders(request: Option<RequestLike>, init: Option<FetchInit>, input: FetchInput): Headers {
    if request.Some? && request.value.headers.Some? then request.value.headers.value
    else if init.Some? && init.value.headers.Some? then init.value.headers.value
    else InputHeaders(input).GetOr([])
  }

  // ---------------------------------------------------------------------
  // One instrumented call

  datatype Response = Response(ok: bool, status: int)

  /** The init handed to the original `fetch`: the caller's init with the
      chosen method, and the built headers when there are any. */
  datatype FinalInit = FinalInit(httpMethod: string, headers: Option<Headers>, others: Record<AnyValues.HostValue>)

  /** The first argument handed to the original `fetch`: a request rebuilt
      from the normalized one and the final init, or the caller's input. */
  datatype ForwardedInput = RebuiltRequest(from: RequestLike, init: FinalInit) | OriginalInput(input: FetchInput)

  datatype Forwarded = Forwarded(input: ForwardedInput, init: FinalInit)

  /** What the foreign parts do on this call: the `Request` constructor on the
      caller's arguments, the `Headers` constructor's presence, the new span's
      context, whether rebuilding the request throws, and the original
      `fetch`'s answer. */
  datatype FetchEnvironment = FetchEnvironment(
    normalized: Normalized,
    canConstructHeaders: bool,
    spanContext: SpanContext,
    rebuildThrows: Option<Thrown>,
    answer: Result<Response, Thrown>)

  /** One call: the span, if one was opened; the call forwarded to the
      original `fetch`, if it was made; and the wrapper's completion. */
  datatype FetchCall = FetchCall(span: Option<SpanRecord>, forwarded: Option<Forwarded>, result: Result<Response, Thrown>)

  function RequestOf(n: Normalized): Option<RequestLike> {
    if n.Constructed? then Some(n.request) else None
  }

  function StartAttributes(httpMethod: string, url: Option<string>): Record<AnyValues.HostValue> {
    [("http.method", AnyValues.Str(httpMethod)), ("http.url", AnyValues.Str(url.GetOr("")))]
  }

  const StatusCodeAttribute: string := "http.status_code"

  /** The wrapper installed as `globalThis.fetch`. */
  function InstrumentedFetch(env: FetchEnvironment, input: FetchInput, init: Option<FetchInit>): (r: FetchCall)
    ensures env.normalized.ConstructorThrew? ==> r == FetchCall(None, None, Err(env.normalized.error))
    ensures r.span.Some? <==> !env.normalized.ConstructorThrew?
    ensures r.span.Some? ==>
      var request := RequestOf(env.normalized);
      var httpMethod := SelectMethod(request, init, input);
      && r.span.value.name == "HTTP " + httpMethod
      && r.span.value.kind == Client
      && Get(r.span.value.attributes, "http.method") == Some(AnyValues.Str(httpMethod))
      && Get(r.span.value.attributes, "http.url") == Some(AnyValues.Str(SelectUrl(request, input).GetOr("")))
      && r.span.value.ends == 1
    ensures r.forwarded.Some? <==>
      && !env.normalized.ConstructorThrew?
      && (!env.canConstructHeaders || AllNamesValid(ExistingHeaders(RequestOf(env.normalized), init, input)))
      && (env.normalized.NoRequestCtor? || env.rebuildThrows.None?)
    ensures r.forwarded.Some? ==> r.result == env.answer
    ensures r.forwarded.Some? ==>
      && r.forwarded.value.init.httpMethod == SelectMethod(RequestOf(env.normalized), init, input)
      && r.forwarded.value.init.headers ==
           if env.canConstructHeaders
           then BuildHeaders(true, RequestOf(env.normalized), init, input, Traceparent(env.spanContext)).value
           else if init.Some? then init.value.headers else None
    ensures r.span.Some? && env.canConstructHeaders && !AllNamesValid(ExistingHeaders(RequestOf(env.normalized), init, input)) ==>
      r.forwarded.None? && r.result == Construct(ExistingHeaders(RequestOf(env.normalized), init, input)).PropagateFailure()
    ensures r.span.Some? && r.forwarded.None? ==>
      r.result == if BuildHeaders(env.canConstructHeaders, RequestOf(env.normalized), init, input, Traceparent(env.spanContext)).Err?
                  then BuildHeaders(env.canConstructHeaders, RequestOf(env.normalized), init, input, Traceparent(env.spanContext)).PropagateFailure()
                  else Err(env.rebuildThrows.value)
    ensures r.span.Some? ==>
      (r.span.value.status.code == ErrorCode <==> r.result.Err? || !r.result.value.ok)
    ensures r.span.Some? ==>
      (HasKey(r.span.value.attributes, StatusCodeAttribute) <==> r.result.Ok?)
    ensures r.span.Some? && r.result.Ok? ==>
      Get(r.span.value.attributes, StatusCodeAttribute) == Some(AnyValues.Num(AnyValues.Finite(r.result.value.status as real)))
    ensures r.span.Some? && r.result.Err? ==>
      r.span.value.exceptions == [r.result.error] && r.span.value.status.message == r.result.error.message
    ensures r.span.Some? && r.result.Ok? ==> r.span.value.exceptions == []
  {
    match env.normalized
    case ConstructorThrew(e) => FetchCall(None, None, Err(e))
    case _ =>
      var request := RequestOf(env.normalized);
      var httpMethod := SelectMethod(request, init, input);
      var url := SelectUrl(request, input);
      var started := StartSpan("HTTP " + httpMethod, Client, StartAttributes(httpMethod, url));
      assert started.attributes[1..] == [("http.url", AnyValues.Str(url.GetOr("")))];
      var traceparent := Traceparent(env.spanContext);
      var attempt: Result<Forwarded, Thrown> :=
        match BuildHeaders(env.canConstructHeaders, request, init, input, traceparent)
        case Err(err) => Err(err)
        case Ok(headers) =>
          var finalInit := FinalInit(httpMethod, if headers.Some? then headers else if init.Some? then init.value.headers else None,
                                     if init.Some? then init.value.others else []);
          match request
          case Some(req) =>
            (match env.rebuildThrows
             case Some(err) => Err(err)
             case None => Ok(Forwarded(RebuiltRequest(req, finalInit), finalInit)))
          case None => Ok(Forwarded(OriginalInput(input), finalInit));
      var completion: Result<Response, Thrown> :=
        match attempt
        case Ok(_) => env.answer
        case Err(err) => Err(err);
      var settled := Settle(started, completion);
      assert Get(started.attributes, "http.url") == Some(AnyValues.Str(url.GetOr("")));
      assert Get(settled.attributes, "http.url") == Get(started.attributes, "http.url");
      FetchCall(Some(settled), match attempt case Ok(f) => Some(f) case Err(_) => None, completion)
  }

  /** The `try`/`catch`/`finally` of the span callback. */
  function Settle(span: SpanRecord, completion: Result<Response, Thrown>): (s: SpanRecord)
    requires !HasKey(span.attributes, StatusCodeAttribute)
    requires span.status.code == Unset && span.exceptions == [] && span.ends == 0
    ensures s.name == span.name && s.kind == span.kind && s.ends == 1
    ensures s.status.code == ErrorCode <==> completion.Err? || !completion.value.ok
    ensures HasKey(s.attributes, StatusCodeAttribute) <==> completion.Ok?
    ensures completion.Ok? ==>
      Get(s.attributes, StatusCodeAttribute) == Some(AnyValues.Num(AnyValues.Finite(completion.value.status as real)))
    ensures forall k :: k != StatusCodeAttribute ==> Get(s.attributes, k) == Get(span.attributes, k)
    ensures completion.Err? ==> s.exceptions == [completion.error] && s.status.message == completion.error.message
    ensures completion.Ok? ==> s.exceptions == []
  {
    match completion
    case Ok(response) =>
      var withCode := SetAttribute(span, StatusCodeAttribute, AnyValues.Num(AnyValues.Finite(response.status as real)));
      assert forall k :: Get(withCode.attributes, k) ==
               if k == StatusCodeAttribute then Some(AnyValues.Num(AnyValues.Finite(response.status as real)))
               else Get(span.attributes, k) by {
        forall k ensures Get(withCode.attributes, k) ==
                 if k == StatusCodeAttribute then Some(AnyValues.Num(AnyValues.Finite(response.status as real)))
                 else Get(span.attributes, k) {
          AssignGet(span.attributes, StatusCodeAttribute, AnyValues.Num(AnyValues.Finite(response.status as real)), k);
        }
      }
      assert Get(withCode.attributes, StatusCodeAttribute).Some?;
      End(if response.ok then withCode else SetStatus(withCode, SpanStatus(ErrorCode, None)))
    case Err(err) =>
      End(SetStatus(RecordException(span, err), SpanStatus(ErrorCode, err.message)))
  }

  // ---------------------------------------------------------------------
  // Installation

  /** The global `fetch`: not a function, the platform's, or a wrapper around
      an earlier value. */
  datatype FetchGlobal = NotAFunction | NativeFetch | Wrapped(original: FetchGlobal)

  /** The cleanup `installFetchInstrumentation` returns. */
  datatype Cleanup = NoOp | RestoreTo(original: FetchGlobal)

  /** Without a global `fetch` nothing is wrapped and the cleanup does
      nothing; otherwise the global is wrapped and the cleanup puts the
      original back. */
  function Install(g: FetchGlobal): (r: (FetchGlobal, Cleanup))
    ensures g.NotAFunction? ==> r == (g, NoOp)
    ensures !g.NotAFunction? ==> r.0 == Wrapped(g) && RunCleanup(r.0, r.1) == g
  {
    if g.NotAFunction? then (g, NoOp) else (Wrapped(g), RestoreTo(g))
  }

  function RunCleanup(current: FetchGlobal, c: Cleanup): FetchGlobal {
    match c
    case NoOp => current
    case RestoreTo(original) => original
  }

  /** Installing `n` times in a row. */
  function InstallTimes(g: FetchGlobal, n: nat): (r: (FetchGlobal, seq<Cleanup>))
    ensures |r.1| == n
  {
    if n == 0 then (g, [])
    else
      var (before, cleanups) := InstallTimes(g, n - 1);
      var (after, cleanup) := Install(before);
      (after, cleanups + [cleanup])
  }

  /** Runs cleanups from the last to the first. */
  function RunCleanupsReversed(current: FetchGlobal, cleanups: seq<Cleanup>): FetchGlobal
    decreases |cleanups|
  {
    if |cleanups| == 0 then current
    else RunCleanupsReversed(RunCleanup(current, cleanups[|cleanups| - 1]), cleanups[..|cleanups| - 1])
  }

  /** Repeated installations undone in reverse order give back the original
      global, whether or not there was a `fetch` to wrap. */
  lemma {:induction false} CleanupsRestoreInReverse(g: FetchGlobal, n: nat)
    ensures RunCleanupsReversed(InstallTimes(g, n).0, InstallTimes(g, n).1) == g
  {
    if n > 0 {
      CleanupsRestoreInReverse(g, n - 1);
      var (before, cleanups) := InstallTimes(g, n - 1);
      var (after, all) := InstallTimes(g, n);
      assert all[..n - 1] == cleanups;
      assert RunCleanup(after, all[n - 1]) == before;
    }
  }
}
