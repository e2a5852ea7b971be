# mtn-telemetry-sdk, modelled in Dafny

A Dafny model of the core of the MTN telemetry SDK for React Native. The model covers:

- **The OTLP/JSON exporters** (`src/exporters/otlp-http.ts`):
  - the attribute-value encoder, with base64 bytes and decimal nanosecond timestamps;
  - span, event, link and status serialization, and the grouping of spans by resource and by instrumentation scope;
  - metric serialization;
  - `BaseHttpExporter`: its header defaults, `send` and its error cases, and the permanent shutdown flag.
- **The stack context manager** (`src/context-manager/stack.ts`). A small callback language makes `with`, `bind`, `enable` and `disable` observable.
- **The `async_hooks` shim** (`shims/async_hooks/index.js`).
- **The app-state listener** (`src/instrumentations/app-state.ts`).
- **`buildResource`** (`src/resource.ts`).
- **The fetch instrumentation** (`src/instrumentations/fetch.ts`): method and URL selection, the W3C `traceparent` header, the headers and init forwarded, span status and exceptions, and install/cleanup.
- **`BusinessTracer` and `TrackedPressable`** (`src/business.tsx`).
- **`startActiveSpan` and `withParent`** (`src/context.ts`).
- **The `MTNOTel` lifecycles**: the current one in `src/mtno-tel.ts` and the legacy one in `src/index.ts`.

Foreign parts become parameters of the model:

- the global `fetch`, `Request` and `Headers`;
- `JSON.stringify`;
- the clock;
- `Buffer`/`btoa`;
- the device information lookups;
- the outcome of each shutdown function.

The serializers (`SerializeSpan`, `SerializeMetric` and the rest) are stated over the corrected encoder, which never throws. Each has an `...AsWritten` companion over the encoder as written. The companion fails exactly on an invalid date and otherwise gives the same value. The exporters run the companions.

JavaScript object spread is modelled by `Records`. An existing key keeps its position and takes the new value; a new key is appended.

The model follows the code as written, including these behaviours:

- **Exporter headers.** Caller headers override `content-type` (`src/exporters/otlp-http.ts:522-525`), so a caller can replace the JSON content type.
- **`src/mtno-tel.ts` `flushAndShutdown`.** It runs the shutdown functions in installation order. It stops at the first failure and then leaves the singleton set (`src/mtno-tel.ts:90-95`). The reverse-order, failure-swallowing behaviour belongs to the legacy `src/index.ts:49-54`, and both are modelled.
- **`traceparent` flags.** The header always carries the flags `01`, whatever the sampling decision (`src/instrumentations/fetch.ts:81`).
- **Navigation hand-off.** `installReactNavigationInstrumentation` returns its bare `shutdown` function (`src/instrumentations/react-nav.ts:4-23`), which `src/mtno-tel.ts:62` stores as `navigation`. Line 63 therefore pushes `undefined`, and `attachNavigation`/`detachNavigation` (`src/mtno-tel.ts:73-80`) call a missing `attach`/`detach` and throw a `TypeError`. With navigation enabled, `flushAndShutdown` throws at that slot, so the app-state cleanup never runs and the singleton is never cleared.
- **Legacy `init`.** `src/index.ts:22` reads `opts.otlp.tracesUrl`, which throws when `otlp` is absent. `src/index.ts:40` hands the tracer provider to `installAppStateInstrumentation(meter)` (`src/instrumentations/app-state.ts:9-12`), whose `createCounter` call throws after the providers, fetch and navigation are installed and before the singleton is set.
- **Export order.** The payload is built inside the `try` of `export` before `send` checks the shutdown flag (`src/exporters/otlp-http.ts:570-578`). An invalid date in a batch therefore fails it with nothing sent, even on a shut-down exporter.
- **Fetch headers.** The global `Headers` of React Native lower-cases names, joins repeated names with `, ` and throws a `TypeError` on an invalid name. `buildHeaders` (`src/instrumentations/fetch.ts:38-41`) runs inside the span's `try`, so that error is recorded on the span and rethrown, and nothing is forwarded.
- **App-state events.** A state other than `active`, `background` or `inactive` (for example `unknown`) is remembered but never counted. A foreground can therefore be counted twice with no background in between (`AppStateListener.OtherStateRecountsForeground`).

## Model

| member | source | states |
|---|---|---|
| Decimal.IntToStringRoundTrip | src/exporters/otlp-http.ts:262-264 | `String(n)` of an integral number reads back as `n`, sign included |
| Decimal.IntToStringInjective | src/exporters/otlp-http.ts:262-264 | distinct integers never render to the same decimal text |
| HrTime.HrTimeToNanos | src/exporters/otlp-http.ts:262-264 | the text reads back as seconds times 10^9 plus nanoseconds |
| HrTime.HrTimeRoundTrip | src/exporters/otlp-http.ts:262-264 | a normalized `[seconds, nanos]` pair is recovered from its nanosecond text |
| HrTime.HrTimeToNanosInjective | src/exporters/otlp-http.ts:262-264 | distinct normalized timestamps give distinct texts |
| Base64.EncodeLength | src/exporters/otlp-http.ts:266-269 | base64 text is 4 characters per started 3-byte group (RFC 4648 section 4, with padding) |
| Base64.DecodeEncode | src/exporters/otlp-http.ts:266-269 | decoding the base64 text of any byte string gives the bytes back |
| Base64.EncodeDecode | src/exporters/otlp-http.ts:266-269 | every canonical base64 text is the encoding of what it decodes to |
| AnyValues.BytesToBase64 | src/exporters/otlp-http.ts:266-281 | with `Buffer` or `btoa` the text is the base64 encoding; with neither it is the binary string, one character per byte |
| AnyValues.BytesTextRoundTrip | src/exporters/otlp-http.ts:266-281 | under either runtime, the bytes can be read back from the `bytesValue` text |
| AnyValues.ToAnyValue | src/exporters/otlp-http.ts:194-251 | nullish values become the empty string, byte views become `bytesValue`, and strings and booleans keep their type. Numbers become `intValue` exactly when integral, else `doubleValue`. Bigints become `intValue`, and arrays and objects keep their length. An invalid date becomes `"Invalid Date"` (corrected, see Findings) |
| AnyValues.ToKeyValue | src/exporters/otlp-http.ts:253-260 | absent attributes give no pairs; otherwise one pair per entry, keys in order, each value encoded |
| AnyValues.EncodingIsWellFormed | src/exporters/otlp-http.ts:194-251 | every encoding is well formed: a double is never integral, bytes text is what the runtime produces, recursively |
| AnyValues.DecodeEncodeValue | src/exporters/otlp-http.ts:194-251 | a collector decoding an encoded value gets the value back, up to the documented losses (nullish to `""`, dates to text) |
| AnyValues.EncodeDecodeValue | src/exporters/otlp-http.ts:194-251 | every well-formed `AnyValue` is the encoding of its decoding |
| AnyValues.KeyValuesRoundTrip | src/exporters/otlp-http.ts:253-260 | an attribute list decodes back from its key/value pairs, keys in order and values normalized |
| AnyValues.AsWrittenAgrees | src/exporters/otlp-http.ts:214-216 | the encoder as written throws exactly when an invalid date is nested in the value, and otherwise agrees with the corrected encoder |
| AnyValues.InvalidDateThrows | src/exporters/otlp-http.ts:214-216 | `['ok', invalid date]` makes the encoder as written throw, while the corrected encoder gives a two-item array |
| Seqs.MapAllAgrees | src/exporters/otlp-http.ts:253-260 | a fallible `map` throws exactly when some element throws, and otherwise gives the map of the total function it agrees with |
| AnyValues.KeyValueAsWritten | src/exporters/otlp-http.ts:258-259 | one pair as written: throws exactly on an invalid date in the value, else the corrected pair |
| AnyValues.ToKeyValueAsWritten | src/exporters/otlp-http.ts:253-260 | the attribute list as written: throws exactly when some value holds an invalid date, else the corrected pairs |
| OtlpCommon.SerializeResource | src/exporters/otlp-http.ts:337-342 | dropped count 0; one pair per resource attribute with the key in order |
| OtlpCommon.SerializeResourceRoundTrip | src/exporters/otlp-http.ts:337-342 | the resource's attributes decode back from its envelope |
| OtlpCommon.SerializeResourceAsWritten | src/exporters/otlp-http.ts:337-342 | throws exactly when a resource attribute holds an invalid date, else the corrected envelope |
| OtlpTraces.SerializeEvent | src/exporters/otlp-http.ts:283-290 | name kept, time reads back as its nanoseconds, attributes decode back, dropped count defaults to 0 |
| OtlpTraces.SerializeLink | src/exporters/otlp-http.ts:292-300 | ids and trace state kept, attributes decode back, dropped count defaults to 0 |
| OtlpTraces.SerializeStatus | src/exporters/otlp-http.ts:303-306 | code kept; the message is present exactly when it is a non-empty string |
| OtlpTraces.SerializeSpan | src/exporters/otlp-http.ts:302-324 | ids, parent, name and kind kept. Times read back as nanoseconds and attributes decode back. Events and links are serialized one for one, and dropped counts are kept or default to 0. The status code is kept, and its message is carried exactly when it is a non-empty string |
| OtlpTraces.SerializeEventAsWritten | src/exporters/otlp-http.ts:283-290 | throws exactly on an invalid date in the event's attributes, else the corrected event |
| OtlpTraces.SerializeLinkAsWritten | src/exporters/otlp-http.ts:292-300 | throws exactly on an invalid date in the link's attributes, else the corrected link |
| OtlpTraces.SerializeSpanAsWritten | src/exporters/otlp-http.ts:302-324 | throws exactly when the span's, an event's or a link's attributes hold an invalid date, else the corrected span |
| OtlpTraces.ResourceKeyOrderInsensitive | src/exporters/otlp-http.ts:326-331 | the sorted join does not depend on the order in which attributes are listed |
| OtlpTraces.ResourceKeyRespectsIdentity | src/exporters/otlp-http.ts:326-331 | resources with the same set of (key, JSON) pairs get the same key |
| Sorting.CodeUnitsDecode | src/exporters/otlp-http.ts:329 | a character's UTF-16 code units (one, or a surrogate pair) read back as its code point |
| Sorting.Utf16Injective | src/exporters/otlp-http.ts:329 | distinct strings have distinct UTF-16 code-unit sequences |
| Sorting.LexLeTotal | src/exporters/otlp-http.ts:329 | the default sort order compares any two strings |
| Sorting.LexLeAntisymmetric | src/exporters/otlp-http.ts:329 | two strings that each sort no later than the other are equal |
| Sorting.LexLeTransitive | src/exporters/otlp-http.ts:329 | the default sort order is transitive |
| Sorting.LexLeFirstChar | src/exporters/otlp-http.ts:329 | strings whose first characters differ inside the Basic Multilingual Plane sort by those characters |
| Sorting.SurrogatePairSortsBeforeHighBmp | src/exporters/otlp-http.ts:329 | U+1F600 sorts before U+FF01 although its code point is larger, since the sort compares code units |
| Sorting.Sort | src/exporters/otlp-http.ts:327-329 | `.sort()` gives a sorted permutation of the entries |
| Sorting.SortedUnique | src/exporters/otlp-http.ts:327-329 | a multiset of strings has one sorted arrangement |
| Sorting.SortPermutationInvariant | src/exporters/otlp-http.ts:327-329 | permutations of the entries sort to the same sequence |
| OtlpTraces.ResourceKeyCollision | src/exporters/otlp-http.ts:326-331 | two resources with different attributes get the same key as written |
| OtlpTraces.ScopeKeyCollision | src/exporters/otlp-http.ts:333-335 | two different scopes get the same key as written |
| OtlpTraces.Buckets | src/exporters/otlp-http.ts:344-369 | the two nested loops group by resource key, then each resource group by scope key, in first-seen order |
| OtlpTraces.BucketsPartition | src/exporters/otlp-http.ts:344-369 | every input span lands in exactly one leaf, as often as it occurs |
| OtlpTraces.LeafIsFilter | src/exporters/otlp-http.ts:344-369 | a leaf holds exactly the input spans with its resource key and scope key, in input order |
| OtlpTraces.BucketsSeparateKeys | src/exporters/otlp-http.ts:345-353 | two spans share a resource entry if and only if their resource keys are equal |
| OtlpTraces.ScopeBucketsSeparateKeys | src/exporters/otlp-http.ts:358-369 | within a resource entry, two spans share a scope entry if and only if their scope keys are equal |
| OtlpTraces.BucketRepresentatives | src/exporters/otlp-http.ts:349-351 | each entry records the resource of the first span, in input order, that has its key |
| OtlpTraces.GroupSpansByPreservesSpans | src/exporters/otlp-http.ts:344-392 | the payload holds every input span serialized, each as often as in the input |
| OtlpTraces.GroupSpansSeparatesResources | src/exporters/otlp-http.ts:344-353 | with the corrected key, spans share a resource entry if and only if their resources have the same attributes |
| OtlpTraces.GroupSpansSeparatesScopes | src/exporters/otlp-http.ts:358-369 | with the corrected key, spans share a scope entry if and only if name, version and schema URL agree |
| OtlpTraces.GroupSpansMergesCollidingResources | src/exporters/otlp-http.ts:344-353 | the colliding resources are merged into one entry as written, but kept as two by the corrected grouping |
| OtlpTraces.SerializeScopeBucketAsWritten | src/exporters/otlp-http.ts:373-381 | a scope entry as written throws exactly when one of its spans holds an invalid date, else the corrected entry |
| OtlpTraces.SerializeResourceBucketAsWritten | src/exporters/otlp-http.ts:371-388 | a resource entry as written throws exactly when its recorded resource or one of its spans holds an invalid date, else the corrected entry |
| OtlpTraces.LeavesHaveInvalidDate | src/exporters/otlp-http.ts:344-369 | some leaf holds a span with an invalid date exactly when the batch does |
| OtlpTraces.LeafMembership | src/exporters/otlp-http.ts:344-369 | a span is in the batch exactly when it is in some leaf |
| OtlpTraces.GroupSpansAsWritten | src/exporters/otlp-http.ts:344-392 | `groupSpans` as written throws exactly when a span of the batch, or the first-seen resource of some resource key, holds an invalid date. Otherwise it gives the payload grouped by the joined keys |
| Grouping.GroupBy | src/exporters/otlp-http.ts:345-353 | the map-and-push loop computes the reference grouping |
| Grouping.GroupByPartition | src/exporters/otlp-http.ts:345-353 | the groups together are a permutation of the input |
| Grouping.GroupByShape | src/exporters/otlp-http.ts:345-353 | group keys are distinct, no group is empty, and every member carries its group's key |
| Grouping.FirstKeysMembership | src/exporters/otlp-http.ts:349-351 | a key gets a group if and only if some element carries it |
| Grouping.FirstKeysOrder | src/exporters/otlp-http.ts:357 | groups come out in the order their keys were first seen (`Map` insertion order) |
| OtlpMetrics.ToTemporality | src/exporters/otlp-http.ts:394-403 | DELTA gives 1, CUMULATIVE gives 2, and anything else gives 0, each if and only if |
| OtlpMetrics.ReadTemporality | src/exporters/otlp-http.ts:394-403 | a reader of the OTLP `AggregationTemporality` enum accepts exactly 0, 1 and 2, and writing back what it read gives the same code |
| OtlpMetrics.TemporalityRoundTrip | src/exporters/otlp-http.ts:394-403 | reading a written code gives the temporality back, so no two temporalities share a code |
| OtlpMetrics.SerializeNumberPoint | src/exporters/otlp-http.ts:405-420 | `asInt` exactly for INT-typed instruments, the value kept; times read back and attributes decode back |
| OtlpMetrics.CountStrings | src/exporters/otlp-http.ts:431 | each bucket count becomes a decimal string that reads back as that count |
| OtlpMetrics.SerializeHistogramPoint | src/exporters/otlp-http.ts:422-438 | counts and total as decimal strings that read back; bounds, sum, min and max kept; times and attributes as above |
| OtlpMetrics.SerializeMetric | src/exporters/otlp-http.ts:459-509 | exactly the field matching the data point type is set. Description and unit default to `""` and monotonicity to false. An unsupported type gets only name, description and unit |
| OtlpMetrics.SerializeScopeMetrics | src/exporters/otlp-http.ts:448-457 | scope name and version and schema URL carried over; metrics serialized one for one |
| OtlpMetrics.GroupMetrics | src/exporters/otlp-http.ts:440-446 | one envelope per collection, no regrouping, resource and scopes serialized in order |
| OtlpMetrics.SerializeNumberPointAsWritten | src/exporters/otlp-http.ts:405-420 | throws exactly on an invalid date in the point's attributes, else the corrected point |
| OtlpMetrics.SerializeHistogramPointAsWritten | src/exporters/otlp-http.ts:422-438 | throws exactly on an invalid date in the point's attributes, else the corrected point |
| OtlpMetrics.SerializeMetricAsWritten | src/exporters/otlp-http.ts:459-509 | throws exactly when one of the metric's points holds an invalid date, else the corrected metric |
| OtlpMetrics.SerializeScopeMetricsAsWritten | src/exporters/otlp-http.ts:448-457 | throws exactly when one of the scope's metrics holds an invalid date, else the corrected envelope |
| OtlpMetrics.SerializeResourceMetricsAsWritten | src/exporters/otlp-http.ts:440-446 | throws exactly when the resource or a metric holds an invalid date, else the corrected envelope |
| OtlpMetrics.GroupMetricsAsWritten | src/exporters/otlp-http.ts:440-446 | throws exactly when some collection holds an invalid date, else the corrected payload |
| OtlpMetrics.ScopeCountPreserved | src/exporters/otlp-http.ts:443-454 | the payload holds as many metrics as were collected |
| OtlpMetrics.ExportPayloadShape | src/exporters/otlp-http.ts:596-601 | a metrics export sends one resource envelope holding every collected metric |
| Exporter.NewExporter | src/exporters/otlp-http.ts:520-527 | `content-type: application/json` unless the caller sets it; caller headers kept; no duplicate header; timeout defaults to 15000 |
| Exporter.Shutdown | src/exporters/otlp-http.ts:560-562 | the flag is set and nothing else changes |
| Exporter.Send | src/exporters/otlp-http.ts:529-558 | after shutdown, or without `fetch`, nothing is sent and the matching error is raised. Otherwise one POST goes out with the exporter's URL, headers and body. It succeeds exactly on an ok response, a failing status gives a status error, and a rejection is passed on |
| Exporter.Export | src/exporters/otlp-http.ts:569-581 | the callback is called once: SUCCESS exactly when the send succeeded, FAILED with the error otherwise |
| Exporter.ExportBuilt | src/exporters/otlp-http.ts:570-580 | one callback. A payload that throws gives FAILED with the encoding error and sends nothing, whatever the exporter's state; otherwise the export goes as for a built body. A request goes out exactly when the payload was built, the exporter is not shut down and `fetch` exists. SUCCESS implies an ok response |
| Exporter.ExportSpans | src/exporters/otlp-http.ts:569-581 | one callback. An invalid date in the batch gives FAILED with nothing sent. Otherwise a POST goes out exactly when the exporter is live and `fetch` exists, with the stringified payload grouped by the joined keys as body. SUCCESS implies an ok response |
| Exporter.ExportSpansCorrected | src/exporters/otlp-http.ts:569-581 | over the corrected pipeline every export reaches `send`; the body is the payload grouped by identity |
| Exporter.ExportMetrics | src/exporters/otlp-http.ts:596-610 | one callback. An invalid date in the collection gives FAILED with nothing sent. Otherwise a POST goes out exactly when the exporter is live and `fetch` exists, with the one-collection payload as body. SUCCESS implies an ok response |
| Exporter.ExportMetricsCorrected | src/exporters/otlp-http.ts:596-610 | over the corrected encoder every export reaches `send` with the one-collection payload |
| Exporter.InvalidDateFailsBeforeShutdownCheck | src/exporters/otlp-http.ts:570-578 | a span with an invalid date fails the batch with the encoding error and sends nothing, even when shut down, where the corrected export would report the shutdown error |
| Exporter.ShutdownIsFinal | src/exporters/otlp-http.ts:529-532 | after a shutdown every later send fails with the shutdown error and sends nothing |
| Exporter.ShutdownFlag | src/exporters/otlp-http.ts:560-562 | from a fresh exporter the flag is set if and only if some shutdown happened |
| Exporter.ShutdownIdempotent | src/exporters/otlp-http.ts:560-562 | shutting down twice reaches the same exporter state as once |
| StackContext.Active | src/context-manager/stack.ts:10-12 | the top of the stack, or the root context when the stack is empty |
| StackContext.Enable | src/context-manager/stack.ts:58-61 | enabled, stack unchanged |
| StackContext.Disable | src/context-manager/stack.ts:63-67 | disabled and emptied, so `active()` is the root context |
| StackContext.Bind | src/context-manager/stack.ts:34-56 | a disabled manager or a non-function gives the target back; otherwise a wrapper bound to the context captured at bind time |
| StackContext.StackRestored | src/context-manager/stack.ts:14-30 | a callback that never disables the manager leaves the stack as it found it, even when it throws |
| StackContext.WithRestores | src/context-manager/stack.ts:20-30 | `with` pops what it pushed, on return and on throw |
| StackContext.InvokeRestores | src/context-manager/stack.ts:44-51 | calling a bound function leaves the stack as it found it |
| StackContext.WithScopesContext | src/context-manager/stack.ts:24-29 | inside `with(ctx, fn)` the active context is `ctx` before and after any nested code, and afterwards the stack is as before |
| StackContext.ReachablePreserved | src/context-manager/stack.ts:58-67 | a disabled manager always has an empty stack, whatever callbacks run |
| StackContext.DisabledIsInert | src/context-manager/stack.ts:20-21 | a disabled manager stays unchanged and every observation is the root context until someone enables it |
| StackContext.DisabledInvokeInert | src/context-manager/stack.ts:38-40 | under a disabled manager, calling a function value changes nothing and every observation is the root context |
| StackContext.BoundFunctionUsesCapturedContext | src/context-manager/stack.ts:34-51 | a function bound under an enabled manager later runs under the context captured at bind time, whatever is active then |
| AsyncHooks.NewLocalStorage | shims/async_hooks/index.js:29-31 | a new storage has no store |
| AsyncHooks.EnterWith | shims/async_hooks/index.js:41-43 | `getStore()` returns the entered value afterwards |
| AsyncHooks.Disable | shims/async_hooks/index.js:33-35 | the store is undefined afterwards |
| AsyncHooks.Run | shims/async_hooks/index.js:45-52 | the callback runs with the store set, its completion is passed on, and the store is undefined afterwards, even on a throw |
| AsyncHooks.NestedRunClearsOuterStore | shims/async_hooks/index.js:45-52 | after a nested `run` the outer callback reads no store, not its own |
| AsyncHooks.ExecutionAsyncId | shims/async_hooks/index.js:12-14 | always 0 |
| AsyncHooks.TriggerAsyncId | shims/async_hooks/index.js:16-18 | always 0 |
| AsyncHooks.RunInAsyncScope | shims/async_hooks/index.js:22-24 | the function is applied to the arguments, with no scope of its own |
| AsyncHooks.EnableHook | shims/async_hooks/index.js:3-5 | returns the same hook |
| AsyncHooks.DisableHook | shims/async_hooks/index.js:6-8 | returns the same hook |
| SpanHelpers.ErrorText | src/context.ts:13 | the error's message when it has one, else its text |
| SpanHelpers.StartActiveSpan | src/context.ts:4-19 | kind defaults to INTERNAL, and the callback's result or throw is passed on. The span is ended once, with status OK on success, or ERROR with the message and the exception recorded on a throw |
| SpanHelpers.SpanOutcome | src/context.ts:4-19 | for a callback that leaves the span alone, the exact span produced on success and on failure |
| SpanHelpers.WithParentScopes | src/context.ts:22-24 | the callback starts under the given parent, or under the active context when none is given, and the stack is restored |
| AppStateListener.Install | src/instrumentations/app-state.ts:15 | the listener starts from the current state with nothing counted |
| AppStateListener.OnChange | src/instrumentations/app-state.ts:17-26 | foreground is counted if and only if the state turns `active` from anything else. Background is counted if and only if it turns `background`/`inactive` from `active`. At most one counts, the matching span is appended, and the state is remembered |
| AppStateListener.CountersMatchSpans | src/instrumentations/app-state.ts:17-26 | each counter equals the number of spans of its name, and only those spans are emitted, each ended once |
| AppStateListener.CountsAlternate | src/instrumentations/app-state.ts:17-26 | with lifecycle states only, foreground and background counts differ by at most one, as fixed by the first and the current state |
| AppStateListener.OtherStateRecountsForeground | src/instrumentations/app-state.ts:18-25 | `active`, `unknown`, `active` counts a second foreground without a background |
| ResourceBuilder.OrElse | src/resource.ts:26-32 | `lookup?.() ?? fallback`: a missing method or a nullish answer gives the fallback, and any value (even `""`) is kept |
| ResourceBuilder.BuildAttributes | src/resource.ts:21-34 | caller attributes override the built-in ones, the other built-ins are kept, no key is duplicated, and the keys are those of both |
| ResourceBuilder.BuiltInAttributes | src/resource.ts:22-32 | the nine built-in values: service name, environment defaulting to `dev`, and the release ahead of the device version. The device lookups default to `unknown`, the OS is name, space, version, and the emulator flag defaults to false |
| FetchInstrumentation.ToUpperCase | src/instrumentations/fetch.ts:56-61 | same length, each lower-case ASCII letter raised and every other character kept |
| FetchInstrumentation.SelectMethod | src/instrumentations/fetch.ts:55-62 | the request's method, else the init's, else the input's, else `GET`, upper-cased, never containing a lower-case letter |
| FetchInstrumentation.SelectUrl | src/instrumentations/fetch.ts:63-65 | the request's URL, else a string input, else the input object's URL |
| FetchInstrumentation.Traceparent | src/instrumentations/fetch.ts:79-82 | a header exactly when both ids are non-empty, 7 characters longer than the ids |
| FetchInstrumentation.TraceparentRoundTrip | src/instrumentations/fetch.ts:79-82 | for valid ids the header parses as version `00`, the trace id, the span id and flags `01` |
| FetchInstrumentation.NormalizeName | src/instrumentations/fetch.ts:38 | the `Headers` name check: a name is accepted exactly when it is non-empty and made of token characters, and becomes its lower-case form; otherwise a `TypeError` naming it |
| FetchInstrumentation.SameKeyIgnoringCase | src/instrumentations/fetch.ts:38 | two valid names share a key exactly when they differ only in letter case |
| FetchInstrumentation.Append | src/instrumentations/fetch.ts:38 | adding a header keeps the keys unique, adds only its lower-cased name, leaves every other key's value alone, and sets a new key to the value |
| FetchInstrumentation.Construct | src/instrumentations/fetch.ts:38 | `new Headers(existing)` succeeds exactly when every name is valid, else throws for the first invalid one. The keys are unique and lower-case, and are exactly the lower-cased existing names |
| FetchInstrumentation.ConstructKeepsValues | src/instrumentations/fetch.ts:38 | when no two names differ only in case, each value is found under its lower-cased name |
| FetchInstrumentation.CaseVariantsCombine | src/instrumentations/fetch.ts:38 | `X-Id: 1` and `x-id: 2` become the single header `x-id: 1, 2` |
| FetchInstrumentation.InvalidNameThrows | src/instrumentations/fetch.ts:38 | a name with a space throws the `TypeError` |
| FetchInstrumentation.BuildHeaders | src/instrumentations/fetch.ts:23-43 | none without a `Headers` constructor. Otherwise it throws exactly when an existing header name is invalid, else gives unique lower-case keys, `traceparent` when there is one, and every other key as built from the first existing headers |
| FetchInstrumentation.CallerTraceparentReplaced | src/instrumentations/fetch.ts:38-41 | a caller's `TraceParent` header is replaced, leaving one `traceparent` with the new value |
| FetchInstrumentation.InstrumentedFetch | src/instrumentations/fetch.ts:53-114 | A throwing `Request` constructor rejects before any span. Otherwise a CLIENT span named `HTTP <method>` with method and URL attributes is opened. The call is forwarded, with the method and built headers, exactly when the headers build and the request can be rebuilt. A header error is rethrown. The answer is passed on, the span ends once, ERROR is set on a throw or a non-ok response, and the exception is recorded on a throw |
| FetchInstrumentation.Settle | src/instrumentations/fetch.ts:99-111 | status code attribute exactly on a response, ERROR exactly on a throw or a non-ok response, exception and message on a throw, other attributes kept, ended once |
| FetchInstrumentation.Install | src/instrumentations/fetch.ts:45-49 | without a global `fetch` nothing is wrapped and the cleanup does nothing; otherwise `fetch` is wrapped and the cleanup restores it |
| FetchInstrumentation.CleanupsRestoreInReverse | src/instrumentations/fetch.ts:116-118 | repeated installations undone last-first give back the original `fetch` |
| BusinessTracing.JourneyName | src/business.tsx:32 | the current journey's name, or `unknown` |
| BusinessTracing.Duration | src/business.tsx:50-52 | elapsed milliseconds since the journey started, or `undefined` without one |
| BusinessTracing.Start | src/business.tsx:14-25 | the journey becomes current with the clock reading, and an ended INTERNAL `Journey <name>` span is emitted. It carries `business.journey` unless the caller's attributes override it, plus the caller's attributes |
| BusinessTracing.Step | src/business.tsx:30-42 | an ended `Step <name>` span tagged with the current journey (or `unknown`) and the step, caller attributes overriding; the journey is unchanged |
| BusinessTracing.Complete | src/business.tsx:47-66 | an ended `Journey <name> Complete` span with journey, `completed: true` and the duration, caller attributes overriding; the journey is cleared |
| BusinessTracing.Label | src/business.tsx:78-80 | a non-empty accessibility label, else string children, else `pressable` |
| BusinessTracing.Press | src/business.tsx:82-85 | a `tap:<label>` step is recorded first, then the caller's `onPress` runs when there is one |
| BusinessTracing.Session | src/business.tsx:8-66 | one ended INTERNAL span per call |
| BusinessTracing.CurrentJourneyIsLastOpenStart | src/business.tsx:14-66 | the current journey is the one from the last start that no later start or complete closed, with that call's name and time; if there is no such start, there is no current journey |
| BusinessTracing.StepTagsOpenJourney | src/business.tsx:30-42 | a step made while a journey is open is tagged with that journey's name, else `unknown` |
| Lifecycle.SetProviderBuilder | src/mtno-tel.ts:17-19 | replaces the builder and nothing else |
| Lifecycle.Normalize | src/mtno-tel.ts:42-46 | each instrumentation flag defaults to true |
| Lifecycle.ShutdownList | src/mtno-tel.ts:53-67 | the provider shutdown first, then exactly the enabled instrumentations' cleanups, in the order fetch, navigation, app state |
| Lifecycle.AttachNavigation | src/mtno-tel.ts:73-76 | does nothing when navigation is disabled; throws a `TypeError` exactly when it is enabled and `navigation` is set, since the stored value has no `attach` |
| Lifecycle.DetachNavigation | src/mtno-tel.ts:78-80 | throws a `TypeError` exactly when `navigation` is set, whatever the options |
| Lifecycle.NavigationCallsThrow | src/mtno-tel.ts:61-63 | on an instance `init` built, attaching and detaching throw exactly when navigation is enabled |
| Lifecycle.AttachCurrent | src/mtno-tel.ts:82-84 | forwards to the current instance and throws as it does; without one it does nothing |
| Lifecycle.DetachCurrent | src/mtno-tel.ts:86-88 | forwards to the current instance and throws as it does; without one it does nothing |
| Lifecycle.Init | src/mtno-tel.ts:30-71 | throws without a builder and changes nothing. With an instance it changes nothing and returns that instance, unless forwarding a navigation reference throws. Otherwise it makes a new current instance with defaulted options, its shutdown list and `navigation` set exactly when enabled |
| Lifecycle.InitIdempotent | src/mtno-tel.ts:35-40 | a second `init` keeps the first instance and returns it unless forwarding throws |
| Lifecycle.StepOutcome | src/mtno-tel.ts:61-93 | the navigation slot always throws a `TypeError`; any other step fails exactly as its outcome says |
| Lifecycle.FirstFailure | src/mtno-tel.ts:91-93 | the position of the first failing shutdown function, every earlier one succeeding |
| Lifecycle.FlushAndShutdown | src/mtno-tel.ts:90-95 | the singleton is cleared only when every shutdown function succeeded; a failure leaves it set |
| Lifecycle.FlushIsFailFast | src/mtno-tel.ts:90-95 | the functions run in installation order up to and including the first failure, whose error is the result; it succeeds if and only if none fails |
| Lifecycle.StopsAtNavigation | src/mtno-tel.ts:61-95 | a list holding the navigation slot always fails, at that slot at the latest |
| Lifecycle.NavigationBlocksShutdown | src/mtno-tel.ts:58-95 | with navigation enabled `flushAndShutdown` always throws, leaves the singleton set and never runs the app-state cleanup |
| LegacyLifecycle.Init | src/index.ts:15-46 | an existing instance is returned as is. Otherwise it throws before building anything when `otlp` is absent, and throws after installing the providers, fetch and navigation when the app-state flag is set, leaving no instance. Else the new instance's list is the provider shutdown, then only fetch and navigation whose flag is explicitly true |
| LegacyLifecycle.AppStateNeverInstalled | src/index.ts:39-44 | a successful `init` never holds the app-state cleanup; a failed one with `otlp` leaks the provider shutdown and fails the same way again |
| LegacyLifecycle.Reverse | src/index.ts:50 | `reverse()`: same length, element `i` is the one from the other end |
| LegacyLifecycle.FlushAndShutdown | src/index.ts:49-54 | the instance's own list is reversed, every function is attempted in that order with failures swallowed, and the singleton is always cleared |
| LegacyLifecycle.SecondFlushRunsInInstallOrder | src/index.ts:50 | because `reverse()` works in place, a second flush of the same instance runs in installation order and restores the original list |

## Left out

- Network I/O, `setTimeout`/`AbortController` timeouts (`src/exporters/otlp-http.ts:538-542`), promises and asynchrony: each call is modelled by its settled outcome, which is a parameter.
- `diag` logging, `forceFlush` (a no-op) and `AsyncResource.emitDestroy` (a no-op): they have no observable effect on the modelled state.
- `JSON.stringify`, `Date.prototype.toISOString`, `Number(...)` conversions and floating-point rounding: stringify is a parameter, a date carries its ISO text or none, and numbers are exact reals.
- The OpenTelemetry SDK itself: samplers, span processors, `Resource.default()` and `merge` (`src/resource.ts:36-38`), the tracer and meter providers and the counters' export. A span is a plain record and a metric counter is a natural number.
- The React Navigation instrumentation itself (`src/instrumentations/react-nav.ts`): its route tracking and its global `__MTN_OTEL_ATTACH_NAV__` hook are not part of this model. Only whether `MTNOTel` holds its return value is kept.
- `buildProviders` (`src/providers.ts`, `src/providers.native.ts`): the shutdown it returns is a parameter. The Node variant reads `opts.otlp.tracesUrl`, which the legacy `init` never passes, so it always throws there; that path is not modelled.
- FetchInstrumentation.Construct: header values are kept as given, without the Fetch standard's whitespace trimming and value checks. Array-of-pairs inputs, and property names inherited from `Object.prototype` (whose lookup is truthy), are not modelled.
- The removal of the app-state subscription in the cleanup (`src/instrumentations/app-state.ts:31-33`): the subscription is the platform's.
- React rendering of `TrackedPressable`: only the label and the press handler are modelled.
- `createHook` callbacks: the shim never invokes them.
- `this` binding in `with`, `bind` and `runInAsyncScope`: the model has no receiver objects.
- FetchInstrumentation.ToUpperCase: handles ASCII letters only; locale rules and non-ASCII letters are not modelled.
- HrTime.HrTimeToNanos: exact integer arithmetic, where the source's `hr[0] * 1e9 + hr[1]` is a double that loses precision above 2^53 nanoseconds.

## Findings

| source | as written | input that shows it | evidently intended | confidence | as-written member | corrected member |
|---|---|---|---|---|---|---|
| src/exporters/otlp-http.ts:214-216 | `value.toISOString()` throws a `RangeError` on an invalid date, so one bad attribute fails the whole export | an attribute `['ok', new Date(NaN)]` | every value encodes; an invalid date becomes its string form `Invalid Date` | not executed; high | AnyValues.InvalidDateThrows | AnyValues.ToAnyValue |
| src/exporters/otlp-http.ts:326-331 | the resource key joins `key:json` lines with a pipe character, and a key containing a colon or a pipe can spell another resource's key | resources with attributes `a` and `b` both `v`, and one attribute named `a:`, the JSON of `v`, a pipe and `b`, with value `v` | spans are grouped by resource only when the resources have the same attributes | not executed; medium | OtlpTraces.GroupSpansMergesCollidingResources | OtlpTraces.GroupSpansSeparatesResources |
| src/exporters/otlp-http.ts:333-335 | the scope key joins name, version and schema URL with a pipe character, so a pipe inside a part shifts the boundaries | scope `a`, pipe, `b` with an empty version, and scope `a` with version `b`, pipe | spans are grouped by scope only when name, version and schema URL all agree | not executed; medium | OtlpTraces.ScopeKeyCollision | OtlpTraces.GroupSpansSeparatesScopes |
