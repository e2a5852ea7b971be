/** The trace half of `src/exporters/otlp-http.ts`: span, event and link
    serialization and `groupSpans`, the two-level grouping of a batch of spans
    into `resourceSpans -> scopeSpans -> spans`. */
module OtlpTraces {
  import opened Wrappers
  import opened AnyValues
  import opened OtlpCommon
  import opened Seqs
  import opened Grouping
  import Sorting
  import Decimal
  import HT = HrTime

  // ---------------------------------------------------------------------
  // The SDK's finished span

  datatype Event = Event(
    name: string,
    time: HT.HrTime,
    attributes: Option<Attributes>,
    droppedAttributesCount: Option<nat>)

  /** A link; its trace state is held already serialized. */
  datatype Link = Link(
    traceId: string,
    spanId: string,
    traceState: Option<string>,
    attributes: Option<Attributes>,
    droppedAttributesCount: Option<nat>)

  datatype Status = Status(code: int, message: Option<string>)

  /** The fields of a `ReadableSpan` that the encoder reads. */
  datatype Span = Span(
    traceId: string,
    spanId: string,
    parentSpanId: Option<string>,
    name: string,
    kind: int,
    startTime: HT.HrTime,
    endTime: HT.HrTime,
    attributes: Attributes,
    droppedAttributesCount: Option<nat>,
    events: seq<Event>,
    droppedEventsCount: Option<nat>,
    links: seq<Link>,
    droppedLinksCount: Option<nat>,
    status: Status,
    resource: Resource,
    scope: Scope)

  // ---------------------------------------------------------------------
  // The OTLP/JSON records

  datatype OtlpEvent = OtlpEvent(
    timeUnixNano: string,
    name: string,
    attributes: seq<KeyValue>,
    droppedAttributesCount: nat)

  datatype OtlpLink = OtlpLink(
    traceId: string,
    spanId: string,
    traceState: Option<string>,
    attributes: seq<KeyValue>,
    droppedAttributesCount: nat)

  datatype OtlpStatus = OtlpStatus(code: int, message: Option<string>)

  datatype OtlpSpan = OtlpSpan(
    traceId: string,
    spanId: string,
    parentSpanId: Option<string>,
    name: string,
    kind: int,
    startTimeUnixNano: string,
    endTimeUnixNano: string,
    attributes: seq<KeyValue>,
    droppedAttributesCount: nat,
    events: seq<OtlpEvent>,
    droppedEventsCount: nat,
    links: seq<OtlpLink>,
    droppedLinksCount: nat,
    status: OtlpStatus)

  datatype ScopeSpans = ScopeSpans(scope: OtlpScope, spans: seq<OtlpSpan>, schemaUrl: Option<string>)

  datatype ResourceSpans = ResourceSpans(resource: OtlpResource, scopeSpans: seq<ScopeSpans>, schemaUrl: Option<string>)

  // ---------------------------------------------------------------------
  // Serialization of one span

  /** The instant a timestamp denotes, in nanoseconds. */
  function NanosOf(t: HT.HrTime): int {
    t.seconds * HT.NanosPerSecond + t.nanos
  }

  lemma OptionalAttributesRoundTrip(rt: Runtime, attributes: Option<Attributes>)
    ensures attributes.Some? ==> FromKeyValues(rt, ToKeyValue(rt, attributes)) == NormalizeEntries(attributes.value)
  {
    if attributes.Some? {
      KeyValuesRoundTrip(rt, attributes.value);
    }
  }

  /** `serializeEvent`. */
  function SerializeEvent(rt: Runtime, e: Event): (r: OtlpEvent)
    ensures r.name == e.name
    ensures Decimal.ParseInt(r.timeUnixNano) == Some(NanosOf(e.time))
    ensures e.attributes.None? ==> r.attributes == []
    ensures e.attributes.Some? ==> FromKeyValues(rt, r.attributes) == NormalizeEntries(e.attributes.value)
    ensures e.droppedAttributesCount.None? ==> r.droppedAttributesCount == 0
    ensures e.droppedAttributesCount.Some? ==> r.droppedAttributesCount == e.droppedAttributesCount.value
  {
    OptionalAttributesRoundTrip(rt, e.attributes);
    OtlpEvent(
      HT.HrTimeToNanos(e.time),
      e.name,
      ToKeyValue(rt, e.attributes),
      CountOrZero(e.droppedAttributesCount))
  }

  /** `serializeLink`. */
  function SerializeLink(rt: Runtime, l: Link): (r: OtlpLink)
    ensures r.traceId == l.traceId && r.spanId == l.spanId && r.traceState == l.traceState
    ensures l.attributes.None? ==> r.attributes == []
    ensures l.attributes.Some? ==> FromKeyValues(rt, r.attributes) == NormalizeEntries(l.attributes.value)
    ensures l.droppedAttributesCount.None? ==> r.droppedAttributesCount == 0
    ensures l.droppedAttributesCount.Some? ==> r.droppedAttributesCount == l.droppedAttributesCount.value
  {
    OptionalAttributesRoundTrip(rt, l.attributes);
    OtlpLink(l.traceId, l.spanId, l.traceState, ToKeyValue(rt, l.attributes), CountOrZero(l.droppedAttributesCount))
  }

  /** The status record: the message is carried only when it is present and
      non-empty (the source tests it for truthiness). */
  function SerializeStatus(st: Status): (r: OtlpStatus)
    ensures r.code == st.code
    ensures r.message.Some? <==> st.message.Some? && st.message.value != ""
    ensures r.message.Some? ==> r.message == st.message
  {
    if st.message.Some? && st.message.value != "" then OtlpStatus(st.code, st.message)
    else OtlpStatus(st.code, None)
  }

  /** `serializeSpan`. */
  function SerializeSpan(rt: Runtime, s: Span): (r: OtlpSpan)
    ensures r.traceId == s.traceId && r.spanId == s.spanId && r.parentSpanId == s.parentSpanId
    ensures r.name == s.name && r.kind == s.kind
    ensures Decimal.ParseInt(r.startTimeUnixNano) == Some(NanosOf(s.startTime))
    ensures Decimal.ParseInt(r.endTimeUnixNano) == Some(NanosOf(s.endTime))
    ensures FromKeyValues(rt, r.attributes) == NormalizeEntries(s.attributes)
    ensures |r.events| == |s.events| && forall i :: 0 <= i < |s.events| ==> r.events[i] == SerializeEvent(rt, s.events[i])
    ensures |r.links| == |s.links| && forall i :: 0 <= i < |s.links| ==> r.links[i] == SerializeLink(rt, s.links[i])
    ensures s.droppedAttributesCount.None? ==> r.droppedAttributesCount == 0
    ensures s.droppedEventsCount.None? ==> r.droppedEventsCount == 0
    ensures s.droppedLinksCount.None? ==> r.droppedLinksCount == 0
    ensures s.droppedAttributesCount.Some? ==> r.droppedAttributesCount == s.droppedAttributesCount.value
    ensures s.droppedEventsCount.Some? ==> r.droppedEventsCount == s.droppedEventsCount.value
    ensures s.droppedLinksCount.Some? ==> r.droppedLinksCount == s.droppedLinksCount.value
    ensures r.status.code == s.status.code
    ensures r.status.message.Some? <==> s.status.message.Some? && s.status.message.value != ""
    ensures r.status.message.Some? ==> r.status.message == s.status.message
  {
    KeyValuesRoundTrip(rt, s.attributes);
    OtlpSpan(
      s.traceId,
      s.spanId,
      s.parentSpanId,
      s.name,
      s.kind,
      HT.HrTimeToNanos(s.startTime),
      HT.HrTimeToNanos(s.endTime),
      ToKeyValue(rt, Some(s.attributes)),
      CountOrZero(s.droppedAttributesCount),
      Map((e: Event) => SerializeEvent(rt, e), s.events),
      CountOrZero(s.droppedEventsCount),
      Map((l: Link) => SerializeLink(rt, l), s.links),
      CountOrZero(s.droppedLinksCount),
      SerializeStatus(s.status))
  }

  function SpanSerializer(rt: Runtime): Span -> OtlpSpan {
    s => SerializeSpan(rt, s)
  }

  // ---------------------------------------------------------------------
  // Serialization as written: an invalid date throws

  /** True when serializing the span meets an invalid date: in its own
      attributes, or in those of one of its events or links. */
  predicate SpanHasInvalidDate(s: Span) {
    AttributesHaveInvalidDate(Some(s.attributes)) ||
    (exists i :: 0 <= i < |s.events| && AttributesHaveInvalidDate(s.events[i].attributes)) ||
    (exists i :: 0 <= i < |s.links| && AttributesHaveInvalidDate(s.links[i].attributes))
  }

  /** `serializeEvent` as written. */
  function SerializeEventAsWritten(rt: Runtime, e: Event): (r: Result<OtlpEvent, EncodeError>)
    ensures r.Err? <==> AttributesHaveInvalidDate(e.attributes)
    ensures r.Ok? ==> r.value == SerializeEvent(rt, e)
  {
    var attributes :- ToKeyValueAsWritten(rt, e.attributes);
    Ok(OtlpEvent(HT.HrTimeToNanos(e.time), e.name, attributes, CountOrZero(e.droppedAttributesCount)))
  }

  /** `serializeLink` as written. */
  function SerializeLinkAsWritten(rt: Runtime, l: Link): (r: Result<OtlpLink, EncodeError>)
    ensures r.Err? <==> AttributesHaveInvalidDate(l.attributes)
    ensures r.Ok? ==> r.value == SerializeLink(rt, l)
  {
    var attributes :- ToKeyValueAsWritten(rt, l.attributes);
    Ok(OtlpLink(l.traceId, l.spanId, l.traceState, attributes, CountOrZero(l.droppedAttributesCount)))
  }

  /** `serializeSpan` as written: the span's attributes, then its events,
      then its links are encoded, and the first invalid date throws. */
  function SerializeSpanAsWritten(rt: Runtime, s: Span): (r: Result<OtlpSpan, EncodeError>)
    ensures r.Err? <==> SpanHasInvalidDate(s)
    ensures r.Ok? ==> r.value == SerializeSpan(rt, s)
  {
    var ef := (e: Event) => SerializeEventAsWritten(rt, e);
    var lf := (l: Link) => SerializeLinkAsWritten(rt, l);
    MapAllAgrees(ef, (e: Event) => SerializeEvent(rt, e), s.events);
    MapAllAgrees(lf, (l: Link) => SerializeLink(rt, l), s.links);
    var attributes :- ToKeyValueAsWritten(rt, Some(s.attributes));
    var events :- MapAll(ef, s.events);
    var links :- MapAll(lf, s.links);
    var r := OtlpSpan(
      s.traceId,
      s.spanId,
      s.parentSpanId,
      s.name,
      s.kind,
      HT.HrTimeToNanos(s.startTime),
      HT.HrTimeToNanos(s.endTime),
      attributes,
      CountOrZero(s.droppedAttributesCount),
      events,
      CountOrZero(s.droppedEventsCount),
      links,
      CountOrZero(s.droppedLinksCount),
      SerializeStatus(s.status));
    assert r == SerializeSpan(rt, s);
    Ok(r)
  }

  function SpanSerializerAsWritten(rt: Runtime): Span -> Result<OtlpSpan, EncodeError> {
    s => SerializeSpanAsWritten(rt, s)
  }

  // ---------------------------------------------------------------------
  // Resource and scope keys

  /** A resource attribute as the pair (key, `JSON.stringify(value)`). */
  function Pairs(json: HostValue -> string, attributes: Attributes): (ps: seq<(string, string)>)
    ensures |ps| == |attributes|
    ensures forall i :: 0 <= i < |ps| ==> ps[i] == (attributes[i].0, json(attributes[i].1))
  {
    Map((e: (string, HostValue)) => (e.0, json(e.1)), attributes)
  }

  /** One line of `resourceKey`: `key:json`. */
  function Line(p: (string, string)): string {
    p.0 + ":" + p.1
  }

  /** `resourceKey` as written: the lines sorted and joined with `|`. */
  function ResourceKeyAsWritten(json: HostValue -> string, resource: Resource): string {
    KeyOfLines(Map(Line, Pairs(json, resource.attributes)))
  }

  function KeyOfLines(lines: seq<string>): string {
    Sorting.Join(Sorting.Sort(lines), "|")
  }

  /** The identity the resource key is meant to capture: the set of
      attribute pairs, independent of order. */
  function ResourceIdentity(json: HostValue -> string, resource: Resource): set<(string, string)> {
    set p | p in Pairs(json, resource.attributes)
  }

  /** `scopeKey` as written: name, version and schema URL, missing parts as
      "", joined with `|`. */
  function ScopeKeyAsWritten(scope: Scope): (k: string)
    ensures k == scope.name.GetOr("") + "|" + scope.version.GetOr("") + "|" + scope.schemaUrl.GetOr("")
  {
    var parts := [scope.name.GetOr(""), scope.version.GetOr(""), scope.schemaUrl.GetOr("")];
    assert parts[..2][..1] == [parts[0]];
    assert Sorting.Join(parts[..2], "|") == parts[0] + "|" + parts[1];
    Sorting.Join(parts, "|")
  }

  /** The identity the scope key is meant to capture: the three parts,
      missing ones as "". */
  function ScopeIdentity(scope: Scope): (string, string, string) {
    (scope.name.GetOr(""), scope.version.GetOr(""), scope.schemaUrl.GetOr(""))
  }

  /** Listing a resource's attributes in another order does not change its key. */
  lemma ResourceKeyOrderInsensitive(json: HostValue -> string, a: Resource, b: Resource)
    requires multiset(a.attributes) == multiset(b.attributes)
    ensures ResourceKeyAsWritten(json, a) == ResourceKeyAsWritten(json, b)
  {
    var pa, pb := Pairs(json, a.attributes), Pairs(json, b.attributes);
    MapPermutation((e: (string, HostValue)) => (e.0, json(e.1)), a.attributes, b.attributes);
    MapPermutation(Line, pa, pb);
    Sorting.SortPermutationInvariant(Map(Line, pa), Map(Line, pb));
  }

  /** Resources with the same identity get the same key: the key never splits
      one resource into two groups. */
  lemma ResourceKeyRespectsIdentity(json: HostValue -> string, a: Resource, b: Resource)
    requires UniqueKeys(a.attributes) && UniqueKeys(b.attributes)
    requires ResourceIdentity(json, a) == ResourceIdentity(json, b)
    ensures ResourceKeyAsWritten(json, a) == ResourceKeyAsWritten(json, b)
  {
    var pa, pb := Pairs(json, a.attributes), Pairs(json, b.attributes);
    forall p ensures p in pa <==> p in pb {
      assert p in pa <==> p in ResourceIdentity(json, a);
      assert p in pb <==> p in ResourceIdentity(json, b);
    }
    DistinctSameElements(pa, pb);
    MapPermutation(Line, pa, pb);
    Sorting.SortPermutationInvariant(Map(Line, pa), Map(Line, pb));
  }

  /** The key as written is not injective: an attribute name that spells out
      another resource's joined lines collides with it. */
  lemma ResourceKeyCollision(json: HostValue -> string, v: HostValue, a: Resource, b: Resource)
    requires a == Resource([("a", v), ("b", v)], None)
    requires b == Resource([("a:" + json(v) + "|b", v)], None)
    ensures ResourceKeyAsWritten(json, a) == ResourceKeyAsWritten(json, b)
    ensures ResourceIdentity(json, a) != ResourceIdentity(json, b)
  {
    var j := json(v);
    KeyOfTwoAttributes(json, a, v);
    KeyOfOneAttribute(json, b, v);
    assert ("a:" + j) + "|" + ("b:" + j) == "a:" + j + "|b" + ":" + j;
    IdentitiesDiffer(json, v, a, b);
  }

  lemma KeyOfTwoAttributes(json: HostValue -> string, a: Resource, v: HostValue)
    requires a.attributes == [("a", v), ("b", v)]
    ensures ResourceKeyAsWritten(json, a) == ("a:" + json(v)) + "|" + ("b:" + json(v))
  {
    var l0, l1 := "a:" + json(v), "b:" + json(v);
    LinesOfTwo(json, "a", "b", v);
    assert "a" + ":" == "a:" && "b" + ":" == "b:";
    var lines := Map(Line, Pairs(json, a.attributes));
    assert lines == [l0, l1];
    assert l0[0] == 'a' && l1[0] == 'b';
    KeyOfTwoLines(l0, l1);
  }

  lemma KeyOfOneAttribute(json: HostValue -> string, b: Resource, v: HostValue)
    requires b.attributes == [("a:" + json(v) + "|b", v)]
    ensures ResourceKeyAsWritten(json, b) == "a:" + json(v) + "|b" + ":" + json(v)
  {
    LinesOfOne(json, "a:" + json(v) + "|b", v);
    KeyOfOneLine("a:" + json(v) + "|b" + ":" + json(v));
  }

  lemma IdentitiesDiffer(json: HostValue -> string, v: HostValue, a: Resource, b: Resource)
    requires a.attributes == [("a", v), ("b", v)]
    requires b.attributes == [("a:" + json(v) + "|b", v)]
    ensures ResourceIdentity(json, a) != ResourceIdentity(json, b)
  {
    var j := json(v);
    assert Pairs(json, a.attributes)[0] == ("a", j);
    assert ("a", j) in ResourceIdentity(json, a);
    assert forall p :: p in Pairs(json, b.attributes) ==> p == ("a:" + j + "|b", j);
    assert |"a:" + j + "|b"| > 1;
  }

  lemma LinesOfTwo(json: HostValue -> string, k0: string, k1: string, v: HostValue)
    ensures Map(Line, Pairs(json, [(k0, v), (k1, v)])) == [k0 + ":" + json(v), k1 + ":" + json(v)]
  {
  }

  lemma LinesOfOne(json: HostValue -> string, k: string, v: HostValue)
    ensures Map(Line, Pairs(json, [(k, v)])) == [k + ":" + json(v)]
  {
  }

  lemma KeyOfTwoLines(l0: string, l1: string)
    requires |l0| > 0 && |l1| > 0 && l0[0] < l1[0] && l1[0] as int < 0x1_0000
    ensures KeyOfLines([l0, l1]) == l0 + "|" + l1
  {
    var ls := [l0, l1];
    Sorting.LexLeFirstChar(l0, l1);
    assert ls[1..] == [l1];
    assert Sorting.Sort([l1]) == [l1];
    assert Sorting.Sort(ls) == ls;
    assert ls[..1] == [l0];
    assert Sorting.Join(ls, "|") == Sorting.Join([l0], "|") + "|" + l1;
  }

  lemma KeyOfOneLine(l: string)
    ensures KeyOfLines([l]) == l
  {
    assert Sorting.Sort([l]) == [l];
  }

  /** The scope key as written is not injective: a `|` inside a name or
      version shifts the boundary between the parts. */
  lemma ScopeKeyCollision()
    ensures var a := Scope(Some("a|b"), Some(""), None);
            var b := Scope(Some("a"), Some("b|"), None);
            ScopeKeyAsWritten(a) == ScopeKeyAsWritten(b) && ScopeIdentity(a) != ScopeIdentity(b)
  {
    assert "a|b" + "|" + "" + "|" + "" == "a" + "|" + "b|" + "|" + "";
  }

  // ---------------------------------------------------------------------
  // Grouping

  /** The spans of one scope within one resource; the scope recorded is the
      one of the first span with that key. */
  datatype ScopeBucket = ScopeBucket(scope: Scope, spans: seq<Span>)

  /** The spans of one resource, split by scope; the resource recorded is the
      one of the first span with that key. */
  datatype ResourceBucket = ResourceBucket(resource: Resource, scopes: seq<ScopeBucket>)

  /** The inner loop of `groupSpans`: group by scope key. */
  function ScopeBuckets<SK(==)>(skey: Span -> SK, spans: seq<Span>): (bs: seq<ScopeBucket>)
    ensures |bs| == |GroupByKey(skey, spans)|
    ensures forall c :: 0 <= c < |bs| ==> bs[c].spans == GroupByKey(skey, spans)[c].members
  {
    var gs := GroupByKey(skey, spans);
    GroupByShape(skey, spans);
    seq(|gs|, c requires 0 <= c < |gs| => ScopeBucket(gs[c].members[0].scope, gs[c].members))
  }

  /** The outer loop of `groupSpans`: group by resource key, then by scope key
      inside each resource. */
  function Buckets<RK(==), SK(==)>(rkey: Span -> RK, skey: Span -> SK, spans: seq<Span>): (bs: seq<ResourceBucket>)
    ensures |bs| == |GroupByKey(rkey, spans)|
    ensures forall a :: 0 <= a < |bs| ==> bs[a].scopes == ScopeBuckets(skey, GroupByKey(rkey, spans)[a].members)
  {
    var gs := GroupByKey(rkey, spans);
    GroupByShape(rkey, spans);
    seq(|gs|, a requires 0 <= a < |gs| =>
      ResourceBucket(gs[a].members[0].resource, ScopeBuckets(skey, gs[a].members)))
  }

  function ScopeSpansOf(b: ScopeBucket): seq<Span> {
    b.spans
  }

  /** All spans of a resource bucket, scope after scope. */
  function BucketSpans(b: ResourceBucket): seq<Span> {
    Flatten(Map(ScopeSpansOf, b.scopes))
  }

  /** All spans of all buckets, in output order. */
  function AllSpans(bs: seq<ResourceBucket>): seq<Span> {
    Flatten(Map(BucketSpans, bs))
  }

  lemma BucketSpansPermutation<RK, SK>(rkey: Span -> RK, skey: Span -> SK, spans: seq<Span>, a: nat)
    requires a < |Buckets(rkey, skey, spans)|
    ensures multiset(BucketSpans(Buckets(rkey, skey, spans)[a])) == multiset(GroupByKey(rkey, spans)[a].members)
  {
    var members := GroupByKey(rkey, spans)[a].members;
    var b := Buckets(rkey, skey, spans)[a];
    assert Map(ScopeSpansOf, b.scopes) == AllMembers(GroupByKey(skey, members));
    GroupByPartition(skey, members);
  }

  /** Every span lands in exactly one leaf, as often as it occurs in the
      batch: the leaves together are a permutation of the input. */
  lemma BucketsPartition<RK, SK>(rkey: Span -> RK, skey: Span -> SK, spans: seq<Span>)
    ensures multiset(AllSpans(Buckets(rkey, skey, spans))) == multiset(spans)
    ensures |AllSpans(Buckets(rkey, skey, spans))| == |spans|
  {
    var bs := Buckets(rkey, skey, spans);
    var gs := GroupByKey(rkey, spans);
    forall a | 0 <= a < |bs| ensures multiset(Map(BucketSpans, bs)[a]) == multiset(AllMembers(gs)[a]) {
      BucketSpansPermutation(rkey, skey, spans, a);
    }
    FlattenPointwise(Map(BucketSpans, bs), AllMembers(gs));
    GroupByPartition(rkey, spans);
    assert |multiset(AllSpans(bs))| == |multiset(spans)|;
  }

  /** A leaf holds exactly the input spans that share its resource key and its
      scope key, in their input order. */
  lemma LeafIsFilter<RK, SK>(rkey: Span -> RK, skey: Span -> SK, spans: seq<Span>, a: nat, c: nat)
    requires a < |Buckets(rkey, skey, spans)| && c < |Buckets(rkey, skey, spans)[a].scopes|
    ensures var leaf := Buckets(rkey, skey, spans)[a].scopes[c].spans;
            |leaf| > 0 &&
            leaf == Filter((x: Span) => rkey(x) == rkey(leaf[0]) && skey(x) == skey(leaf[0]), spans)
  {
    var gs := GroupByKey(rkey, spans);
    var members := gs[a].members;
    var hs := GroupByKey(skey, members);
    var leaf := hs[c].members;
    assert leaf == Buckets(rkey, skey, spans)[a].scopes[c].spans;
    GroupByShape(rkey, spans);
    GroupByShape(skey, members);
    assert leaf[0] in members;
    var both := (x: Span) => rkey(x) == rkey(leaf[0]) && skey(x) == skey(leaf[0]);
    FilterFilter(Is(rkey, gs[a].key), Is(skey, hs[c].key), both, spans);
  }

  /** Two spans share a resource bucket exactly when their resource keys are
      equal, and share a scope bucket exactly when, in addition, their scope
      keys are equal. Each bucket records the resource (scope) of its first span. */
  lemma BucketsSeparateKeys<RK, SK>(rkey: Span -> RK, skey: Span -> SK, spans: seq<Span>, a: nat, b: nat, x: Span, y: Span)
    requires a < |Buckets(rkey, skey, spans)| && b < |Buckets(rkey, skey, spans)|
    requires x in BucketSpans(Buckets(rkey, skey, spans)[a]) && y in BucketSpans(Buckets(rkey, skey, spans)[b])
    ensures a == b <==> rkey(x) == rkey(y)
    ensures x in spans && y in spans
  {
    var gs := GroupByKey(rkey, spans);
    BucketSpansPermutation(rkey, skey, spans, a);
    BucketSpansPermutation(rkey, skey, spans, b);
    assert x in multiset(gs[a].members);
    assert y in multiset(gs[b].members);
    GroupByShape(rkey, spans);
  }

  /** Within one resource bucket, two spans share a scope bucket exactly when
      their scope keys are equal. */
  lemma ScopeBucketsSeparateKeys<RK, SK>(rkey: Span -> RK, skey: Span -> SK, spans: seq<Span>, a: nat, c: nat, d: nat, x: Span, y: Span)
    requires a < |Buckets(rkey, skey, spans)|
    requires c < |Buckets(rkey, skey, spans)[a].scopes| && d < |Buckets(rkey, skey, spans)[a].scopes|
    requires x in Buckets(rkey, skey, spans)[a].scopes[c].spans && y in Buckets(rkey, skey, spans)[a].scopes[d].spans
    ensures c == d <==> skey(x) == skey(y)
  {
    var members := GroupByKey(rkey, spans)[a].members;
    GroupByShape(skey, members);
  }

  /** Each bucket records the resource of the first span, in input order, that
      has the bucket's key; each scope bucket records the scope likewise. */
  lemma BucketRepresentatives<RK, SK>(rkey: Span -> RK, skey: Span -> SK, spans: seq<Span>, a: nat)
    requires a < |Buckets(rkey, skey, spans)|
    ensures var k := GroupByKey(rkey, spans)[a].key;
            (exists i :: 0 <= i < |spans| && rkey(spans[i]) == k) &&
            Buckets(rkey, skey, spans)[a].resource == spans[FirstIndex(rkey, spans, k)].resource
  {
    GroupHead(rkey, spans, a);
  }

  /** The first member of a group is the first element with the group's key. */
  lemma GroupHead<T, K>(key: T -> K, xs: seq<T>, a: nat)
    requires a < |GroupByKey(key, xs)|
    ensures exists i :: 0 <= i < |xs| && key(xs[i]) == GroupByKey(key, xs)[a].key
    ensures var k := GroupByKey(key, xs)[a].key;
            |GroupByKey(key, xs)[a].members| > 0 &&
            GroupByKey(key, xs)[a].members[0] == xs[FirstIndex(key, xs, k)]
  {
    var k := GroupByKey(key, xs)[a].key;
    assert k in FirstKeys(key, xs);
    FirstKeysMembership(key, xs, k);
    FilterNoneBefore(key, xs, k, FirstIndex(key, xs, k));
  }

  /** The first element kept by a filter on key `k` is the first element with
      key `k`. */
  lemma FilterNoneBefore<T, K>(key: T -> K, xs: seq<T>, k: K, i: nat)
    requires i < |xs| && key(xs[i]) == k
    requires forall j :: 0 <= j < i ==> key(xs[j]) != k
    ensures |Members(key, xs, k)| > 0 && Members(key, xs, k)[0] == xs[i]
  {
    FilterPrefix(Is(key, k), xs, i);
  }

  lemma {:induction false} FilterPrefix<T>(p: T -> bool, xs: seq<T>, i: nat)
    requires i < |xs| && p(xs[i])
    requires forall j :: 0 <= j < i ==> !p(xs[j])
    ensures |Filter(p, xs)| > 0 && Filter(p, xs)[0] == xs[i]
    decreases |xs|
  {
    var n := |xs| - 1;
    if n > i {
      FilterPrefix(p, xs[..n], i);
    } else {
      assert n == i;
      FilterNone(p, xs[..n]);
    }
  }

  lemma {:induction false} FilterNone<T>(p: T -> bool, xs: seq<T>)
    requires forall j :: 0 <= j < |xs| ==> !p(xs[j])
    ensures Filter(p, xs) == []
    decreases |xs|
  {
    if |xs| > 0 {
      FilterNone(p, xs[..|xs| - 1]);
    }
  }

  // ---------------------------------------------------------------------
  // groupSpans

  function SerializeScopeBucket(rt: Runtime, b: ScopeBucket): ScopeSpans {
    ScopeSpans(SerializeScope(b.scope), Map(SpanSerializer(rt), b.spans), b.scope.schemaUrl)
  }

  function SerializeResourceBucket(rt: Runtime, b: ResourceBucket): ResourceSpans {
    ResourceSpans(
      SerializeResource(rt, b.resource),
      Map((sb: ScopeBucket) => SerializeScopeBucket(rt, sb), b.scopes),
      b.resource.schemaUrl)
  }

  /** `groupSpans` over given resource and scope keys: group, then serialize
      each group in place. */
  function GroupSpansBy<RK(==), SK(==)>(rt: Runtime, rkey: Span -> RK, skey: Span -> SK, spans: seq<Span>): (rs: seq<ResourceSpans>)
    ensures |rs| == |FirstKeys(rkey, spans)|
  {
    Map((b: ResourceBucket) => SerializeResourceBucket(rt, b), Buckets(rkey, skey, spans))
  }

  function ResourceKeyOf(json: HostValue -> string): Span -> string {
    (s: Span) => ResourceKeyAsWritten(json, s.resource)
  }

  function ScopeKeyOf(): Span -> string {
    (s: Span) => ScopeKeyAsWritten(s.scope)
  }

  function ResourceIdentityOf(json: HostValue -> string): Span -> set<(string, string)> {
    (s: Span) => ResourceIdentity(json, s.resource)
  }

  function ScopeIdentityOf(): Span -> (string, string, string) {
    (s: Span) => ScopeIdentity(s.scope)
  }

  /** `groupSpans` keyed by the joined strings, as written, over the
      corrected encoder. */
  function GroupSpansByJoinedKeys(rt: Runtime, json: HostValue -> string, spans: seq<Span>): seq<ResourceSpans> {
    GroupSpansBy(rt, ResourceKeyOf(json), ScopeKeyOf(), spans)
  }

  /** `groupSpans` keyed by resource and scope identity: the grouping the
      rest of this model uses. */
  function GroupSpans(rt: Runtime, json: HostValue -> string, spans: seq<Span>): seq<ResourceSpans> {
    GroupSpansBy(rt, ResourceIdentityOf(json), ScopeIdentityOf(), spans)
  }

  /** The scope entry as written: `scopedSpans.map(serializeSpan)`. */
  function SerializeScopeBucketAsWritten(rt: Runtime, b: ScopeBucket): (r: Result<ScopeSpans, EncodeError>)
    ensures r.Err? <==> exists i :: 0 <= i < |b.spans| && SpanHasInvalidDate(b.spans[i])
    ensures r.Ok? ==> r.value == SerializeScopeBucket(rt, b)
  {
    MapAllAgrees(SpanSerializerAsWritten(rt), SpanSerializer(rt), b.spans);
    var spans :- MapAll(SpanSerializerAsWritten(rt), b.spans);
    Ok(ScopeSpans(SerializeScope(b.scope), spans, b.scope.schemaUrl))
  }

  /** True when the resource's attributes hold an invalid date. */
  predicate ResourceHasInvalidDate(resource: Resource) {
    AttributesHaveInvalidDate(Some(resource.attributes))
  }

  /** The resource entry as written: its scope entries first, then
      `serializeResource` of the recorded resource. */
  function SerializeResourceBucketAsWritten(rt: Runtime, b: ResourceBucket): (r: Result<ResourceSpans, EncodeError>)
    ensures r.Err? <==> (ResourceHasInvalidDate(b.resource) ||
      exists c, i :: 0 <= c < |b.scopes| && 0 <= i < |b.scopes[c].spans| && SpanHasInvalidDate(b.scopes[c].spans[i]))
    ensures r.Ok? ==> r.value == SerializeResourceBucket(rt, b)
  {
    var f := (sb: ScopeBucket) => SerializeScopeBucketAsWritten(rt, sb);
    MapAllAgrees(f, (sb: ScopeBucket) => SerializeScopeBucket(rt, sb), b.scopes);
    var scopeSpans :- MapAll(f, b.scopes);
    var resource :- SerializeResourceAsWritten(rt, b.resource);
    Ok(ResourceSpans(resource, scopeSpans, b.resource.schemaUrl))
  }

  /** Where serializing a batch as written meets an invalid date: in some span
      of the batch, or in the resource recorded for some resource entry (the
      first span's resource with that key; the others are never encoded). */
  predicate PayloadHasInvalidDate(json: HostValue -> string, spans: seq<Span>) {
    var bs := Buckets(ResourceKeyOf(json), ScopeKeyOf(), spans);
    (exists i :: 0 <= i < |spans| && SpanHasInvalidDate(spans[i])) ||
    (exists a :: 0 <= a < |bs| && ResourceHasInvalidDate(bs[a].resource))
  }

  /** `groupSpans` as written: joined-string keys and the throwing encoder. It
      throws exactly on an invalid date in the batch, and otherwise builds the
      same payload as `GroupSpansByJoinedKeys`. */
  function GroupSpansAsWritten(rt: Runtime, json: HostValue -> string, spans: seq<Span>): (r: Result<seq<ResourceSpans>, EncodeError>)
    ensures r.Err? <==> PayloadHasInvalidDate(json, spans)
    ensures r.Ok? ==> r.value == GroupSpansByJoinedKeys(rt, json, spans)
  {
    var bs := Buckets(ResourceKeyOf(json), ScopeKeyOf(), spans);
    var f := (b: ResourceBucket) => SerializeResourceBucketAsWritten(rt, b);
    MapAllAgrees(f, (b: ResourceBucket) => SerializeResourceBucket(rt, b), bs);
    LeavesHaveInvalidDate(ResourceKeyOf(json), ScopeKeyOf(), spans);
    MapAll(f, bs)
  }

  /** Some leaf holds a span with an invalid date exactly when the batch does. */
  lemma LeavesHaveInvalidDate<RK, SK>(rkey: Span -> RK, skey: Span -> SK, spans: seq<Span>)
    ensures var bs := Buckets(rkey, skey, spans);
      (exists a, c, i :: 0 <= a < |bs| && 0 <= c < |bs[a].scopes| && 0 <= i < |bs[a].scopes[c].spans| &&
        SpanHasInvalidDate(bs[a].scopes[c].spans[i])) <==>
      exists i :: 0 <= i < |spans| && SpanHasInvalidDate(spans[i])
  {
    var bs := Buckets(rkey, skey, spans);
    if exists a, c, i :: 0 <= a < |bs| && 0 <= c < |bs[a].scopes| && 0 <= i < |bs[a].scopes[c].spans| &&
        SpanHasInvalidDate(bs[a].scopes[c].spans[i]) {
      var a, c, i :| 0 <= a < |bs| && 0 <= c < |bs[a].scopes| && 0 <= i < |bs[a].scopes[c].spans| &&
        SpanHasInvalidDate(bs[a].scopes[c].spans[i]);
      var x := bs[a].scopes[c].spans[i];
      LeafMembership(rkey, skey, spans, x);
      var j :| 0 <= j < |spans| && spans[j] == x;
    }
    if exists i :: 0 <= i < |spans| && SpanHasInvalidDate(spans[i]) {
      var i :| 0 <= i < |spans| && SpanHasInvalidDate(spans[i]);
      LeafMembership(rkey, skey, spans, spans[i]);
      var a, c :| 0 <= a < |bs| && 0 <= c < |bs[a].scopes| && spans[i] in bs[a].scopes[c].spans;
      var k :| 0 <= k < |bs[a].scopes[c].spans| && bs[a].scopes[c].spans[k] == spans[i];
    }
  }

  /** A span is in the batch exactly when it is in some leaf. */
  lemma LeafMembership<RK, SK>(rkey: Span -> RK, skey: Span -> SK, spans: seq<Span>, x: Span)
    ensures var bs := Buckets(rkey, skey, spans);
      x in spans <==> exists a, c :: 0 <= a < |bs| && 0 <= c < |bs[a].scopes| && x in bs[a].scopes[c].spans
  {
    var bs := Buckets(rkey, skey, spans);
    BucketsPartition(rkey, skey, spans);
    assert x in spans <==> x in AllSpans(bs) by {
      assert x in spans <==> x in multiset(spans);
      assert x in AllSpans(bs) <==> x in multiset(AllSpans(bs));
    }
    FlattenMembership(Map(BucketSpans, bs), x);
    forall a | 0 <= a < |bs|
      ensures x in BucketSpans(bs[a]) <==> exists c :: 0 <= c < |bs[a].scopes| && x in bs[a].scopes[c].spans
    {
      FlattenMembership(Map(ScopeSpansOf, bs[a].scopes), x);
    }
  }

  function ScopeSpansSpans(ss: ScopeSpans): seq<OtlpSpan> {
    ss.spans
  }

  function ResourceSpansSpans(r: ResourceSpans): seq<OtlpSpan> {
    Flatten(Map(ScopeSpansSpans, r.scopeSpans))
  }

  /** Every serialized span of a payload, in payload order. */
  function OutputSpans(rs: seq<ResourceSpans>): seq<OtlpSpan> {
    Flatten(Map(ResourceSpansSpans, rs))
  }

  lemma SerializeBucketSpans(rt: Runtime, b: ResourceBucket)
    ensures ResourceSpansSpans(SerializeResourceBucket(rt, b)) == Map(SpanSerializer(rt), BucketSpans(b))
  {
    var f := SpanSerializer(rt);
    MapFlatten(f, Map(ScopeSpansOf, b.scopes));
    var lhs := Map(ScopeSpansSpans, SerializeResourceBucket(rt, b).scopeSpans);
    var rhs := Map((xs: seq<Span>) => Map(f, xs), Map(ScopeSpansOf, b.scopes));
    assert lhs == rhs;
  }

  /** The payload holds every input span serialized, each exactly as often as
      it occurs in the batch, whatever keys are used. */
  lemma GroupSpansByPreservesSpans<RK, SK>(rt: Runtime, rkey: Span -> RK, skey: Span -> SK, spans: seq<Span>)
    ensures multiset(OutputSpans(GroupSpansBy(rt, rkey, skey, spans))) == multiset(Map(SpanSerializer(rt), spans))
    ensures |OutputSpans(GroupSpansBy(rt, rkey, skey, spans))| == |spans|
  {
    var f := SpanSerializer(rt);
    var bs := Buckets(rkey, skey, spans);
    var rs := GroupSpansBy(rt, rkey, skey, spans);
    MapFlatten(f, Map(BucketSpans, bs));
    forall a | 0 <= a < |bs| ensures Map(ResourceSpansSpans, rs)[a] == Map((xs: seq<Span>) => Map(f, xs), Map(BucketSpans, bs))[a] {
      SerializeBucketSpans(rt, bs[a]);
    }
    assert Map(ResourceSpansSpans, rs) == Map((xs: seq<Span>) => Map(f, xs), Map(BucketSpans, bs));
    assert OutputSpans(rs) == Map(f, AllSpans(bs));
    BucketsPartition(rkey, skey, spans);
    MapPermutation(f, AllSpans(bs), spans);
  }

  /** With identity keys, two spans share a resource entry exactly when their
      resources have the same attribute pairs. */
  lemma GroupSpansSeparatesResources(json: HostValue -> string, spans: seq<Span>, a: nat, b: nat, x: Span, y: Span)
    requires a < |Buckets(ResourceIdentityOf(json), ScopeIdentityOf(), spans)|
    requires b < |Buckets(ResourceIdentityOf(json), ScopeIdentityOf(), spans)|
    requires x in BucketSpans(Buckets(ResourceIdentityOf(json), ScopeIdentityOf(), spans)[a])
    requires y in BucketSpans(Buckets(ResourceIdentityOf(json), ScopeIdentityOf(), spans)[b])
    ensures a == b <==> ResourceIdentity(json, x.resource) == ResourceIdentity(json, y.resource)
  {
    BucketsSeparateKeys(ResourceIdentityOf(json), ScopeIdentityOf(), spans, a, b, x, y);
  }

  /** With identity keys, two spans of one resource entry share a scope entry
      exactly when their scopes agree on name, version and schema URL. */
  lemma GroupSpansSeparatesScopes(json: HostValue -> string, spans: seq<Span>, a: nat, c: nat, d: nat, x: Span, y: Span)
    requires a < |Buckets(ResourceIdentityOf(json), ScopeIdentityOf(), spans)|
    requires c < |Buckets(ResourceIdentityOf(json), ScopeIdentityOf(), spans)[a].scopes|
    requires d < |Buckets(ResourceIdentityOf(json), ScopeIdentityOf(), spans)[a].scopes|
    requires x in Buckets(ResourceIdentityOf(json), ScopeIdentityOf(), spans)[a].scopes[c].spans
    requires y in Buckets(ResourceIdentityOf(json), ScopeIdentityOf(), spans)[a].scopes[d].spans
    ensures c == d <==> ScopeIdentity(x.scope) == ScopeIdentity(y.scope)
  {
    ScopeBucketsSeparateKeys(ResourceIdentityOf(json), ScopeIdentityOf(), spans, a, c, d, x, y);
  }

  /** A span whose resource collides with another's under the joined-string
      key is filed, as written, under the other resource; with identity keys
      it gets its own entry. */
  lemma GroupSpansMergesCollidingResources(rt: Runtime, json: HostValue -> string, v: HostValue, x: Span, y: Span)
    requires x.resource == Resource([("a", v), ("b", v)], None)
    requires y.resource == Resource([("a:" + json(v) + "|b", v)], None)
    ensures |GroupSpansByJoinedKeys(rt, json, [x, y])| == 1
    ensures |GroupSpans(rt, json, [x, y])| == 2
  {
    ResourceKeyCollision(json, v, x.resource, y.resource);
    var xs := [x, y];
    assert xs[..1] == [x];
    assert [x][..0] == [];
    var kw, ki := ResourceKeyOf(json), ResourceIdentityOf(json);
    assert FirstKeys(kw, [x]) == [kw(x)];
    assert kw(y) == kw(x);
    assert FirstKeys(kw, xs) == [kw(x)];
    assert FirstKeys(ki, [x]) == [ki(x)];
    assert ki(y) != ki(x);
    assert FirstKeys(ki, xs) == [ki(x), ki(y)];
  }
}
