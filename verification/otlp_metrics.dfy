/** The metric half of `src/exporters/otlp-http.ts`: temporality codes,
    number and histogram data points, `serializeMetric` and `groupMetrics`. */
module OtlpMetrics {
  import opened Wrappers
  import opened AnyValues
  import opened OtlpCommon
  import opened Seqs
  import Decimal
  import HT = HrTime

  // ---------------------------------------------------------------------
  // The SDK's collected metrics

  /** The SDK's `AggregationTemporality`; `UnknownTemporality` stands for any
      value outside the two named ones. */
  datatype AggregationTemporality = DeltaTemporality | CumulativeTemporality | UnknownTemporality

  datatype ValueType = IntType | DoubleType

  datatype Descriptor = Descriptor(
    name: string,
    description: Option<string>,
    unit: Option<string>,
    valueType: ValueType)

  datatype NumberPoint = NumberPoint(
    attributes: Attributes,
    startTime: HT.HrTime,
    endTime: HT.HrTime,
    value: JsNumber)

  datatype Histogram = Histogram(
    counts: seq<nat>,
    boundaries: seq<JsNumber>,
    sum: Option<JsNumber>,
    count: nat,
    min: Option<JsNumber>,
    max: Option<JsNumber>)

  datatype HistogramPoint = HistogramPoint(
    attributes: Attributes,
    startTime: HT.HrTime,
    endTime: HT.HrTime,
    value: Histogram)

  /** The data of a metric, by its `dataPointType`. `OtherPoints` is any type
      the encoder does not handle (the exponential histogram among them). */
  datatype MetricPoints =
    | SumPoints(temporality: AggregationTemporality, isMonotonic: Option<bool>, numberPoints: seq<NumberPoint>)
    | GaugePoints(numberPoints: seq<NumberPoint>)
    | HistogramPoints(temporality: AggregationTemporality, histogramPoints: seq<HistogramPoint>)
    | OtherPoints(dataPointType: int)

  datatype Metric = Metric(descriptor: Descriptor, points: MetricPoints)

  datatype ScopeMetrics = ScopeMetrics(scope: Scope, metrics: seq<Metric>)

  datatype ResourceMetrics = ResourceMetrics(resource: Resource, scopeMetrics: seq<ScopeMetrics>)

  // ---------------------------------------------------------------------
  // The OTLP/JSON records

  /** A number point's value: exactly one of `asInt` and `asDouble`. */
  datatype PointValue = AsInt(i: JsNumber) | AsDouble(d: JsNumber)

  datatype OtlpNumberPoint = OtlpNumberPoint(
    attributes: seq<KeyValue>,
    startTimeUnixNano: string,
    timeUnixNano: string,
    value: PointValue)

  datatype OtlpHistogramPoint = OtlpHistogramPoint(
    attributes: seq<KeyValue>,
    startTimeUnixNano: string,
    timeUnixNano: string,
    bucketCounts: seq<string>,
    explicitBounds: seq<JsNumber>,
    sum: Option<JsNumber>,
    count: string,
    min: Option<JsNumber>,
    max: Option<JsNumber>)

  datatype OtlpSum = OtlpSum(aggregationTemporality: int, isMonotonic: bool, dataPoints: seq<OtlpNumberPoint>)

  datatype OtlpGauge = OtlpGauge(dataPoints: seq<OtlpNumberPoint>)

  datatype OtlpHistogram = OtlpHistogram(aggregationTemporality: int, dataPoints: seq<OtlpHistogramPoint>)

  datatype OtlpMetric = OtlpMetric(
    name: string,
    description: string,
    unit: string,
    sum: Option<OtlpSum>,
    gauge: Option<OtlpGauge>,
    histogram: Option<OtlpHistogram>)

  datatype ScopeMetricsEnvelope = ScopeMetricsEnvelope(scope: OtlpScope, metrics: seq<OtlpMetric>, schemaUrl: Option<string>)

  datatype ResourceMetricsEnvelope = ResourceMetricsEnvelope(
    resource: OtlpResource,
    scopeMetrics: seq<ScopeMetricsEnvelope>,
    schemaUrl: Option<string>)

  // ---------------------------------------------------------------------
  // Temporality

  /** The OTLP temporality codes. */
  const Unspecified: int := 0
  const Delta: int := 1
  const Cumulative: int := 2

  /** `toTemporality`: the two named temporalities get their codes, anything
      else is unspecified. */
  function ToTemporality(t: AggregationTemporality): (code: int)
    ensures code == Delta <==> t == DeltaTemporality
    ensures code == Cumulative <==> t == CumulativeTemporality
    ensures code == Unspecified <==> t == UnknownTemporality
  {
    match t
    case DeltaTemporality => Delta
    case CumulativeTemporality => Cumulative
    case UnknownTemporality => Unspecified
  }

  /** A reader of the `AggregationTemporality` enum of the OTLP metrics
      protocol: 0, 1 and 2 are its only values. */
  function ReadTemporality(code: int): (t: Option<AggregationTemporality>)
    ensures t.Some? <==> 0 <= code <= 2
    ensures t.Some? ==> ToTemporality(t.value) == code
  {
    if code == Delta then Some(DeltaTemporality)
    else if code == Cumulative then Some(CumulativeTemporality)
    else if code == Unspecified then Some(UnknownTemporality)
    else None
  }

  /** A collector reading the code back gets the temporality that was
      written, so no two temporalities share a code. */
  lemma TemporalityRoundTrip(t: AggregationTemporality, u: AggregationTemporality)
    ensures ReadTemporality(ToTemporality(t)) == Some(t)
    ensures ToTemporality(t) == ToTemporality(u) ==> t == u
  {
  }

  // ---------------------------------------------------------------------
  // Data points

  /** `serializeNumberDataPoint`: the value goes to `asInt` exactly when the
      instrument's value type is INT, and is carried unchanged either way. */
  function SerializeNumberPoint(rt: Runtime, p: NumberPoint, valueType: ValueType): (r: OtlpNumberPoint)
    ensures r.value.AsInt? <==> valueType == IntType
    ensures r.value.AsInt? ==> r.value.i == p.value
    ensures r.value.AsDouble? ==> r.value.d == p.value
    ensures Decimal.ParseInt(r.startTimeUnixNano) == Some(p.startTime.seconds * HT.NanosPerSecond + p.startTime.nanos)
    ensures Decimal.ParseInt(r.timeUnixNano) == Some(p.endTime.seconds * HT.NanosPerSecond + p.endTime.nanos)
    ensures FromKeyValues(rt, r.attributes) == NormalizeEntries(p.attributes)
  {
    KeyValuesRoundTrip(rt, p.attributes);
    var attributes := ToKeyValue(rt, Some(p.attributes));
    var start := HT.HrTimeToNanos(p.startTime);
    var end := HT.HrTimeToNanos(p.endTime);
    if valueType == IntType then OtlpNumberPoint(attributes, start, end, AsInt(p.value))
    else OtlpNumberPoint(attributes, start, end, AsDouble(p.value))
  }

  /** `String(count)` for each bucket count. */
  function CountStrings(counts: seq<nat>): (ss: seq<string>)
    ensures |ss| == |counts|
    ensures forall i :: 0 <= i < |counts| ==> Decimal.ParseInt(ss[i]) == Some(counts[i] as int)
  {
    Map(CountString, counts)
  }

  /** `String(n)` for a count: the decimal text that reads back as `n`. */
  function CountString(n: nat): (s: string)
    ensures Decimal.ParseInt(s) == Some(n as int)
  {
    Decimal.IntToStringRoundTrip(n);
    Decimal.IntToString(n)
  }

  /** `serializeHistogramDataPoint`: counts become decimal strings that read
      back as the counts, bounds and the optional statistics are carried over. */
  function SerializeHistogramPoint(rt: Runtime, p: HistogramPoint): (r: OtlpHistogramPoint)
    ensures |r.bucketCounts| == |p.value.counts|
    ensures forall i :: 0 <= i < |p.value.counts| ==> Decimal.ParseInt(r.bucketCounts[i]) == Some(p.value.counts[i] as int)
    ensures Decimal.ParseInt(r.count) == Some(p.value.count as int)
    ensures r.explicitBounds == p.value.boundaries
    ensures r.sum == p.value.sum && r.min == p.value.min && r.max == p.value.max
    ensures Decimal.ParseInt(r.startTimeUnixNano) == Some(p.startTime.seconds * HT.NanosPerSecond + p.startTime.nanos)
    ensures Decimal.ParseInt(r.timeUnixNano) == Some(p.endTime.seconds * HT.NanosPerSecond + p.endTime.nanos)
    ensures FromKeyValues(rt, r.attributes) == NormalizeEntries(p.attributes)
  {
    KeyValuesRoundTrip(rt, p.attributes);
    OtlpHistogramPoint(
      ToKeyValue(rt, Some(p.attributes)),
      HT.HrTimeToNanos(p.startTime),
      HT.HrTimeToNanos(p.endTime),
      CountStrings(p.value.counts),
      p.value.boundaries,
      p.value.sum,
      CountString(p.value.count),
      p.value.min,
      p.value.max)
  }

  // ---------------------------------------------------------------------
  // Metrics

  /** `serializeMetric`: exactly the field matching the data point type is
      set, none for an unhandled type; description and unit default to "". */
  function SerializeMetric(rt: Runtime, m: Metric): (r: OtlpMetric)
    ensures r.name == m.descriptor.name
    ensures m.descriptor.description.None? ==> r.description == ""
    ensures m.descriptor.description.Some? ==> r.description == m.descriptor.description.value
    ensures m.descriptor.unit.None? ==> r.unit == ""
    ensures m.descriptor.unit.Some? ==> r.unit == m.descriptor.unit.value
    ensures r.sum.Some? <==> m.points.SumPoints?
    ensures r.gauge.Some? <==> m.points.GaugePoints?
    ensures r.histogram.Some? <==> m.points.HistogramPoints?
    ensures m.points.SumPoints? ==>
      r.sum.value.aggregationTemporality == ToTemporality(m.points.temporality) &&
      r.sum.value.isMonotonic == (m.points.isMonotonic == Some(true)) &&
      |r.sum.value.dataPoints| == |m.points.numberPoints| &&
      forall i :: 0 <= i < |m.points.numberPoints| ==>
        r.sum.value.dataPoints[i] == SerializeNumberPoint(rt, m.points.numberPoints[i], m.descriptor.valueType)
    ensures m.points.GaugePoints? ==>
      |r.gauge.value.dataPoints| == |m.points.numberPoints| &&
      forall i :: 0 <= i < |m.points.numberPoints| ==>
        r.gauge.value.dataPoints[i] == SerializeNumberPoint(rt, m.points.numberPoints[i], m.descriptor.valueType)
    ensures m.points.HistogramPoints? ==>
      r.histogram.value.aggregationTemporality == ToTemporality(m.points.temporality) &&
      |r.histogram.value.dataPoints| == |m.points.histogramPoints| &&
      forall i :: 0 <= i < |m.points.histogramPoints| ==>
        r.histogram.value.dataPoints[i] == SerializeHistogramPoint(rt, m.points.histogramPoints[i])
  {
    var d := m.descriptor;
    var name, description, unit := d.name, d.description.GetOr(""), d.unit.GetOr("");
    match m.points
    case SumPoints(temporality, isMonotonic, points) =>
      var sum := OtlpSum(
        ToTemporality(temporality),
        isMonotonic.GetOr(false),
        Map((p: NumberPoint) => SerializeNumberPoint(rt, p, d.valueType), points));
      OtlpMetric(name, description, unit, Some(sum), None, None)
    case GaugePoints(points) =>
      var gauge := OtlpGauge(Map((p: NumberPoint) => SerializeNumberPoint(rt, p, d.valueType), points));
      OtlpMetric(name, description, unit, None, Some(gauge), None)
    case HistogramPoints(temporality, points) =>
      var histogram := OtlpHistogram(
        ToTemporality(temporality),
        Map((p: HistogramPoint) => SerializeHistogramPoint(rt, p), points));
      OtlpMetric(name, description, unit, None, None, Some(histogram))
    case OtherPoints(_) =>
      OtlpMetric(name, description, unit, None, None, None)
  }

  /** `serializeScopeMetrics`: one envelope per scope, metrics in order. */
  function SerializeScopeMetrics(rt: Runtime, sm: ScopeMetrics): (r: ScopeMetricsEnvelope)
    ensures r.scope == SerializeScope(sm.scope) && r.schemaUrl == sm.scope.schemaUrl
    ensures |r.metrics| == |sm.metrics|
    ensures forall i :: 0 <= i < |sm.metrics| ==> r.metrics[i] == SerializeMetric(rt, sm.metrics[i])
  {
    ScopeMetricsEnvelope(SerializeScope(sm.scope), Map((m: Metric) => SerializeMetric(rt, m), sm.metrics), sm.scope.schemaUrl)
  }

  /** `groupMetrics`: no regrouping; one envelope per entry, one scope
      envelope per scope, in order. */
  function GroupMetrics(rt: Runtime, rms: seq<ResourceMetrics>): (r: seq<ResourceMetricsEnvelope>)
    ensures |r| == |rms|
    ensures forall i :: 0 <= i < |rms| ==>
      r[i].resource == SerializeResource(rt, rms[i].resource) &&
      r[i].schemaUrl == rms[i].resource.schemaUrl &&
      |r[i].scopeMetrics| == |rms[i].scopeMetrics| &&
      forall j :: 0 <= j < |rms[i].scopeMetrics| ==>
        r[i].scopeMetrics[j] == SerializeScopeMetrics(rt, rms[i].scopeMetrics[j])
  {
    Map((e: ResourceMetrics) =>
      ResourceMetricsEnvelope(
        SerializeResource(rt, e.resource),
        Map((sm: ScopeMetrics) => SerializeScopeMetrics(rt, sm), e.scopeMetrics),
        e.resource.schemaUrl),
      rms)
  }

  // ---------------------------------------------------------------------
  // Serialization as written: an invalid date throws

  /** True when serializing the metric meets an invalid date in a data
      point's attributes; an unhandled data point type encodes nothing. */
  predicate MetricHasInvalidDate(m: Metric) {
    match m.points
    case SumPoints(_, _, points) => exists i :: 0 <= i < |points| && AttributesHaveInvalidDate(Some(points[i].attributes))
    case GaugePoints(points) => exists i :: 0 <= i < |points| && AttributesHaveInvalidDate(Some(points[i].attributes))
    case HistogramPoints(_, points) => exists i :: 0 <= i < |points| && AttributesHaveInvalidDate(Some(points[i].attributes))
    case OtherPoints(_) => false
  }

  /** `serializeNumberDataPoint` as written. */
  function SerializeNumberPointAsWritten(rt: Runtime, p: NumberPoint, valueType: ValueType): (r: Result<OtlpNumberPoint, EncodeError>)
    ensures r.Err? <==> AttributesHaveInvalidDate(Some(p.attributes))
    ensures r.Ok? ==> r.value == SerializeNumberPoint(rt, p, valueType)
  {
    var attributes :- ToKeyValueAsWritten(rt, Some(p.attributes));
    var start := HT.HrTimeToNanos(p.startTime);
    var end := HT.HrTimeToNanos(p.endTime);
    if valueType == IntType then Ok(OtlpNumberPoint(attributes, start, end, AsInt(p.value)))
    else Ok(OtlpNumberPoint(attributes, start, end, AsDouble(p.value)))
  }

  /** `serializeHistogramDataPoint` as written. */
  function SerializeHistogramPointAsWritten(rt: Runtime, p: HistogramPoint): (r: Result<OtlpHistogramPoint, EncodeError>)
    ensures r.Err? <==> AttributesHaveInvalidDate(Some(p.attributes))
    ensures r.Ok? ==> r.value == SerializeHistogramPoint(rt, p)
  {
    var attributes :- ToKeyValueAsWritten(rt, Some(p.attributes));
    Ok(OtlpHistogramPoint(
      attributes,
      HT.HrTimeToNanos(p.startTime),
      HT.HrTimeToNanos(p.endTime),
      CountStrings(p.value.counts),
      p.value.boundaries,
      p.value.sum,
      CountString(p.value.count),
      p.value.min,
      p.value.max))
  }

  /** The `dataPoints.map(...)` of a sum or a gauge, as written. */
  function NumberPointsAsWritten(rt: Runtime, points: seq<NumberPoint>, valueType: ValueType)
    : (r: Result<seq<OtlpNumberPoint>, EncodeError>)
    ensures r.Err? <==> exists i :: 0 <= i < |points| && AttributesHaveInvalidDate(Some(points[i].attributes))
    ensures r.Ok? ==> |r.value| == |points|
    ensures r.Ok? ==> forall i :: 0 <= i < |points| ==> r.value[i] == SerializeNumberPoint(rt, points[i], valueType)
  {
    var f := (p: NumberPoint) => SerializeNumberPointAsWritten(rt, p, valueType);
    MapAllAgrees(f, (p: NumberPoint) => SerializeNumberPoint(rt, p, valueType), points);
    MapAll(f, points)
  }

  /** The `dataPoints.map(...)` of a histogram, as written. */
  function HistogramPointsAsWritten(rt: Runtime, points: seq<HistogramPoint>)
    : (r: Result<seq<OtlpHistogramPoint>, EncodeError>)
    ensures r.Err? <==> exists i :: 0 <= i < |points| && AttributesHaveInvalidDate(Some(points[i].attributes))
    ensures r.Ok? ==> |r.value| == |points|
    ensures r.Ok? ==> forall i :: 0 <= i < |points| ==> r.value[i] == SerializeHistogramPoint(rt, points[i])
  {
    var f := (p: HistogramPoint) => SerializeHistogramPointAsWritten(rt, p);
    MapAllAgrees(f, (p: HistogramPoint) => SerializeHistogramPoint(rt, p), points);
    MapAll(f, points)
  }

  /** `serializeMetric` as written. */
  function SerializeMetricAsWritten(rt: Runtime, m: Metric): (r: Result<OtlpMetric, EncodeError>)
    ensures r.Err? <==> MetricHasInvalidDate(m)
    ensures r.Ok? ==> r.value == SerializeMetric(rt, m)
  {
    var d := m.descriptor;
    var name, description, unit := d.name, d.description.GetOr(""), d.unit.GetOr("");
    var expected := SerializeMetric(rt, m);
    match m.points
    case SumPoints(temporality, isMonotonic, points) =>
      var dataPoints :- NumberPointsAsWritten(rt, points, d.valueType);
      assert dataPoints == expected.sum.value.dataPoints;
      Ok(OtlpMetric(name, description, unit, Some(OtlpSum(ToTemporality(temporality), isMonotonic.GetOr(false), dataPoints)), None, None))
    case GaugePoints(points) =>
      var dataPoints :- NumberPointsAsWritten(rt, points, d.valueType);
      assert dataPoints == expected.gauge.value.dataPoints;
      Ok(OtlpMetric(name, description, unit, None, Some(OtlpGauge(dataPoints)), None))
    case HistogramPoints(temporality, points) =>
      var dataPoints :- HistogramPointsAsWritten(rt, points);
      assert dataPoints == expected.histogram.value.dataPoints;
      Ok(OtlpMetric(name, description, unit, None, None, Some(OtlpHistogram(ToTemporality(temporality), dataPoints))))
    case OtherPoints(_) =>
      Ok(OtlpMetric(name, description, unit, None, None, None))
  }

  /** `serializeScopeMetrics` as written. */
  function SerializeScopeMetricsAsWritten(rt: Runtime, sm: ScopeMetrics): (r: Result<ScopeMetricsEnvelope, EncodeError>)
    ensures r.Err? <==> exists i :: 0 <= i < |sm.metrics| && MetricHasInvalidDate(sm.metrics[i])
    ensures r.Ok? ==> r.value == SerializeScopeMetrics(rt, sm)
  {
    var f := (m: Metric) => SerializeMetricAsWritten(rt, m);
    MapAllAgrees(f, (m: Metric) => SerializeMetric(rt, m), sm.metrics);
    var metrics :- MapAll(f, sm.metrics);
    Ok(ScopeMetricsEnvelope(SerializeScope(sm.scope), metrics, sm.scope.schemaUrl))
  }

  /** True when serializing the collection meets an invalid date: in the
      resource's attributes or in some metric of some scope. */
  predicate ResourceMetricsHasInvalidDate(e: ResourceMetrics) {
    AttributesHaveInvalidDate(Some(e.resource.attributes)) ||
    exists j, i :: 0 <= j < |e.scopeMetrics| && 0 <= i < |e.scopeMetrics[j].metrics| &&
      MetricHasInvalidDate(e.scopeMetrics[j].metrics[i])
  }

  /** One entry of `groupMetrics` as written: the resource first, then the
      scope entries. */
  function SerializeResourceMetricsAsWritten(rt: Runtime, e: ResourceMetrics): (r: Result<ResourceMetricsEnvelope, EncodeError>)
    ensures r.Err? <==> ResourceMetricsHasInvalidDate(e)
    ensures r.Ok? ==> r.value == ResourceMetricsEnvelope(
      SerializeResource(rt, e.resource),
      Map((sm: ScopeMetrics) => SerializeScopeMetrics(rt, sm), e.scopeMetrics),
      e.resource.schemaUrl)
  {
    var f := (sm: ScopeMetrics) => SerializeScopeMetricsAsWritten(rt, sm);
    MapAllAgrees(f, (sm: ScopeMetrics) => SerializeScopeMetrics(rt, sm), e.scopeMetrics);
    var resource :- SerializeResourceAsWritten(rt, e.resource);
    var scopeMetrics :- MapAll(f, e.scopeMetrics);
    Ok(ResourceMetricsEnvelope(resource, scopeMetrics, e.resource.schemaUrl))
  }

  /** `groupMetrics` as written: it throws exactly when some entry meets an
      invalid date, and otherwise builds the same payload as `GroupMetrics`. */
  function GroupMetricsAsWritten(rt: Runtime, rms: seq<ResourceMetrics>): (r: Result<seq<ResourceMetricsEnvelope>, EncodeError>)
    ensures r.Err? <==> exists i :: 0 <= i < |rms| && ResourceMetricsHasInvalidDate(rms[i])
    ensures r.Ok? ==> r.value == GroupMetrics(rt, rms)
  {
    var f := (e: ResourceMetrics) => SerializeResourceMetricsAsWritten(rt, e);
    var g := (e: ResourceMetrics) =>
      ResourceMetricsEnvelope(
        SerializeResource(rt, e.resource),
        Map((sm: ScopeMetrics) => SerializeScopeMetrics(rt, sm), e.scopeMetrics),
        e.resource.schemaUrl);
    MapAllAgrees(f, g, rms);
    MapAll(f, rms)
  }

  /** The number of metrics in a payload. */
  function MetricCount(envelopes: seq<ResourceMetricsEnvelope>): nat
    decreases |envelopes|
  {
    if |envelopes| == 0 then 0
    else MetricCount(envelopes[..|envelopes| - 1]) + ScopeMetricCount(envelopes[|envelopes| - 1].scopeMetrics)
  }

  function ScopeMetricCount(scopes: seq<ScopeMetricsEnvelope>): nat
    decreases |scopes|
  {
    if |scopes| == 0 then 0 else ScopeMetricCount(scopes[..|scopes| - 1]) + |scopes[|scopes| - 1].metrics|
  }

  /** The number of metrics collected. */
  function CollectedCount(scopes: seq<ScopeMetrics>): nat
    decreases |scopes|
  {
    if |scopes| == 0 then 0 else CollectedCount(scopes[..|scopes| - 1]) + |scopes[|scopes| - 1].metrics|
  }

  lemma {:induction false} ScopeCountPreserved(rt: Runtime, scopes: seq<ScopeMetrics>)
    ensures ScopeMetricCount(Map((sm: ScopeMetrics) => SerializeScopeMetrics(rt, sm), scopes)) == CollectedCount(scopes)
    decreases |scopes|
  {
    if |scopes| > 0 {
      var n := |scopes| - 1;
      ScopeCountPreserved(rt, scopes[..n]);
      assert Map((sm: ScopeMetrics) => SerializeScopeMetrics(rt, sm), scopes)[..n] ==
        Map((sm: ScopeMetrics) => SerializeScopeMetrics(rt, sm), scopes[..n]);
    }
  }

  /** A metrics export sends one resource envelope, holding as many metrics as
      were collected. */
  lemma ExportPayloadShape(rt: Runtime, metrics: ResourceMetrics)
    ensures |GroupMetrics(rt, [metrics])| == 1
    ensures MetricCount(GroupMetrics(rt, [metrics])) == CollectedCount(metrics.scopeMetrics)
  {
    var r := GroupMetrics(rt, [metrics]);
    ScopeCountPreserved(rt, metrics.scopeMetrics);
    assert r[0].scopeMetrics == Map((sm: ScopeMetrics) => SerializeScopeMetrics(rt, sm), metrics.scopeMetrics);
    assert r[..0] == [];
  }
}
