/** The records that trace and metric payloads of `src/exporters/otlp-http.ts`
    share: the SDK's resource and instrumentation scope, and the OTLP resource
    envelope built from a resource (`serializeResource`). */
module OtlpCommon {
  import opened Wrappers
  import opened AnyValues

  /** An attribute map as `Object.entries` lists it. */
  type Attributes = seq<(string, HostValue)>

  /** No key is listed twice, as for the entries of any JavaScript object. */
  predicate UniqueKeys(attributes: Attributes) {
    forall i, j :: 0 <= i < j < |attributes| ==> attributes[i].0 != attributes[j].0
  }

  /** The SDK's `Resource`. */
  datatype Resource = Resource(attributes: Attributes, schemaUrl: Option<string>)

  /** The SDK's instrumentation scope; each part may be missing. */
  datatype Scope = Scope(name: Option<string>, version: Option<string>, schemaUrl: Option<string>)

  /** The OTLP resource envelope. */
  datatype OtlpResource = OtlpResource(attributes: seq<KeyValue>, droppedAttributesCount: nat)

  /** The OTLP scope envelope: the scope's name and version (its schema URL
      travels beside it, in the enclosing scope entry). */
  datatype OtlpScope = OtlpScope(name: Option<string>, version: Option<string>)

  /** `serializeResource`: the attributes encoded in order, and a dropped
      count that is always zero. */
  function SerializeResource(rt: Runtime, resource: Resource): (r: OtlpResource)
    ensures r.droppedAttributesCount == 0
    ensures |r.attributes| == |resource.attributes|
    ensures forall i :: 0 <= i < |r.attributes| ==> r.attributes[i].key == resource.attributes[i].0
  {
    OtlpResource(ToKeyValue(rt, Some(resource.attributes)), 0)
  }

  /** `serializeResource` as written: it throws exactly when an attribute
      value holds an invalid date, and otherwise builds `SerializeResource`. */
  function SerializeResourceAsWritten(rt: Runtime, resource: Resource): (r: Result<OtlpResource, EncodeError>)
    ensures r.Err? <==> AttributesHaveInvalidDate(Some(resource.attributes))
    ensures r.Ok? ==> r.value == SerializeResource(rt, resource)
  {
    var attributes :- ToKeyValueAsWritten(rt, Some(resource.attributes));
    Ok(OtlpResource(attributes, 0))
  }

  /** The resource's attributes can be read back from its envelope. */
  lemma SerializeResourceRoundTrip(rt: Runtime, resource: Resource)
    ensures FromKeyValues(rt, SerializeResource(rt, resource).attributes) == NormalizeEntries(resource.attributes)
  {
    KeyValuesRoundTrip(rt, resource.attributes);
  }

  /** The scope envelope: name and version carried over unchanged. */
  function SerializeScope(scope: Scope): (r: OtlpScope)
    ensures r.name == scope.name && r.version == scope.version
  {
    OtlpScope(scope.name, scope.version)
  }

  /** `count ?? 0`. */
  function CountOrZero(count: Option<nat>): (n: nat)
    ensures count.None? ==> n == 0
    ensures count.Some? ==> n == count.value
  {
    count.GetOr(0)
  }
}
