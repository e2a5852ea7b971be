/** The attribute-value encoder of `src/exporters/otlp-http.ts`: host values of
    the JavaScript runtime mapped onto the closed OTLP `AnyValue` union
    (`toAnyValue`, `toKeyValue`, `bytesToBase64`). */
module AnyValues {
  import opened Wrappers
  import Base64
  import Seqs

  type byte = Base64.byte

  /** A JavaScript number. `Finite` carries the exact value; rounding to
      binary64 is not modelled. */
  datatype JsNumber = Finite(r: real) | NaN | Infinity(positive: bool)

  /** `Number.isInteger`. */
  predicate IsInteger(n: JsNumber) {
    n.Finite? && n.r.Floor as real == n.r
  }

  /** Where a byte value came from: the three byte-carrying checks of
      `toAnyValue`, in their order. All three encode the viewed bytes. */
  datatype ByteSource = Uint8ArrayValue | ArrayBufferValue | OtherView

  /** The host values an attribute may hold, classified the way the encoder's
      chain of checks classifies them. A `Date` holds its `toISOString()` text,
      or `None` for an invalid date (whose `toISOString()` throws). An
      `Object` holds its own enumerable string-keyed properties in enumeration
      order. `Other` is anything else (a symbol, a function), with its
      `String(value)` text. */
  datatype HostValue =
    | Undefined
    | Null
    | Bytes(source: ByteSource, data: seq<byte>)
    | Date(iso: Option<string>)
    | Str(s: string)
    | Bool(b: bool)
    | Num(n: JsNumber)
    | BigInt(i: int)
    | Array(items: seq<HostValue>)
    | Object(entries: seq<(string, HostValue)>)
    | Other(text: string)

  /** The optional globals the encoder probes for. */
  datatype Runtime = Runtime(hasBuffer: bool, hasBtoa: bool)

  /** The OTLP `AnyValue` union and its `KeyValue` pair. */
  datatype AnyValue =
    | StringValue(s: string)
    | BoolValue(b: bool)
    | IntValue(i: int)
    | DoubleValue(d: JsNumber)
    | BytesValue(text: string)
    | ArrayValue(values: seq<AnyValue>)
    | KvlistValue(kvs: seq<KeyValue>)

  datatype KeyValue = KeyValue(key: string, value: AnyValue)

  /** What `String(date)` gives for an invalid date. */
  const InvalidDateText: string := "Invalid Date"

  /** One character per byte, the `String.fromCharCode` loop. */
  function BinaryString(data: seq<byte>): (s: string)
    ensures |s| == |data|
    ensures forall i :: 0 <= i < |data| ==> s[i] as int == data[i]
  {
    seq(|data|, i requires 0 <= i < |data| => data[i] as char)
  }

  /** Inverse of `BinaryString` for texts of code points below 256. */
  function BinaryBytes(s: string): Option<seq<byte>> {
    if forall i :: 0 <= i < |s| ==> s[i] as int < 256 then
      Some(seq(|s|, i requires 0 <= i < |s| && s[i] as int < 256 => s[i] as int as byte))
    else
      None
  }

  /** True when the runtime has a base64 encoder (`Buffer` or `btoa`). */
  predicate HasEncoder(rt: Runtime) {
    rt.hasBuffer || rt.hasBtoa
  }

  /** `bytesToBase64`: `Buffer` first, then `btoa` over the binary string,
      then the binary string itself. */
  function BytesToBase64(rt: Runtime, data: seq<byte>): (text: string)
    ensures HasEncoder(rt) ==> text == Base64.Encode(data)
    ensures !HasEncoder(rt) ==> |text| == |data| && forall i :: 0 <= i < |data| ==> text[i] as int == data[i]
  {
    if rt.hasBuffer then Base64.Encode(data)
    else
      // `btoa` over the binary string is base64 over the bytes it spells
      if rt.hasBtoa then Base64.Encode(data) else BinaryString(data)
  }

  /** Reads a `bytesValue` text back into bytes, under the same runtime. */
  function BytesFromText(rt: Runtime, text: string): Option<seq<byte>> {
    if HasEncoder(rt) then Base64.Decode(text) else BinaryBytes(text)
  }

  lemma BytesTextRoundTrip(rt: Runtime, data: seq<byte>)
    ensures BytesFromText(rt, BytesToBase64(rt, data)) == Some(data)
  {
    if HasEncoder(rt) {
      Base64.DecodeEncode(data);
    } else {
      var t := BytesToBase64(rt, data);
      assert BinaryBytes(t).Some?;
      assert BinaryBytes(t).value == data;
    }
  }

  /** `toAnyValue`, with the corrected treatment of invalid dates (see
      `ToAnyValueAsWritten`): exactly one tag per value, chosen by the
      source's order of checks. */
  function ToAnyValue(rt: Runtime, v: HostValue): (r: AnyValue)
    ensures (v.Undefined? || v.Null?) ==> r == StringValue("")
    ensures v.Bytes? ==> r.BytesValue?
    ensures (v.Date? || v.Str? || v.Other?) ==> r.StringValue?
    ensures v.Bool? ==> r == BoolValue(v.b)
    ensures v.Num? ==> (r.IntValue? <==> IsInteger(v.n)) && (r.DoubleValue? <==> !IsInteger(v.n))
    ensures v.BigInt? ==> r == IntValue(v.i)
    ensures v.Array? ==> r.ArrayValue? && |r.values| == |v.items|
    ensures v.Object? ==> r.KvlistValue? && |r.kvs| == |v.entries|
    decreases v
  {
    match v
    case Undefined => StringValue("")
    case Null => StringValue("")
    case Bytes(_, data) => BytesValue(BytesToBase64(rt, data))
    case Date(iso) => StringValue(iso.GetOr(InvalidDateText))
    case Str(s) => StringValue(s)
    case Bool(b) => BoolValue(b)
    case Num(n) => if IsInteger(n) then IntValue(n.r.Floor) else DoubleValue(n)
    case BigInt(i) => IntValue(i)
    case Array(items) =>
      ArrayValue(seq(|items|, i requires 0 <= i < |items| => ToAnyValue(rt, items[i])))
    case Object(entries) =>
      KvlistValue(seq(|entries|, i requires 0 <= i < |entries| =>
        KeyValue(entries[i].0, ToAnyValue(rt, entries[i].1))))
    case Other(text) => StringValue(text)
  }

  /** `toKeyValue`: no attributes give no pairs; otherwise one pair per entry,
      in order, keys unchanged. */
  function ToKeyValue(rt: Runtime, attributes: Option<seq<(string, HostValue)>>): (r: seq<KeyValue>)
    ensures attributes.None? ==> r == []
    ensures attributes.Some? ==> |r| == |attributes.value|
    ensures attributes.Some? ==> forall i :: 0 <= i < |r| ==>
      r[i].key == attributes.value[i].0 && r[i].value == ToAnyValue(rt, attributes.value[i].1)
  {
    match attributes
    case None => []
    case Some(entries) =>
      seq(|entries|, i requires 0 <= i < |entries| => KeyValue(entries[i].0, ToAnyValue(rt, entries[i].1)))
  }

  // ---------------------------------------------------------------------
  // The collector's view: reading an AnyValue back into a host value.

  /** The host value a collector reconstructs from an `AnyValue`. */
  function FromAnyValue(rt: Runtime, a: AnyValue): (v: HostValue)
    decreases a
  {
    match a
    case StringValue(s) => Str(s)
    case BoolValue(b) => Bool(b)
    case IntValue(i) => Num(Finite(i as real))
    case DoubleValue(d) => Num(d)
    case BytesValue(text) => Bytes(Uint8ArrayValue, BytesFromText(rt, text).GetOr([]))
    case ArrayValue(values) =>
      Array(seq(|values|, i requires 0 <= i < |values| => FromAnyValue(rt, values[i])))
    case KvlistValue(kvs) =>
      Object(seq(|kvs|, i requires 0 <= i < |kvs| => (kvs[i].key, FromAnyValue(rt, kvs[i].value))))
  }

  /** The `AnyValue`s the encoder can produce: doubles are never integral and
      byte texts are readable. */
  predicate WellFormed(rt: Runtime, a: AnyValue)
    decreases a
  {
    match a
    case DoubleValue(d) => !IsInteger(d)
    case BytesValue(text) => BytesFromText(rt, text).Some?
    case ArrayValue(values) => forall i :: 0 <= i < |values| ==> WellFormed(rt, values[i])
    case KvlistValue(kvs) => forall i :: 0 <= i < |kvs| ==> WellFormed(rt, kvs[i].value)
    case _ => true
  }

  /** What survives an encode/decode cycle: absent values and dates become
      strings, bigints become numbers, every byte source becomes a `Uint8Array`. */
  function Normalize(v: HostValue): (n: HostValue)
    decreases v
  {
    match v
    case Undefined => Str("")
    case Null => Str("")
    case Bytes(_, data) => Bytes(Uint8ArrayValue, data)
    case Date(iso) => Str(iso.GetOr(InvalidDateText))
    case Str(s) => Str(s)
    case Bool(b) => Bool(b)
    case Num(n) => if IsInteger(n) then Num(Finite(n.r.Floor as real)) else Num(n)
    case BigInt(i) => Num(Finite(i as real))
    case Array(items) => Array(seq(|items|, i requires 0 <= i < |items| => Normalize(items[i])))
    case Object(entries) =>
      Object(seq(|entries|, i requires 0 <= i < |entries| => (entries[i].0, Normalize(entries[i].1))))
    case Other(text) => Str(text)
  }

  /** Every encoding is well formed. */
  lemma {:induction false} EncodingIsWellFormed(rt: Runtime, v: HostValue)
    ensures WellFormed(rt, ToAnyValue(rt, v))
    decreases v
  {
    match v
    case Bytes(_, data) => BytesTextRoundTrip(rt, data);
    case Array(items) =>
      forall i | 0 <= i < |items| ensures WellFormed(rt, ToAnyValue(rt, items[i])) {
        EncodingIsWellFormed(rt, items[i]);
      }
    case Object(entries) =>
      forall i | 0 <= i < |entries| ensures WellFormed(rt, ToAnyValue(rt, entries[i].1)) {
        EncodingIsWellFormed(rt, entries[i].1);
      }
    case _ =>
  }

  /** Decoding an encoding gives the normalized host value: the encoder loses
      nothing beyond what `Normalize` forgets. */
  lemma {:induction false} DecodeEncodeValue(rt: Runtime, v: HostValue)
    ensures FromAnyValue(rt, ToAnyValue(rt, v)) == Normalize(v)
    decreases v
  {
    match v
    case Bytes(_, data) => BytesTextRoundTrip(rt, data);
    case Array(items) =>
      forall i | 0 <= i < |items| ensures FromAnyValue(rt, ToAnyValue(rt, items[i])) == Normalize(items[i]) {
        DecodeEncodeValue(rt, items[i]);
      }
    case Object(entries) =>
      forall i | 0 <= i < |entries|
        ensures FromAnyValue(rt, ToAnyValue(rt, entries[i].1)) == Normalize(entries[i].1)
      {
        DecodeEncodeValue(rt, entries[i].1);
      }
    case _ =>
  }

  /** Encoding the decoding of a well-formed `AnyValue` gives it back: every
      wire value has exactly one host preimage up to `Normalize`. */
  lemma {:induction false} EncodeDecodeValue(rt: Runtime, a: AnyValue)
    requires WellFormed(rt, a)
    ensures ToAnyValue(rt, FromAnyValue(rt, a)) == a
    decreases a
  {
    match a
    case IntValue(i) =>
      assert (i as real).Floor == i;
    case BytesValue(text) =>
      var data := BytesFromText(rt, text).value;
      if HasEncoder(rt) {
        Base64.EncodeDecode(text, data);
      } else {
        assert BytesToBase64(rt, data) == text;
      }
    case ArrayValue(values) =>
      forall i | 0 <= i < |values| ensures ToAnyValue(rt, FromAnyValue(rt, values[i])) == values[i] {
        EncodeDecodeValue(rt, values[i]);
      }
    case KvlistValue(kvs) =>
      forall i | 0 <= i < |kvs| ensures ToAnyValue(rt, FromAnyValue(rt, kvs[i].value)) == kvs[i].value {
        EncodeDecodeValue(rt, kvs[i].value);
      }
    case _ =>
  }

  /** A collector's reading of an attribute list. */
  function FromKeyValues(rt: Runtime, kvs: seq<KeyValue>): seq<(string, HostValue)> {
    seq(|kvs|, i requires 0 <= i < |kvs| => (kvs[i].key, FromAnyValue(rt, kvs[i].value)))
  }

  /** Every value of an attribute list normalized, keys kept. */
  function NormalizeEntries(entries: seq<(string, HostValue)>): seq<(string, HostValue)> {
    seq(|entries|, i requires 0 <= i < |entries| => (entries[i].0, Normalize(entries[i].1)))
  }

  /** An attribute list comes back from its encoding with every key in place
      and every value normalized. */
  lemma KeyValuesRoundTrip(rt: Runtime, attributes: seq<(string, HostValue)>)
    ensures FromKeyValues(rt, ToKeyValue(rt, Some(attributes))) == NormalizeEntries(attributes)
  {
    forall i | 0 <= i < |attributes|
      ensures FromAnyValue(rt, ToAnyValue(rt, attributes[i].1)) == Normalize(attributes[i].1)
    {
      DecodeEncodeValue(rt, attributes[i].1);
    }
  }

  // ---------------------------------------------------------------------
  // The encoder as written: an invalid date throws.

  /** The `RangeError` that `Date.prototype.toISOString` throws. */
  datatype EncodeError = InvalidTimeValue

  /** True when an invalid date occurs anywhere inside `v`. */
  predicate HasInvalidDate(v: HostValue)
    decreases v
  {
    match v
    case Date(iso) => iso.None?
    case Array(items) => exists i :: 0 <= i < |items| && HasInvalidDate(items[i])
    case Object(entries) => exists i :: 0 <= i < |entries| && HasInvalidDate(entries[i].1)
    case _ => false
  }

  /** `toAnyValue` as the source writes it: `value.toISOString()` on an invalid
      date throws, and the throw escapes through every enclosing array and
      object. */
  function ToAnyValueAsWritten(rt: Runtime, v: HostValue): (r: Result<AnyValue, EncodeError>)
    decreases v, 1
  {
    match v
    case Date(None) => Err(InvalidTimeValue)
    case Date(Some(iso)) => Ok(StringValue(iso))
    case Array(items) =>
      var vs :- ItemsAsWritten(rt, v, items);
      Ok(ArrayValue(vs))
    case Object(entries) =>
      var kvs :- EntriesAsWritten(rt, v, entries);
      Ok(KvlistValue(kvs))
    case _ => Ok(ToAnyValue(rt, v))
  }

  /** `value.map(toAnyValue)` over the items of the array `parent`. */
  function ItemsAsWritten(rt: Runtime, parent: HostValue, items: seq<HostValue>): Result<seq<AnyValue>, EncodeError>
    requires forall i :: 0 <= i < |items| ==> items[i] < parent
    decreases parent, 0, |items|
  {
    if |items| == 0 then Ok([])
    else
      var head :- ToAnyValueAsWritten(rt, items[0]);
      var tail :- ItemsAsWritten(rt, parent, items[1..]);
      Ok([head] + tail)
  }

  /** The `for ... of Object.entries(value)` loop over the object `parent`. */
  function EntriesAsWritten(rt: Runtime, parent: HostValue, entries: seq<(string, HostValue)>)
    : Result<seq<KeyValue>, EncodeError>
    requires forall i :: 0 <= i < |entries| ==> entries[i].1 < parent
    decreases parent, 0, |entries|
  {
    if |entries| == 0 then Ok([])
    else
      var head :- ToAnyValueAsWritten(rt, entries[0].1);
      var tail :- EntriesAsWritten(rt, parent, entries[1..]);
      Ok([KeyValue(entries[0].0, head)] + tail)
  }

  /** The encoder as written throws exactly when an invalid date is inside the
      value, and otherwise agrees with the corrected encoder. */
  lemma {:induction false} AsWrittenAgrees(rt: Runtime, v: HostValue)
    ensures ToAnyValueAsWritten(rt, v).Err? <==> HasInvalidDate(v)
    ensures !HasInvalidDate(v) ==> ToAnyValueAsWritten(rt, v) == Ok(ToAnyValue(rt, v))
    decreases v, 1
  {
    match v
    case Array(items) =>
      ItemsAgree(rt, v, items);
      if !HasInvalidDate(v) {
        assert ItemsAsWritten(rt, v, items).value == ToAnyValue(rt, v).values;
      }
    case Object(entries) =>
      EntriesAgree(rt, v, entries);
      if !HasInvalidDate(v) {
        assert EntriesAsWritten(rt, v, entries).value == ToAnyValue(rt, v).kvs;
      }
    case _ =>
  }

  lemma {:induction false} ItemsAgree(rt: Runtime, parent: HostValue, items: seq<HostValue>)
    requires forall i :: 0 <= i < |items| ==> items[i] < parent
    ensures ItemsAsWritten(rt, parent, items).Err? <==> exists i :: 0 <= i < |items| && HasInvalidDate(items[i])
    ensures ItemsAsWritten(rt, parent, items).Ok? ==>
      ItemsAsWritten(rt, parent, items).value == seq(|items|, i requires 0 <= i < |items| => ToAnyValue(rt, items[i]))
    decreases parent, 0, |items|
  {
    if |items| > 0 {
      AsWrittenAgrees(rt, items[0]);
      ItemsAgree(rt, parent, items[1..]);
      if ItemsAsWritten(rt, parent, items[1..]).Err? {
        var j :| 0 <= j < |items[1..]| && HasInvalidDate(items[1..][j]);
        assert HasInvalidDate(items[j + 1]);
      }
      if exists i :: 0 <= i < |items| && HasInvalidDate(items[i]) {
        var i :| 0 <= i < |items| && HasInvalidDate(items[i]);
        if i > 0 {
          assert HasInvalidDate(items[1..][i - 1]);
        }
      }
    }
  }

  lemma {:induction false} EntriesAgree(rt: Runtime, parent: HostValue, entries: seq<(string, HostValue)>)
    requires forall i :: 0 <= i < |entries| ==> entries[i].1 < parent
    ensures EntriesAsWritten(rt, parent, entries).Err? <==>
      exists i :: 0 <= i < |entries| && HasInvalidDate(entries[i].1)
    ensures EntriesAsWritten(rt, parent, entries).Ok? ==>
      EntriesAsWritten(rt, parent, entries).value ==
        seq(|entries|, i requires 0 <= i < |entries| => KeyValue(entries[i].0, ToAnyValue(rt, entries[i].1)))
    decreases parent, 0, |entries|
  {
    if |entries| > 0 {
      AsWrittenAgrees(rt, entries[0].1);
      EntriesAgree(rt, parent, entries[1..]);
      if EntriesAsWritten(rt, parent, entries[1..]).Err? {
        var j :| 0 <= j < |entries[1..]| && HasInvalidDate(entries[1..][j].1);
        assert HasInvalidDate(entries[j + 1].1);
      }
      if exists i :: 0 <= i < |entries| && HasInvalidDate(entries[i].1) {
        var i :| 0 <= i < |entries| && HasInvalidDate(entries[i].1);
        if i > 0 {
          assert HasInvalidDate(entries[1..][i - 1].1);
        }
      }
    }
  }

  /** True when an invalid date occurs inside one of the attribute values. */
  predicate AttributesHaveInvalidDate(attributes: Option<seq<(string, HostValue)>>) {
    attributes.Some? && exists i :: 0 <= i < |attributes.value| && HasInvalidDate(attributes.value[i].1)
  }

  /** One `{ key, value: toAnyValue(value) }` of `toKeyValue`, as written. */
  function KeyValueAsWritten(rt: Runtime, entry: (string, HostValue)): (r: Result<KeyValue, EncodeError>)
    ensures r.Err? <==> HasInvalidDate(entry.1)
    ensures r.Ok? ==> r.value == KeyValue(entry.0, ToAnyValue(rt, entry.1))
  {
    AsWrittenAgrees(rt, entry.1);
    var value :- ToAnyValueAsWritten(rt, entry.1);
    Ok(KeyValue(entry.0, value))
  }

  /** `toKeyValue` as written: it throws exactly when an attribute value holds
      an invalid date, and otherwise agrees with the corrected `ToKeyValue`. */
  function ToKeyValueAsWritten(rt: Runtime, attributes: Option<seq<(string, HostValue)>>): (r: Result<seq<KeyValue>, EncodeError>)
    ensures r.Err? <==> AttributesHaveInvalidDate(attributes)
    ensures r.Ok? ==> r.value == ToKeyValue(rt, attributes)
  {
    match attributes
    case None => Ok([])
    case Some(entries) =>
      var f := (e: (string, HostValue)) => KeyValueAsWritten(rt, e);
      var g := (e: (string, HostValue)) => KeyValue(e.0, ToAnyValue(rt, e.1));
      Seqs.MapAllAgrees(f, g, entries);
      assert Seqs.Map(g, entries) == ToKeyValue(rt, attributes);
      Seqs.MapAll(f, entries)
  }

  /** The input that shows the encoder as written is not total: a list
      holding one invalid date. */
  lemma InvalidDateThrows(rt: Runtime)
    ensures ToAnyValueAsWritten(rt, Array([Str("ok"), Date(None)])) == Err(InvalidTimeValue)
    ensures ToAnyValue(rt, Array([Str("ok"), Date(None)]))
      == ArrayValue([StringValue("ok"), StringValue(InvalidDateText)])
  {
    var v := Array([Str("ok"), Date(None)]);
    AsWrittenAgrees(rt, v);
    assert HasInvalidDate(v.items[1]);
    var vs := ToAnyValue(rt, v).values;
    assert vs[0] == StringValue("ok");
    assert vs[1] == StringValue(InvalidDateText);
  }
}
