/** What every cache family shares: JSON envelopes and lifetimes. */
module CacheCore {
  import opened Outcome

  const COMPLETED_RESULT_TTL_JITTER_FRACTION := 0.1

  datatype Json = Null | Text(text: string) | Number(number: real) | Flag(flag: bool) | List(items: seq<Json>)
                | Object(fields: map<string, Json>)

  type Document = map<string, Json>

  /** What the cache holds under a key: JSON text, or text that is not JSON. */
  datatype Encoded = JsonText(json: Json) | NotJson(text: string)

  function EncodeEnvelope(family: string, schemaVersion: int, payload: Json): Json {
    Object(map["family" := Text(family), "payload" := payload, "schema_version" := Number(schemaVersion as real)])
  }

  function Field(fields: Document, name: string): Json { if name in fields then fields[name] else Null }

  function DecodeEnvelope(value: Encoded, family: string, schemaVersion: int): Json {
    if value.NotJson? || !value.json.Object? then Null
    else if Field(value.json.fields, "family") != Text(family) then Null
    else if Field(value.json.fields, "schema_version") != Number(schemaVersion as real) then Null
    else Field(value.json.fields, "payload")
  }

  /** An envelope gives its payload back to a reader of its family and version, and nothing to any other. */
  lemma EnvelopeRoundTrip(family: string, schemaVersion: int, payload: Json, reader: string, readVersion: int)
    ensures DecodeEnvelope(JsonText(EncodeEnvelope(family, schemaVersion, payload)), reader, readVersion)
         == if reader == family && readVersion == schemaVersion then payload else Null
  {
    assert |"family"| == 6 && |"payload"| == 7 && |"schema_version"| == 14;
  }

  /** The largest reduction of a lifetime: the whole seconds in this fraction of it. */
  function MaxReduction(ttl: int, fraction: real): int { (ttl as real * fraction).Floor }

  /** A lifetime less a reduction that stays within the jitter fraction. */
  function JitteredTtl(ttl: int, fraction: real, reduction: int): (r: Result<int>)
    ensures r.Ok? <==> ttl > 0 && 0.0 <= fraction < 1.0 && 0 <= reduction <= MaxReduction(ttl, fraction)
    ensures r.Ok? ==> 0 < r.value <= ttl && r.value as real >= ttl as real * (1.0 - fraction)
  {
    if ttl <= 0 then Err("cache TTL must be positive")
    else if !(0.0 <= fraction < 1.0) then Err("TTL jitter fraction must be at least 0 and less than 1")
    else if !(0 <= reduction <= MaxReduction(ttl, fraction)) then
      Err("TTL jitter reduction is outside the permitted range")
    else
      FractionIsLess(ttl as real, fraction);
      Ok(ttl - reduction)
  }

  lemma FractionIsLess(x: real, fraction: real)
    requires x > 0.0 && 0.0 <= fraction < 1.0
    ensures 0.0 <= x * fraction < x && x * (1.0 - fraction) == x - x * fraction
  {
  }
}
