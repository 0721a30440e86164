/**
 * The decoded JSON tree the router reads its inbound payloads from (Jackson's
 * `JsonNode`), and the router's `text` helper over it. Decoding itself is not modelled:
 * a payload arrives already as a `Json` value.
 */
module JsonNodes {
  import opened Options
  import opened LinkedMaps

  /** A JSON value; an object keeps its fields in document order. */
  datatype Json =
    | JNull
    | JBool(b: bool)
    | JNumber(lexeme: string)
    | JString(s: string)
    | JArray(items: seq<Json>)
    | JObject(fields: LinkedMap<Json>)

  /** `JsonNode.asText`: scalars as text, containers as the empty string. */
  function AsText(j: Json): string {
    match j
    case JNull => "null"
    case JBool(b) => if b then "true" else "false"
    case JNumber(lexeme) => lexeme
    case JString(s) => s
    case JArray(_) => ""
    case JObject(_) => ""
  }

  /** `payload.get(field)`: only an object has fields; a missing payload has none. */
  function Field(payload: Option<Json>, field: string): (r: Option<Json>)
    ensures r.Some? ==> payload.Some? && payload.value.JObject? && (field, r.value) in payload.value.fields
  {
    if payload.Some? && payload.value.JObject? then Get(payload.value.fields, field) else None
  }

  /** The router's `text(payload, field)`: the field as text, or null when the payload
      or the field is missing or the field is JSON `null`. */
  function TextField(payload: Option<Json>, field: string): Option<string> {
    match Field(payload, field)
    case None => None
    case Some(JNull) => None
    case Some(node) => Some(AsText(node))
  }

  /** `text` finds a string field of an object, and finds nothing in a missing payload,
      a payload that is not an object, or a field that is absent or `null`. */
  lemma TextCases(payload: Option<Json>, field: string)
    ensures TextField(payload, field).Some? <==>
      payload.Some? && payload.value.JObject? && Get(payload.value.fields, field).Some?
      && Get(payload.value.fields, field) != Some(JNull)
    ensures forall s :: Field(payload, field) == Some(JString(s)) ==> TextField(payload, field) == Some(s)
  {
  }

  /** `payload != null && payload.path("muted").asBoolean(false)`, for boolean fields. */
  function MutedFlag(payload: Option<Json>): (muted: bool)
    ensures muted <==> Field(payload, "muted") == Some(JBool(true))
  {
    match Field(payload, "muted")
    case Some(JBool(b)) => b
    case _ => false
  }
}
