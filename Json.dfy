/** An abstract JSON document and the System.Text.Json accessors the services use.
    The grammar itself is not modelled: parsing and serialising are parameters. */
module Json {
  import opened Wrappers
  import opened Faults

  datatype Json =
    | JObject(fields: map<string, Json>)
    | JArray(items: seq<Json>)
    | JString(text: string)
    | JNumber(num: real)
    | JBool(truth: bool)
    | JNull

  /** A JSON library: `parse` is None exactly when it would throw JsonException. */
  datatype JsonCodec = JsonCodec(parse: string -> Option<Json>, serialize: Json -> string)

  /** JsonElement.GetString: null for a JSON null, the text of a string, and
      InvalidOperationException for every other kind of value. */
  function GetString(e: Json): (r: Result<Option<string>, Fault>)
    ensures r.Failure? <==> !(e.JString? || e.JNull?)
    ensures r.Failure? ==> r.error == InvalidOperation
    ensures r == Success(None) <==> e == JNull
    ensures e.JString? ==> r == Success(Some(e.text))
  {
    match e
    case JString(s) => Success(Some(s))
    case JNull => Success(None)
    case _ => Failure(InvalidOperation)
  }

  /** JsonElement.TryGetProperty: the value under `key` (None when the key is
      absent), and InvalidOperationException when `e` is not an object. */
  function TryGetProperty(e: Json, key: string): (r: Result<Option<Json>, Fault>)
    ensures r.Failure? <==> !e.JObject?
    ensures r.Failure? ==> r.error == InvalidOperation
    ensures r.Success? ==> (r.value.Some? <==> key in e.fields)
    ensures r.Success? && r.value.Some? ==> r.value.value == e.fields[key]
  {
    if !e.JObject? then Failure(InvalidOperation)
    else if key in e.fields then Success(Some(e.fields[key]))
    else Success(None)
  }
}
