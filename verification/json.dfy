/** JSON values as they arrive in request bodies and are stored in note documents.
    The note endpoints store `title` and `items` exactly as sent, so the model only
    needs to carry them around; floating-point numbers are not represented. */
module Json {

  datatype Json =
    | JNull
    | JBool(b: bool)
    | JNumber(n: int)
    | JString(s: string)
    | JArray(elems: seq<Json>)
    | JObject(fields: map<string, Json>)
}
