/** Value types shared by the components: optional values, results with an
    error message, and the JSON values that the service exchanges. */
module Values {

  /** Python's `None` or a value. */
  datatype Option<+T> = None | Some(value: T)

  /** A value or an error message. */
  datatype Result<+T> = Ok(value: T) | Err(error: string)

  /** The JSON values a response body can hold. Numbers are integers only. */
  datatype Json =
    | JNull
    | JBool(b: bool)
    | JNumber(n: int)
    | JString(s: string)
    | JArray(items: seq<Json>)
    | JObject(members: seq<(string, Json)>)

  /** The body `{"error": message}` used by every failure answer. */
  function ErrorObject(message: string): (j: Json)
    ensures j.JObject? && |j.members| == 1
    ensures j.members[0] == ("error", JString(message))
  {
    JObject([("error", JString(message))])
  }
}
