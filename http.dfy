/** The `HttpResponseInit` values the handlers return: a status and a JSON body. */
module Http {
  import opened Json

  datatype Response = Response(status: int, jsonBody: Json)

  /** `{ message: m }` */
  function MessageBody(m: string): Json {
    JObject(map["message" := JString(m)])
  }

  /** `{ error: e }` */
  function ErrorBody(e: string): Json {
    JObject(map["error" := JString(e)])
  }

  /** A JSON array of strings. */
  function StringArray(items: seq<string>): (j: Json)
    ensures j.JArray? && |j.items| == |items|
    ensures forall i :: 0 <= i < |items| ==> j.items[i] == JString(items[i])
  {
    JArray(seq(|items|, i requires 0 <= i < |items| => JString(items[i])))
  }
}
