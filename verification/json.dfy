/** The values `JSON.parse` can produce. Numbers are kept as integers: no
    schema in this model accepts a number, so their precision never matters.
    An object is a map because `JSON.parse` keeps the last of repeated keys. */
module Json {

  datatype Json =
    | JNull
    | JBool(b: bool)
    | JNumber(n: int)
    | JString(str: string)
    | JArray(items: seq<Json>)
    | JObject(fields: map<string, Json>)
}
