/** JSON values as `json.load` produces them: objects become dictionaries
    whose keys are unique, so an object is a finite map from names to values. */
module Json {

  datatype Json =
    | JNull
    | JBool(b: bool)
    | JInt(i: int)
    | JFloat(f: real)
    | JString(s: string)
    | JArray(items: seq<Json>)
    | JObject(fields: map<string, Json>)
}
