/** JSON values as `json.loads` returns them. */
module Json {
  datatype Json =
    | Null
    | Bool(flag: bool)
    | Num(number: real)
    | Str(text: string)
    | Arr(items: seq<Json>)
    | Obj(fields: map<string, Json>)

  /** `node.get(key)`; a missing key and a stored null are both Null, as in Python. */
  function Get(node: Json, key: string): Json {
    if node.Obj? && key in node.fields then node.fields[key] else Null
  }
}
