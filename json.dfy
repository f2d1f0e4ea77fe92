/** The JSON values that `json.load` produces.  Objects are maps, so the
    order in which a file lists an object's keys is not represented: that
    is exactly the information `json.dumps(..., sort_keys=True)` discards. */
module JsonValue {

  datatype Json =
    | JNull
    | JBool(b: bool)
    | JNum(n: int)
    | JStr(s: string)
    | JArr(elems: seq<Json>)
    | JObj(fields: map<string, Json>)

  /** `d.get(key, default)` on a dict `d`: the stored value when the key is
      present (whatever that value is, `null` included), else the default. */
  function Get(fields: map<string, Json>, key: string, default: Json): Json
  {
    if key in fields then fields[key] else default
  }
}
