/** JSON values as `JSON.parse` produces them and `JSON.stringify` writes them.
    Numbers are integers here (see README, "Left out"). Object keys keep
    their order; a file's top-level record is a plain map of fields. */
module Json {
  import opened Dicts

  datatype Json =
    | JNull
    | JBool(b: bool)
    | JNum(n: int)
    | JStr(s: string)
    | JArr(items: seq<Json>)
    | JObj(keys: seq<string>, fields: map<string, Json>)
    | JFields(record: map<string, Json>)    // an object read from a file, field order not kept

  /** The content of one JSON file: an object's fields. */
  type Record = map<string, Json>

  /** An `{ [address]: number }` object as JSON. */
  function NumObject(d: Dict<int>): (j: Json)
    ensures j.JObj? && j.keys == d.keys && j.fields.Keys == d.values.Keys
    ensures forall k :: k in d.values ==> j.fields[k] == JNum(d.values[k])
  {
    JObj(d.keys, map k | k in d.values :: JNum(d.values[k]))
  }

  /** A list of strings as JSON. */
  function StrList(s: seq<string>): (j: Json)
    ensures j.JArr? && |j.items| == |s|
    ensures forall i :: 0 <= i < |s| ==> j.items[i] == JStr(s[i])
  {
    JArr(seq(|s|, i requires 0 <= i < |s| => JStr(s[i])))
  }
}
