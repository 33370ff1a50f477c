/** A JSON document in the shape PHP's `json_decode($text, true)` hands it to
    the handlers: objects become associative arrays keyed by string, lists
    become arrays indexed from 0, and a document that does not parse becomes
    `null`. Floating-point numbers are not represented. */
module Json {

  datatype Value =
    | JNull
    | JBool(b: bool)
    | JInt(i: int)
    | JStr(s: string)
    | JArr(items: seq<Value>)
    | JObj(fields: map<string, Value>)
}
