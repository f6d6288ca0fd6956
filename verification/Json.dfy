/** JSON values as the SDKs see them once a library has parsed them. */
module Json {
  import opened Bytes
  import opened SseRecords
  import opened Wrappers

  datatype Value =
    | Null
    | Bool(b: bool)
    | Number(text: string)
    | String(s: string)
    | Array(items: seq<Value>)
    | Object(fields: map<string, Value>)

  /** `value.get(name)`: only an object has members. */
  function Get(v: Value, name: string): Option<Value> {
    if v.Object? && name in v.fields then Some(v.fields[name]) else None
  }

  /** `value[name]`: a missing member reads as null. */
  function Index(v: Value, name: string): Value {
    match Get(v, name)
    case Some(x) => x
    case None => Null
  }

  /**
   * The JSON and UTF-8 libraries. Nothing is assumed of them but `Faithful`: what the serializer
   * prints parses back, and (since JSON escapes control characters) has no line break in it.
   */
  datatype Codec = Codec(utf8: bytes -> bool, encode: string -> bytes,
                         parse: bytes -> Option<Value>, write: Value -> bytes)
  {
    ghost predicate Faithful() {
      forall v: Value :: NoBreaks(write(v)) && parse(write(v)) == Some(v)
    }
  }
}
