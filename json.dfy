/** The part of Qt's JSON value model the generator touches: values, and the
    lenient accessors (`toObject`, `toArray`, `toString`, `value(key)`) that
    turn a missing key or a value of the wrong kind into an empty one. */
module Json {

  datatype Value =
    | Null
    | Bool(b: bool)
    | Number(n: real)
    | Str(text: string)
    | Array(items: seq<Value>)
    | Object(members: map<string, Value>)

  /** `QJsonValue::toObject()`: the members of an object, otherwise none. */
  function ToObject(v: Value): map<string, Value>
  {
    if v.Object? then v.members else map[]
  }

  /** `QJsonValue::toArray()`: the items of an array, otherwise none. */
  function ToArray(v: Value): seq<Value>
  {
    if v.Array? then v.items else []
  }

  /** `QJsonValue::toString()`: the text of a string, otherwise the empty string. */
  function ToText(v: Value): string
  {
    if v.Str? then v.text else ""
  }

  /** `object.value(key).toArray()`; a missing key reads as `Undefined`, whose array is empty. */
  function ArrayMember(obj: map<string, Value>, key: string): seq<Value>
  {
    if key in obj then ToArray(obj[key]) else []
  }

  /** `object.value(key).toString()`. */
  function TextMember(obj: map<string, Value>, key: string): string
  {
    if key in obj then ToText(obj[key]) else ""
  }
}
