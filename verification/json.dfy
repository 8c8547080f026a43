/** JSON values as the route handlers receive them in request bodies. */
module Json {

  /** A JSON value. Numbers are reals: JSON draws no line between integers and fractions. */
  datatype Value =
    | Null
    | Bool(b: bool)
    | Num(n: real)
    | Str(s: string)
    | Arr(items: seq<Value>)
    | Obj(fields: map<string, Value>)

  /** One own property of a plain object. A sequence of entries keeps the object's key order,
      which `Object.keys` and `Object.values` both follow. */
  datatype Entry = Entry(key: string, value: Value)

  /** `Object.keys` of an object given by its entries */
  function Keys(entries: seq<Entry>): seq<string>
  {
    seq(|entries|, i requires 0 <= i < |entries| => entries[i].key)
  }

  /** `Object.values` of an object given by its entries */
  function ValuesOf(entries: seq<Entry>): seq<Value>
  {
    seq(|entries|, i requires 0 <= i < |entries| => entries[i].value)
  }
}
