/** The part of `serde_json::Value` the tool reads and builds: a JSON value
    tree, with the accessors `as_array`, `as_object`, `get`, `as_str` and
    `as_u64`. Parsing JSON text is not modelled: values start as trees. */
module JsonValue {
  import opened Wrappers

  /** The largest `u64`. */
  const U64_MAX: nat := 0xFFFF_FFFF_FFFF_FFFF

  type u64 = n: int | 0 <= n <= U64_MAX

  /** A JSON number: an integer (serde_json's `PosInt`/`NegInt`) or a
      floating-point number (its `Float`, including integers written with a
      fraction or an exponent). */
  datatype Number = Int(i: int) | Float(f: real)

  /** A JSON value; an object maps each key to one value. */
  datatype Json =
    | Null
    | Bool(b: bool)
    | Num(n: Number)
    | Str(s: string)
    | Array(items: seq<Json>)
    | Object(fields: map<string, Json>)

  /** `Value::as_array`: the items of an array, and nothing otherwise. */
  function AsArray(j: Json): (r: Option<seq<Json>>)
    ensures r.Some? <==> j.Array?
    ensures r.Some? ==> r.value == j.items
  {
    if j.Array? then Some(j.items) else None
  }

  /** `Value::as_object`: the fields of an object, and nothing otherwise. */
  function AsObject(j: Json): (r: Option<map<string, Json>>)
    ensures r.Some? <==> j.Object?
    ensures r.Some? ==> r.value == j.fields
  {
    if j.Object? then Some(j.fields) else None
  }

  /** `Map::get`: the value of a field, and nothing when it is absent. */
  function Get(fields: map<string, Json>, key: string): (r: Option<Json>)
    ensures r.Some? <==> key in fields
    ensures r.Some? ==> r.value == fields[key]
  {
    if key in fields then Some(fields[key]) else None
  }

  /** `Value::as_str`: the text of a string, and nothing otherwise. */
  function AsStr(j: Json): (r: Option<string>)
    ensures r.Some? <==> j.Str?
    ensures r.Some? ==> r.value == j.s
  {
    if j.Str? then Some(j.s) else None
  }

  /** `Value::as_u64`: an integer in `0 ..= u64::MAX`; a float or a negative
      integer gives nothing. */
  function AsU64(j: Json): (r: Option<u64>)
    ensures r.Some? <==> (j.Num? && j.n.Int? && 0 <= j.n.i <= U64_MAX)
    ensures r.Some? ==> r.value == j.n.i
  {
    if j.Num? && j.n.Int? && 0 <= j.n.i <= U64_MAX then Some(j.n.i) else None
  }
}
