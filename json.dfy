/** JSON values as the converter builds them, and the optional/failure wrappers
    used throughout the model. */
module Json {

  datatype Option<+T> = None | Some(value: T)

  datatype Result<+T, +E> = Success(value: T) | Failure(error: E)

  /** A JavaScript number as it can arise here: `parseInt` yields an integer or
      NaN; a `parseFloat` result is kept as the text it was applied to. */
  datatype Number = Integer(i: int) | NaN | ParsedFloat(source: string)

  /** A JSON value. `Null` and `Bool` complete the value space of the
      metadata object, whose other keys the envelope copies unchanged; the
      converter itself builds only strings, numbers, arrays and objects. */
  datatype Json =
    | Null
    | Bool(b: bool)
    | Str(s: string)
    | Num(n: Number)
    | Arr(items: seq<Json>)
    | Obj(fields: map<string, Json>)

  /** The reference object `{"@id": u}`. */
  function IdRef(u: string): Json {
    Obj(map["@id" := Str(u)])
  }

  /** JavaScript truthiness of an optional string property of a schema object:
      present and not the empty string. */
  predicate Given(o: Option<string>) {
    o.Some? && o.value != ""
  }

  /** The property name JavaScript uses for `obj[x]` when `x` is undefined. */
  const Undefined: string := "undefined"
}
