/** `convertType`: a cell's raw string turned into a typed JSON-LD value
    according to the column's declared datatype. */
module Typing {
  import opened Json
  import opened Numbers
  import opened Schema

  /** The value the `switch` compares: `datatype.base || datatype` when the
      datatype is truthy. None stands for a falsy datatype, and for an object
      whose `base` is falsy (the object itself is compared, and matches no
      case). */
  function BaseType(dt: Datatype): Option<string> {
    match dt
    case NoDatatype => None
    case Named(n) => if n == "" then None else Some(n)
    case Derived(b) => if Given(b) then Some(b.value) else None
  }

  /** The type names the `switch` recognises. */
  predicate Recognised(name: string) {
    name == "integer" || name == "decimal" || name == "date"
  }

  /** `{"@value": v, "@type": ty}`. */
  function TypedLiteral(v: Json, ty: string): Json {
    Obj(map["@value" := v, "@type" := Str(ty)])
  }

  /** `convertType(value, datatype)`: an integer is parsed with `parseInt`, a
      decimal with `parseFloat`, a date is kept as it is; each is tagged with
      its `xsd:` type. Any other datatype, or none, returns the raw string. */
  function ConvertType(value: string, dt: Datatype): (r: Json)
    ensures r.Str? <==> !(BaseType(dt).Some? && Recognised(BaseType(dt).value))
    ensures r.Str? ==> r.s == value
    ensures r.Obj? ==> r.fields.Keys == {"@value", "@type"} &&
                       r.fields["@type"] == Str("xsd:" + BaseType(dt).value)
    ensures BaseType(dt) == Some("integer") ==> r.Obj? && r.fields["@value"] == Num(ParseInt(value))
    ensures BaseType(dt) == Some("decimal") ==> r.Obj? && r.fields["@value"] == Num(ParsedFloat(value))
    ensures BaseType(dt) == Some("date") ==> r.Obj? && r.fields["@value"] == Str(value)
  {
    match BaseType(dt)
    case Some("integer") =>
      assert "xsd:" + "integer" == "xsd:integer";
      TypedLiteral(Num(ParseInt(value)), "xsd:integer")
    case Some("decimal") =>
      assert "xsd:" + "decimal" == "xsd:decimal";
      TypedLiteral(Num(ParsedFloat(value)), "xsd:decimal")
    case Some("date") =>
      assert "xsd:" + "date" == "xsd:date";
      TypedLiteral(Str(value), "xsd:date")
    case _ => Str(value)
  }

  /** A datatype object `{base: t}` converts exactly as the name `t` does. */
  lemma DerivedAsNamed(value: string, t: string)
    ensures ConvertType(value, Derived(Some(t))) == ConvertType(value, Named(t))
  {
    assert BaseType(Derived(Some(t))) == BaseType(Named(t));
  }

  /** An integer cell holding the decimal spelling of `n` (possibly followed by
      non-digit text) is typed as `n`. */
  lemma IntegerCell(n: int, rest: string)
    requires rest == [] || !IsDigitIn(rest[0], 10)
    requires n == 0 ==> rest == [] || (rest[0] != 'x' && rest[0] != 'X')
    ensures ConvertType(Decimal(n) + rest, Named("integer")) == TypedLiteral(Num(Integer(n)), "xsd:integer")
  {
    ParseIntDecimal(n, rest);
  }

  /** An integer cell without a digit is not an error: NaN is embedded in the value. */
  lemma IntegerCellNaN(value: string)
    requires forall i :: 0 <= i < |value| ==> !IsDigitIn(value[i], 10)
    ensures ConvertType(value, Named("integer")) == TypedLiteral(Num(NaN), "xsd:integer")
  {
    ParseIntNoDigits(value);
  }
}
