/**
  The part of `serde_json::Value` the service inspects: the six JSON shapes,
  serde_json's three number representations, and the accessors
  `get`, `as_str`, `as_i64`, `as_array` and a number's `to_string`.
 */
module Json {
  import opened Wrappers
  import opened Decimal

  /** serde_json keeps negative integers as i64; a NegInt is always below zero. */
  type NegI64 = x: int | I64_MIN <= x < 0 witness -1

  /** The text serde_json writes for a finite f64; its exact digits are not modelled. */
  type FloatText = s: string | |s| > 0 witness "0.0"

  datatype Number = PosInt(u: u64) | NegInt(i: NegI64) | Float(text: FloatText)

  datatype Value =
    | Null
    | Bool(b: bool)
    | Num(n: Number)
    | Str(s: string)
    | Array(elems: seq<Value>)
    | Object(fields: map<string, Value>)

  /** `Value::get(key)`: the member of an object, and None for any other shape. */
  function Get(v: Value, key: string): (r: Option<Value>)
    ensures r.Some? <==> v.Object? && key in v.fields
    ensures r.Some? ==> r.value == v.fields[key]
  {
    match v
    case Object(m) => if key in m then Some(m[key]) else None
    case _ => None
  }

  /** `Number::as_i64`: Some for every integer that fits in i64, None for floats and for u64 above i64::MAX. */
  function AsI64(n: Number): (r: Option<int>)
    ensures r.Some? <==> !n.Float? && (n.PosInt? ==> n.u <= I64_MAX)
    ensures r.Some? ==> I64_MIN <= r.value <= I64_MAX
    ensures r.Some? ==> r.value == if n.PosInt? then n.u else n.i
  {
    match n
    case PosInt(u) => if u <= I64_MAX then Some(u) else None
    case NegInt(i) => Some(i)
    case Float(_) => None
  }

  /** `Number::to_string`: decimal for integers (a '-' before negatives), the float text otherwise. */
  function NumberText(n: Number): (s: string)
    ensures |s| > 0
    ensures n.PosInt? ==> AllDigits(s) && DigitsValue(s) == n.u && (n.u > 0 ==> s[0] != '0')
    ensures n.NegInt? ==> |s| > 1 && s[0] == '-' && AllDigits(s[1..]) && DigitsValue(s[1..]) == -(n.i as int) && s[1] != '0'
    ensures n.Float? ==> s == n.text
  {
    match n
    case PosInt(u) => DecimalTextValue(u); DecimalText(u)
    case NegInt(i) =>
      DecimalTextValue(-(i as int));
      assert ("-" + DecimalText(-(i as int)))[1..] == DecimalText(-(i as int));
      "-" + DecimalText(-(i as int))
    case Float(t) => t
  }

  /** The text of an integer reads back through `u64::from_str`: the whole text for a PosInt, the part after '-' for a NegInt. */
  lemma NumberTextParses(n: Number)
    ensures n.PosInt? ==> ParseU64(NumberText(n)) == Some(n.u)
    ensures n.NegInt? ==> NumberText(n)[0] == '-' && ParseU64(NumberText(n)[1..]) == Some(-(n.i as int))
  {
    match n
    case PosInt(u) =>
      var d := NumberText(n);
      assert |d| > 0 && AllDigits(d) && DigitsValue(d) <= U64_MAX;
    case NegInt(i) =>
      var d := NumberText(n)[1..];
      assert |d| > 0 && AllDigits(d) && DigitsValue(d) <= U64_MAX;
    case Float(_) =>
  }
}
