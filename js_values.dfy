/**
 * The JavaScript values that reach the route handlers in request bodies,
 * with the two coercions the handlers apply to them: truthiness
 * (`if (!x)`, `x || y`) and `Number(x)` followed by `Number.isInteger`.
 */
module JsValues {
  import opened Optionals
  import Radix

  /** A JavaScript number as the handlers inspect it: an integer, a finite
      fraction or an infinity (`NonIntegral`), or `NaN`. */
  datatype Num = Int(i: int) | NonIntegral | NaN

  /** A JSON value in a request body, or `undefined` when the key is absent. */
  datatype Value = Undefined | Null | Bool(b: bool) | Number(n: Num) | Str(s: string)

  /** JavaScript truthiness: `undefined`, `null`, `false`, `0`, `NaN` and `""` are falsy. */
  predicate Truthy(v: Value)
  {
    match v
    case Undefined => false
    case Null => false
    case Bool(b) => b
    case Number(n) => (n.Int? && n.i != 0) || n.NonIntegral?
    case Str(s) => s != ""
  }

  /** `Number(s)` on a string: empty is 0, an optionally signed run of
      decimal digits is that integer, anything else is `NaN`. */
  function StringToNumber(s: string): Num
  {
    if s == "" then Int(0)
    else if s[0] == '-' || s[0] == '+' then
      match Radix.Parse(s[1..], 10)
      case Some(v) => Int(if s[0] == '-' then -(v as int) else v)
      case None => NaN
    else
      match Radix.Parse(s, 10)
      case Some(v) => Int(v)
      case None => NaN
  }

  /** `Number(v)`. */
  function ToNumber(v: Value): Num
  {
    match v
    case Undefined => NaN
    case Null => Int(0)
    case Bool(b) => Int(if b then 1 else 0)
    case Number(n) => n
    case Str(s) => StringToNumber(s)
  }

  /** `Number.isInteger(Number(v)) ? Number(v) : <rejected>`. */
  function IntegerOf(v: Value): (r: Option<int>)
    ensures r.Some? <==> ToNumber(v).Int?
    ensures r.Some? ==> ToNumber(v) == Int(r.value)
  {
    match ToNumber(v)
    case Int(i) => Some(i)
    case _ => None
  }

  /** An id written in decimal, as a form or a URL carries it, reads back as that id. */
  lemma DecimalIdRoundTrip(n: nat)
    ensures IntegerOf(Str(Radix.ToString(n, 10))) == Some(n)
  {
    var s := Radix.ToString(n, 10);
    Radix.ParseToString(n, 10);
    assert s != "" && s[0] != '-' && s[0] != '+';
    assert StringToNumber(s) == Int(n);
  }

  /** A text field of a JSON body: absent (`undefined`), `null`, or a string. */
  datatype Field = Omitted | SetNull | Given(s: string)

  /** Truthiness of a text field. */
  predicate FieldTruthy(f: Field)
  {
    f.Given? && f.s != ""
  }

  /** What a nullable text column receives from `Model.create` for a field:
      an absent or null field stores `null`. */
  function CreateValue(f: Field): Option<string>
  {
    if f.Given? then Some(f.s) else None
  }

  /** What a nullable text column holds after `instance.update` with this field:
      an absent key leaves the column alone, `null` clears it, a string replaces it. */
  function UpdateValue(f: Field, current: Option<string>): Option<string>
  {
    match f
    case Omitted => current
    case SetNull => None
    case Given(s) => Some(s)
  }

  /** Creating a row stores what updating an all-null row with the same
      field would. */
  lemma CreateIsUpdateOfNull(f: Field)
    ensures CreateValue(f) == UpdateValue(f, None)
  {
  }
}
