/**
 * The JavaScript values that flow through the ingestion pipeline.
 *
 * Rows read from a delimited file hold text only; numeric coercion turns
 * some fields into JavaScript numbers; the aggregator adds and divides
 * them. A row is a map from field name to value, and a field that is not
 * in the map plays the part of `undefined`.
 */
module JsValues {

  datatype Option<+T> = None | Some(value: T)

  /** A field value: text, or one of the JavaScript numbers (finite, NaN, +/-Infinity). */
  datatype Value = Str(s: string) | Num(x: real) | NaN | Inf(negative: bool)

  type Row = map<string, Value>

  /** `typeof v === 'number'` */
  /** `typeof v === 'number'`: a finite number, NaN or an infinity, but not a string. */
  predicate IsNumber(v: Value)
    ensures IsNumber(v) <==> v.Num? || v.NaN? || v.Inf?
  {
    !v.Str?
  }

  type Number = v: Value | IsNumber(v) witness NaN

  /** How the host prints a finite number as text (`Number.prototype.toString`). */
  type NumberFormat = real -> string

  /** `r[k]`, with None for `undefined`. */
  function Get(r: Row, k: string): Option<Value> {
    if k in r then Some(r[k]) else None
  }

  /** JavaScript truthiness: `''`, `0` and `NaN` are falsy. */
  predicate Truthy(v: Value)
    ensures Truthy(v) <==> v != Str("") && v != Num(0.0) && v != NaN
  {
    match v
    case Str(s) => s != ""
    case Num(x) => x != 0.0
    case NaN => false
    case Inf(_) => true
  }

  /** `v || 0` for a value that may be `undefined`. */
  function OrZero(v: Option<Value>): (r: Value)
    ensures v.Some? && Truthy(v.value) ==> r == v.value
    ensures v.None? || !Truthy(v.value) ==> r == Num(0.0)
    ensures r != NaN && r != Str("")
  {
    if v.Some? && Truthy(v.value) then v.value else Num(0.0)
  }

  /** String conversion of a value, as in a template literal or a string `+`. */
  function Text(v: Option<Value>, fmt: NumberFormat): (t: string)
    ensures v.None? ==> t == "undefined"
    ensures v.Some? && v.value.Str? ==> t == v.value.s
    ensures v.Some? && v.value.Num? ==> t == fmt(v.value.x)
  {
    match v
    case None => "undefined"
    case Some(Str(s)) => s
    case Some(Num(x)) => fmt(x)
    case Some(NaN) => "NaN"
    case Some(Inf(neg)) => if neg then "-Infinity" else "Infinity"
  }

  /** Addition of two JavaScript numbers. */
  function NumAdd(a: Value, b: Value): (r: Value)
    requires IsNumber(a) && IsNumber(b)
    ensures IsNumber(r)
    ensures a.Num? && b.Num? ==> r == Num(a.x + b.x)
    ensures r.NaN? <==> a.NaN? || b.NaN? || (a.Inf? && b.Inf? && a.negative != b.negative)
  {
    match (a, b)
    case (NaN, _) => NaN
    case (_, NaN) => NaN
    case (Inf(p), Inf(q)) => if p == q then Inf(p) else NaN
    case (Inf(p), _) => Inf(p)
    case (_, Inf(q)) => Inf(q)
    case (Num(x), Num(y)) => Num(x + y)
  }

  /**
   * JavaScript `a + b` where `a` may be `undefined`: string concatenation
   * as soon as one side is text, numeric addition otherwise, and
   * `undefined + n` is NaN.
   */
  function Add(a: Option<Value>, b: Value, fmt: NumberFormat): (r: Value)
    ensures r.Str? <==> (a.Some? && a.value.Str?) || b.Str?
    ensures r.Str? ==> r.s == Text(a, fmt) + Text(Some(b), fmt)
    ensures a.None? && !b.Str? ==> r == NaN
    ensures a.Some? && a.value.Num? && b.Num? ==> r == Num(a.value.x + b.x)
  {
    if (a.Some? && a.value.Str?) || b.Str? then Str(Text(a, fmt) + Text(Some(b), fmt))
    else if a.None? then NaN
    else NumAdd(a.value, b)
  }

  /** JavaScript division of two numbers (a zero divisor is +0). */
  function Div(a: Value, c: Value): (r: Value)
    requires IsNumber(a) && IsNumber(c)
    ensures IsNumber(r)
    ensures c == Num(1.0) ==> r == a
    ensures a.Num? && c.Num? && c.x != 0.0 ==> r == Num(a.x / c.x)
  {
    match (a, c)
    case (NaN, _) => NaN
    case (_, NaN) => NaN
    case (Inf(_), Inf(_)) => NaN
    case (Inf(p), Num(y)) => if y < 0.0 then Inf(!p) else Inf(p)
    case (Num(_), Inf(_)) => Num(0.0)
    case (Num(x), Num(y)) =>
      if y != 0.0 then Num(x / y)
      else if x > 0.0 then Inf(false)
      else if x < 0.0 then Inf(true)
      else NaN
  }

  /** Adding a number to `v || 0` yields a number when `v` holds no text. */
  lemma AddOrZeroIsNumber(v: Option<Value>, b: Value, fmt: NumberFormat)
    requires IsNumber(b)
    requires v.Some? ==> IsNumber(v.value)
    ensures IsNumber(Add(Some(OrZero(v)), b, fmt))
    ensures v.Some? && v.value.Num? && b.Num? ==> Add(Some(OrZero(v)), b, fmt) == Num(v.value.x + b.x)
  {
  }
}
