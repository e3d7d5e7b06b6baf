/**
 * The JavaScript values a handler receives from `await request.json()`, with the
 * three coercions the route applies to them: truthiness (`!v`), the template
 * literal `${v}` and `Number(v)`.
 */
module Json {
  import opened Options
  import opened Numbers

  datatype JsValue =
    | Undefined
    | Null
    | Bool(b: bool)
    | Number(n: Num)
    | Str(s: string)
    | Obj(fields: map<string, JsValue>)

  /** `!v`: undefined, null, false, 0, NaN and "" are falsy; everything else, a
      negative number or the text "0" included, is truthy. */
  function IsFalsy(v: JsValue): (r: bool)
    ensures r <==> v in {Undefined, Null, Bool(false), Number(NaN), Number(Tenths(0)), Str([])}
  {
    match v
    case Undefined => true
    case Null => true
    case Bool(b) => !b
    case Number(n) => n == NaN || n == Tenths(0)
    case Str(s) => s == []
    case Obj(_) => false
  }

  /** An object parsed from JSON with its own `toString` key: that key cannot hold a
      function, so converting the object to a primitive (`${v}` or `Number(v)`)
      throws a TypeError. */
  predicate HasOwnToString(v: JsValue) {
    v.Obj? && "toString" in v.fields
  }

  /** `v.key` on a value that is neither null nor undefined. */
  function Property(v: JsValue, key: string): JsValue {
    if v.Obj? && key in v.fields then v.fields[key] else Undefined
  }

  /** `const { date, weight } = v`: a TypeError (None) when `v` is null or undefined. */
  function DateAndWeight(v: JsValue): (r: Option<(JsValue, JsValue)>)
    ensures r.None? <==> v == Null || v == Undefined
    ensures r.Some? && v.Obj? && "date" in v.fields ==> r.value.0 == v.fields["date"]
    ensures r.Some? && v.Obj? && "weight" in v.fields ==> r.value.1 == v.fields["weight"]
    ensures r.Some? && v.Obj? && "date" !in v.fields ==> r.value.0 == Undefined
    ensures r.Some? && v.Obj? && "weight" !in v.fields ==> r.value.1 == Undefined
    ensures r.Some? && !v.Obj? ==> r.value == (Undefined, Undefined)
  {
    if v == Null || v == Undefined then None
    else Some((Property(v, "date"), Property(v, "weight")))
  }

  /** `${v}`, or None when it throws. A number's text reads back as that number. */
  function TemplateText(v: JsValue): (r: Option<string>)
    ensures r.None? <==> HasOwnToString(v)
    ensures v.Str? ==> r == Some(v.s)
    ensures v.Number? ==> r.Some? && NumberOfText(r.value) == v.n
  {
    match v
    case Undefined => Some("undefined")
    case Null => Some("null")
    case Bool(b) => Some(if b then "true" else "false")
    case Number(n) => NumberTextRoundTrip(n); Some(NumberText(n))
    case Str(s) => Some(s)
    case Obj(fields) => if "toString" in fields then None else Some("[object Object]")
  }

  /** `Number(v)`, or None when it throws. Except for null and the booleans, it is
      `Number` of the text `${v}`; null and false are 0, true is 1. */
  function ToNumber(v: JsValue): (r: Option<Num>)
    ensures r.None? <==> HasOwnToString(v)
    ensures r.Some? && !v.Null? && !v.Bool? ==> r.value == NumberOfText(TemplateText(v).value)
    ensures v == Null || v == Bool(false) ==> r == Some(Tenths(0))
    ensures v == Bool(true) ==> r == Some(Tenths(10))
  {
    match v
    case Undefined => NotNumeral("undefined"); Some(NaN)
    case Null => Some(Tenths(0))
    case Bool(b) => Some(if b then Tenths(10) else Tenths(0))
    case Number(n) => Some(n)
    case Str(s) => Some(NumberOfText(s))
    case Obj(fields) => if "toString" in fields then None else NotNumeral("[object Object]"); Some(NaN)
  }

  /** What a number becomes after `JSON.stringify` and a parse on the other side:
      NaN is written as `null`. */
  function FromNumber(n: Num): (v: JsValue)
    ensures n == NaN ==> v == Null
    ensures n != NaN ==> ToNumber(v) == Some(n) && !IsFalsy(v) == (n != Tenths(0))
  {
    if n == NaN then Null else Number(n)
  }
}
