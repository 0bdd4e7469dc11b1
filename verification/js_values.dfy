/** The JavaScript values the dispatcher handles. Everything an event carries
    arrived as JSON, so raw inputs are `Json`; what the coercer and the
    handlers produce may also be `undefined` or a `Date`, so results are
    `Value`. Numbers are mathematical integers. */
module JsValues {
  import opened Optional
  import opened JsStrings

  /** A value as JSON delivers it. */
  datatype Json =
    | JNull
    | JBool(b: bool)
    | JNum(n: int)
    | JStr(s: string)
    | JArr(items: seq<Json>)
    | JObj(fields: map<string, Json>)

  /** A JavaScript value; `Date(time)` is a valid date, `time` being
      milliseconds since the epoch. */
  datatype Value =
    | Undefined
    | Null
    | Bool(b: bool)
    | Num(n: int)
    | Str(s: string)
    | Arr(items: seq<Value>)
    | Obj(fields: map<string, Value>)
    | Date(time: int)

  /** A JSON value seen as a JavaScript value. */
  function Embed(j: Json): (v: Value)
    ensures !v.Undefined? && !v.Date?
  {
    match j
    case JNull => Null
    case JBool(b) => Bool(b)
    case JNum(n) => Num(n)
    case JStr(s) => Str(s)
    case JArr(items) => Arr(seq(|items|, i requires 0 <= i < |items| => Embed(items[i])))
    case JObj(fields) => Obj(map k | k in fields :: Embed(fields[k]))
  }

  /** JavaScript truthiness of a JSON value (ToBoolean, section 7.1.2 of ECMA-262). */
  predicate JsonTruthy(j: Json) {
    match j
    case JNull => false
    case JBool(b) => b
    case JNum(n) => n != 0
    case JStr(s) => s != ""
    case _ => true
  }

  /** JavaScript truthiness of a value. */
  predicate Truthy(v: Value) {
    match v
    case Undefined => false
    case Null => false
    case Bool(b) => b
    case Num(n) => n != 0
    case Str(s) => s != ""
    case _ => true
  }

  /** `typeof v === "object"`: `null`, arrays, plain objects and dates. */
  predicate IsObject(v: Value) {
    v.Null? || v.Arr? || v.Obj? || v.Date?
  }

  /** `String(j)`, `None` standing for the TypeError thrown when an object
      carries an own `toString` member: JSON cannot make it callable, and
      the inherited `valueOf` yields no primitive either. Arrays join their
      elements with `,`, rendering `null` elements as the empty string. */
  function ToString(j: Json): (r: Option<string>)
    ensures j.JStr? ==> r == Some(j.s)
    ensures j.JNum? ==> r == Some(IntToString(j.n))
    ensures j.JNull? ==> r == Some("null")
    ensures j.JBool? ==> r == Some(if j.b then "true" else "false")
    ensures j.JObj? ==> (r.None? <==> "toString" in j.fields)
    decreases j
  {
    match j
    case JNull => Some("null")
    case JBool(b) => Some(if b then "true" else "false")
    case JNum(n) => Some(IntToString(n))
    case JStr(s) => Some(s)
    case JObj(fields) => if "toString" in fields then None else Some("[object Object]")
    case JArr(items) =>
      var pieces := seq(|items|, i requires 0 <= i < |items| =>
        if items[i].JNull? then Some("") else ToString(items[i]));
      if forall i | 0 <= i < |pieces| :: pieces[i].Some?
      then Some(Join(seq(|pieces|, i requires 0 <= i < |pieces| => pieces[i].GetOr("")), ','))
      else None
  }

  /** `parseInt(j)`: the string conversion of `j` read as an integer;
      `None` is `NaN`, or the TypeError of the conversion. */
  function ParseIntOf(j: Json): Option<int> {
    match ToString(j)
    case None => None
    case Some(s) => ParseInt(s)
  }

  /** A JSON number reads back as itself through `parseInt`. */
  lemma ParseIntOfNumber(n: int)
    ensures ParseIntOf(JNum(n)) == Some(n)
  {
    ParseIntToString(n);
  }

  /** The largest time value a `Date` can hold (section 21.4.1.31 of ECMA-262, TimeClip). */
  const MaxTime: int := 8_640_000_000_000_000

  /** The time value of `new Date(j)`, `None` for an invalid date. Strings
      are parsed by `parseDate`, the host's date parser; numbers are taken
      as time values, booleans and `null` convert to 0 or 1; arrays and
      objects convert to their string form first. A TypeError during that
      conversion is also `None`. */
  function DateTime(j: Json, parseDate: string -> Option<int>): (r: Option<int>)
    ensures j.JStr? ==> r == parseDate(j.s)
    ensures j.JNum? ==> (r.Some? <==> -MaxTime <= j.n <= MaxTime)
  {
    match j
    case JNum(n) => if -MaxTime <= n <= MaxTime then Some(n) else None
    case JBool(b) => Some(if b then 1 else 0)
    case JNull => Some(0)
    case JStr(s) => parseDate(s)
    case _ =>
      match ToString(j)
      case None => None
      case Some(s) => parseDate(s)
  }
}
