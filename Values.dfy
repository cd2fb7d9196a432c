/** The untyped JavaScript values the extractor walks, and the few language rules it
    depends on: truthiness, property access, strict and loose equality with a string,
    and the numeric conversions of `>=`/`<=` and `parseFloat`. */
module Values {
  import opened Common
  import opened Text

  /** A JSON-like JavaScript value. `Undefined` is what reading a missing property gives.
      Numbers are exact reals: IEEE rounding and NaN are not part of the model. */
  datatype Json =
    | Null
    | Undefined
    | Num(n: real)
    | Str(s: string)
    | Bool(b: bool)
    | Obj(fields: map<string, Json>)
    | Arr(items: seq<Json>)

  /** An assessment record: one object of the in-memory assessment list. */
  type Record = r: Json | r.Obj? witness Obj(map[])

  /** JavaScript truthiness: `null`, `undefined`, `0`, `""` and `false` are falsy. */
  predicate Truthy(v: Json)
  {
    match v
    case Null => false
    case Undefined => false
    case Num(n) => n != 0.0
    case Str(s) => s != ""
    case Bool(b) => b
    case Obj(_) => true
    case Arr(_) => true
  }

  /** `v[key]`: own keys of an object; `length` and index keys of arrays and strings;
      `undefined` for every other key; a TypeError on `null` and `undefined`. */
  function Get(v: Json, key: string): (r: Completion<Json>)
    ensures r.Throw? <==> v.Null? || v.Undefined?
    ensures v.Obj? ==> r == Normal(if key in v.fields then v.fields[key] else Undefined)
  {
    match v
    case Null => Throw
    case Undefined => Throw
    case Obj(m) => Normal(if key in m then m[key] else Undefined)
    case Arr(items) =>
      if key == "length" then Normal(Num(|items| as real))
      else (
        match CanonicalIndex(key)
        case Some(i) => Normal(if i < |items| then items[i] else Undefined)
        case None => Normal(Undefined))
    case Str(s) =>
      if key == "length" then Normal(Num(|s| as real))
      else (
        match CanonicalIndex(key)
        case Some(i) => Normal(if i < |s| then Str([s[i]]) else Undefined)
        case None => Normal(Undefined))
    case Num(_) => Normal(Undefined)
    case Bool(_) => Normal(Undefined)
  }

  /** A record's property; records are objects, so reading never throws. */
  function Prop(rec: Record, key: string): Json
  {
    Get(rec, key).value
  }

  /** The property key JavaScript makes of the number `parseInt` returned: its decimal
      text, or "NaN". */
  function NumberKey(n: Option<int>): string
  {
    match n
    case Some(i) => IntToDecimal(i)
    case None => "NaN"
  }

  /** `a === b`. Objects and arrays compare by reference; every object or array in the
      model stands for a distinct reference, so they are never strictly equal. */
  predicate StrictEq(a: Json, b: Json)
  {
    match a
    case Obj(_) => false
    case Arr(_) => false
    case _ => a == b
  }

  /** `x == s` for a string `s` (abstract equality): a number or boolean compares with
      the number the string denotes, an object with its text "[object Object]", `null`
      and `undefined` with nothing. */
  predicate LooseEqString(x: Json, s: string)
  {
    match x
    case Null => false
    case Undefined => false
    case Num(n) => StringToNumber(s) == Some(n)
    case Str(t) => t == s
    case Bool(b) => StringToNumber(s) == Some(if b then 1.0 else 0.0)
    case Obj(_) => s == "[object Object]"
    case Arr(_) => false
  }

  /** Strict equality with a string implies loose equality with it. */
  lemma StrictImpliesLoose(x: Json, s: string)
    requires StrictEq(x, Str(s))
    ensures LooseEqString(x, s)
  {
  }

  /** The number a relational comparison converts `v` to; `None` is NaN. An array is
      compared through its joined text: empty is 0, one element is that element's
      text, two or more contain a comma and are NaN. */
  function ToNumber(v: Json): Option<real>
  {
    match v
    case Null => Some(0.0)
    case Undefined => None
    case Num(n) => Some(n)
    case Str(s) => StringToNumber(s)
    case Bool(b) => Some(if b then 1.0 else 0.0)
    case Obj(_) => None
    case Arr(items) =>
      if |items| == 0 then Some(0.0)
      else if |items| > 1 then None
      else
        match items[0]
        case Null => Some(0.0)
        case Undefined => Some(0.0)
        case Bool(_) => None
        case _ => ToNumber(items[0])
  }

  /** `parseFloat(v)`, which reads the text of `v`: a number reads back as itself, a
      string is parsed, an array's text starts with its first element's text (and a
      comma ends any number); every other value's text is not a number. */
  function ParseFloatOf(v: Json): Option<real>
  {
    match v
    case Num(n) => Some(n)
    case Str(s) => ParseFloat(s)
    case Arr(items) => if |items| == 0 then None else ParseFloatOf(items[0])
    case _ => None
  }

  /** `v || fallback`. */
  function Or(v: Json, fallback: Json): (r: Json)
    ensures r == v || r == fallback
    ensures Truthy(v) ==> r == v
    ensures !Truthy(v) ==> r == fallback
  {
    if Truthy(v) then v else fallback
  }
}
