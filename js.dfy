/**
 * The slice of JavaScript semantics the process reader relies on: numbers
 * (with the double-precision format idealised as exact reals, so NaN and the
 * infinities are kept but rounding is not), the string-to-number coercions
 * `Number(s)` and `parseInt(s, 10)`, lodash's `_.sum`, and dynamically typed
 * values with truthiness and property access.
 */
module Js {
  import opened Wrappers
  import Text

  /** A JavaScript number. */
  datatype Num = Fin(v: real) | NaN | Inf(positive: bool)

  function Neg(a: Num): Num {
    match a
    case Fin(x) => Fin(-x)
    case NaN => NaN
    case Inf(p) => Inf(!p)
  }

  /** `a + b` on numbers. */
  function Add(a: Num, b: Num): (r: Num)
    ensures a.Fin? && b.Fin? ==> r == Fin(a.v + b.v)
    ensures a.NaN? || b.NaN? ==> r.NaN?
  {
    match (a, b)
    case (Fin(x), Fin(y)) => Fin(x + y)
    case (NaN, _) => NaN
    case (_, NaN) => NaN
    case (Inf(p), Inf(q)) => if p == q then Inf(p) else NaN
    case (Inf(p), Fin(_)) => Inf(p)
    case (Fin(_), Inf(q)) => Inf(q)
  }

  /** `a - b` on numbers. */
  function Sub(a: Num, b: Num): (r: Num)
    ensures a.Fin? && b.Fin? ==> r == Fin(a.v - b.v)
    ensures a.NaN? || b.NaN? ==> r.NaN?
  {
    Add(a, Neg(b))
  }

  /** For finite numbers, adding the difference to the subtrahend gives the minuend back. */
  lemma AddSub(a: Num, b: Num)
    requires a.Fin? && b.Fin?
    ensures Add(b, Sub(a, b)) == a
  {
  }

  /** `a / b` on numbers (the sign of a zero divisor is taken as positive). */
  function Div(a: Num, b: Num): (r: Num)
    ensures a.Fin? && b.Fin? && b.v != 0.0 ==> r == Fin(a.v / b.v)
    ensures a.Fin? && b == Fin(0.0) ==> (r.NaN? <==> a.v == 0.0)
    ensures a.NaN? || b.NaN? ==> r.NaN?
  {
    match (a, b)
    case (NaN, _) => NaN
    case (_, NaN) => NaN
    case (Inf(_), Inf(_)) => NaN
    case (Fin(_), Inf(_)) => Fin(0.0)
    case (Inf(p), Fin(y)) => Inf(if y < 0.0 then !p else p)
    case (Fin(x), Fin(y)) =>
      if y != 0.0 then Fin(x / y)
      else if x > 0.0 then Inf(true)
      else if x < 0.0 then Inf(false)
      else NaN
  }

  /** `Math.min(a, 1)`. */
  function MinOne(a: Num): (r: Num)
    ensures a.Fin? ==> r == Fin(if a.v <= 1.0 then a.v else 1.0)
    ensures a.NaN? <==> r.NaN?
  {
    match a
    case Fin(x) => Fin(if x <= 1.0 then x else 1.0)
    case NaN => NaN
    case Inf(p) => if p then Fin(1.0) else Inf(false)
  }

  /** An `undefined` operand of arithmetic reads as NaN. */
  function OrNaN(o: Option<Num>): Num {
    match o
    case Some(n) => n
    case None => NaN
  }

  /**
   * lodash's internal `baseSum`: undefined entries are skipped, and the sum
   * of no defined entry is undefined.
   */
  function BaseSum(xs: seq<Option<Num>>): (r: Option<Num>)
    ensures r.None? <==> forall i :: 0 <= i < |xs| ==> xs[i].None?
  {
    if |xs| == 0 then None
    else
      var init := BaseSum(xs[..|xs| - 1]);
      match xs[|xs| - 1]
      case None => init
      case Some(x) => Some(match init case None => x case Some(s) => Add(s, x))
  }

  /**
   * lodash 4 `_.sum(values)`: 0 for an empty array, otherwise `baseSum`, so a
   * non-empty array of undefined entries sums to undefined.
   */
  function Sum(xs: seq<Option<Num>>): (r: Option<Num>)
    ensures |xs| == 0 ==> r == Some(Fin(0.0))
    ensures r.None? <==> |xs| > 0 && forall i :: 0 <= i < |xs| ==> xs[i].None?
  {
    if |xs| == 0 then Some(Fin(0.0)) else BaseSum(xs)
  }

  /** The plain sum of a sequence of reals. */
  function RealSum(vs: seq<real>): real {
    if |vs| == 0 then 0.0 else RealSum(vs[..|vs| - 1]) + vs[|vs| - 1]
  }

  /** When every entry is a defined finite number, `_.sum` is the ordinary sum. */
  lemma {:induction false} SumOfFinite(xs: seq<Option<Num>>, vs: seq<real>)
    requires |xs| == |vs|
    requires forall i :: 0 <= i < |xs| ==> xs[i] == Some(Fin(vs[i]))
    ensures Sum(xs) == Some(Fin(RealSum(vs)))
  {
    var n := |xs|;
    if n > 1 {
      SumOfFinite(xs[..n - 1], vs[..n - 1]);
    } else if n == 1 {
      assert BaseSum(xs[..0]) == None by { assert xs[..0] == []; }
      assert RealSum(vs[..0]) == 0.0 by { assert vs[..0] == []; }
    }
  }

  predicate IsDigit(c: char) {
    '0' <= c <= '9'
  }

  predicate AllDigits(s: string) {
    forall j :: 0 <= j < |s| ==> IsDigit(s[j])
  }

  /** The value of a string of decimal digits. */
  function DigitsValue(s: string): (n: nat)
    requires AllDigits(s)
  {
    if |s| == 0 then 0
    else 10 * DigitsValue(s[..|s| - 1]) + ((s[|s| - 1] as int) - ('0' as int))
  }

  /** Length of the maximal run of decimal digits at the start of s. */
  function LeadingDigits(s: string): (n: nat)
    ensures n <= |s|
    ensures AllDigits(s[..n])
    ensures n == |s| || !IsDigit(s[n])
  {
    if |s| == 0 || !IsDigit(s[0]) then 0
    else
      var m := LeadingDigits(s[1..]);
      assert s[..1 + m] == [s[0]] + s[1..][..m];
      1 + m
  }

  /**
   * `Number(s)` for the textual forms the kernel's files contain: the empty
   * string is 0, a string of decimal digits is its value, and every other
   * string is NaN.
   */
  function StrToNumber(s: string): (r: Num)
    ensures s == "" ==> r == Fin(0.0)
    ensures s != "" && AllDigits(s) ==> r == Fin(DigitsValue(s) as real)
    ensures s != "" && !AllDigits(s) ==> r.NaN?
  {
    if s == "" then Fin(0.0)
    else if AllDigits(s) then Fin(DigitsValue(s) as real)
    else NaN
  }

  /** `Number(x)` where x is a token or `undefined`. */
  function TokenToNumber(t: Option<string>): (r: Num)
    ensures t.None? ==> r.NaN?
  {
    match t
    case None => NaN
    case Some(s) => StrToNumber(s)
  }

  /**
   * `parseInt(s, 10)`: leading whitespace is skipped, an optional sign is
   * read, then the longest run of decimal digits; no digit at all gives NaN.
   */
  function ParseInt(s: string): Num {
    var t := s[Text.LeadingSpaces(s)..];
    var negative := |t| > 0 && t[0] == '-';
    var u := if |t| > 0 && (t[0] == '-' || t[0] == '+') then t[1..] else t;
    var d := LeadingDigits(u);
    if d == 0 then NaN
    else Fin(if negative then -(DigitsValue(u[..d]) as real) else DigitsValue(u[..d]) as real)
  }

  /** On a non-empty string of digits `parseInt` and `Number` agree. */
  lemma ParseIntOfDigits(s: string)
    requires s != "" && AllDigits(s)
    ensures ParseInt(s) == StrToNumber(s) == Fin(DigitsValue(s) as real)
  {
    assert !Text.IsSpace(s[0]);
    assert s[Text.LeadingSpaces(s)..] == s;
    assert LeadingDigits(s) == |s|;
    assert s[..|s|] == s;
  }

  /** Position i holds the last occurrence of its name. */
  ghost predicate LastOccurrence(keys: seq<string>, i: int) {
    0 <= i < |keys| && forall j :: i < j < |keys| ==> keys[j] != keys[i]
  }

  /** `fields[i]`, undefined past the end. */
  function TokenAt(fields: seq<string>, i: nat): (t: Option<string>)
    ensures t.Some? <==> i < |fields|
    ensures i < |fields| ==> t.value == fields[i]
  {
    if i < |fields| then Some(fields[i]) else None
  }

  /**
   * `_.zipObject(keys, values)`: every name of the schema becomes a key, the
   * i-th name maps to the i-th value (undefined where the values run out),
   * values past the schema are ignored, and a repeated name keeps the value of
   * its last position.
   */
  function ZipObject(keys: seq<string>, values: seq<string>): map<string, Option<string>> {
    if |keys| == 0 then map[]
    else
      var n := |keys| - 1;
      ZipObject(keys[..n], values)[keys[n] := TokenAt(values, n)]
  }

  /** The zipped object's names are exactly the schema's. */
  lemma {:induction false} ZipObjectKeys(keys: seq<string>, values: seq<string>)
    ensures ZipObject(keys, values).Keys == set k | k in keys
  {
    if |keys| > 0 {
      var n := |keys| - 1;
      ZipObjectKeys(keys[..n], values);
      assert keys == keys[..n] + [keys[n]];
    }
  }

  /** The name at the last position of its occurrences maps to the value at that position. */
  lemma {:induction false} ZipObjectAt(keys: seq<string>, values: seq<string>, i: int)
    requires LastOccurrence(keys, i)
    ensures keys[i] in ZipObject(keys, values)
    ensures ZipObject(keys, values)[keys[i]] == TokenAt(values, i)
  {
    var n := |keys| - 1;
    if i < n {
      assert LastOccurrence(keys[..n], i);
      ZipObjectAt(keys[..n], values, i);
      assert keys[..n][i] == keys[i];
    }
  }

  /** A JavaScript value, as utils.js walks through it. */
  datatype Value =
    | Undefined
    | Null
    | Bool(b: bool)
    | Number(n: Num)
    | Str(s: string)
    | Arr(elems: seq<Value>)
    | Obj(props: map<string, Value>)

  /** JavaScript truthiness: false, 0, NaN, "", null and undefined are falsy. */
  predicate Truthy(v: Value) {
    match v
    case Undefined => false
    case Null => false
    case Bool(b) => b
    case Number(n) => !(n == Fin(0.0) || n.NaN?)
    case Str(s) => s != ""
    case Arr(_) => true
    case Obj(_) => true
  }

  predicate Nullish(v: Value) {
    v.Undefined? || v.Null?
  }

  /** The property key a string denotes as an array index, if it is a canonical one. */
  predicate IsIndexKey(key: string) {
    key != "" && AllDigits(key) && (key[0] != '0' || key == "0")
  }

  /** The error JavaScript raises when a property of null or undefined is read. */
  datatype TypeError = TypeError

  /**
   * `v[key]`: reading a property of null or undefined throws; an object gives
   * its own property or undefined; arrays and strings give their elements and
   * `length`; every other property is undefined.
   */
  function GetProperty(v: Value, key: string): (r: Result<Value, TypeError>)
    ensures r.Err? <==> Nullish(v)
    ensures v.Obj? ==> r == Ok(if key in v.props then v.props[key] else Undefined)
  {
    match v
    case Undefined => Err(TypeError)
    case Null => Err(TypeError)
    case Obj(m) => Ok(if key in m then m[key] else Undefined)
    case Arr(a) =>
      if IsIndexKey(key) && DigitsValue(key) < |a| then Ok(a[DigitsValue(key)])
      else if key == "length" then Ok(Number(Fin(|a| as real)))
      else Ok(Undefined)
    case Str(s) =>
      if IsIndexKey(key) && DigitsValue(key) < |s| then Ok(Str([s[DigitsValue(key)]]))
      else if key == "length" then Ok(Number(Fin(|s| as real)))
      else Ok(Undefined)
    case Bool(_) => Ok(Undefined)
    case Number(_) => Ok(Undefined)
  }

  /** The string a property key becomes when an optional token is used as one (`obj[undefined]`). */
  function PropertyKey(t: Option<string>): string {
    match t
    case Some(s) => s
    case None => "undefined"
  }
}
