/**
 * The slice of Python value semantics the Home Assistant integration relies
 * on: JSON-decoded values, truthiness, `dict.get`, and the `int()` /
 * `float()` conversions with the exceptions they raise.
 */
module PyValues {
  import opened Wrappers

  /** A value produced by `json.loads` (floats are exact reals here). */
  datatype Value =
    | VNone
    | VBool(b: bool)
    | VInt(i: int)
    | VFloat(f: real)
    | VStr(s: string)
    | VList(items: seq<Value>)
    | VDict(entries: map<string, Value>)

  /** The exceptions a message handler can meet while decoding a payload. */
  datatype PyError = JSONDecodeError | ValueError | TypeError | AttributeError

  /** The handlers catch exactly `(json.JSONDecodeError, ValueError)`. */
  predicate Caught(e: PyError) {
    e == JSONDecodeError || e == ValueError
  }

  /** Python truthiness (`bool(v)`). */
  predicate Truthy(v: Value) {
    match v
    case VNone => false
    case VBool(b) => b
    case VInt(i) => i != 0
    case VFloat(f) => f != 0.0
    case VStr(s) => s != ""
    case VList(items) => items != []
    case VDict(entries) => entries != map[]
  }

  /** `d.get(key, default)` */
  function Get(d: map<string, Value>, key: string, default: Value): (r: Value)
    ensures key in d ==> r == d[key]
    ensures key !in d ==> r == default
  {
    if key in d then d[key] else default
  }

  predicate IsDigit(c: char) {
    '0' <= c <= '9'
  }

  predicate AllDigits(s: string) {
    forall i :: 0 <= i < |s| ==> IsDigit(s[i])
  }

  /** The number a string of decimal digits denotes. */
  function DigitsValue(s: string): nat
    requires AllDigits(s)
    decreases |s|
  {
    if s == [] then 0
    else 10 * DigitsValue(s[..|s| - 1]) + (s[|s| - 1] as int - '0' as int)
  }

  function Pow10(n: nat): (r: nat)
    ensures r >= 1
  {
    if n == 0 then 1 else 10 * Pow10(n - 1)
  }

  /** Splits an optional leading sign off a numeric literal. */
  function SplitSign(s: string): (bool, string) {
    if |s| > 0 && s[0] == '-' then (true, s[1..])
    else if |s| > 0 && s[0] == '+' then (false, s[1..])
    else (false, s)
  }

  /** `int(s)` for a string: an optional sign followed by decimal digits. */
  function ParseInt(s: string): Option<int> {
    var (negative, body) := SplitSign(s);
    if |body| > 0 && AllDigits(body) then
      Some(if negative then -(DigitsValue(body) as int) else DigitsValue(body))
    else
      None
  }

  /** Index of the first '.' in `s`, if any. */
  function DotIndex(s: string): (r: Option<nat>)
    ensures r.Some? ==> r.value < |s| && s[r.value] == '.'
    ensures r.Some? ==> forall j :: 0 <= j < r.value ==> s[j] != '.'
    ensures r.None? ==> forall j :: 0 <= j < |s| ==> s[j] != '.'
    decreases |s|
  {
    if s == [] then None
    else if s[0] == '.' then Some(0)
    else match DotIndex(s[1..])
      case None => None
      case Some(k) => Some(k + 1)
  }

  /**
   * `float(s)` for a string: an optional sign, then digits with at most one
   * decimal point and at least one digit.
   */
  function ParseFloat(s: string): Option<real> {
    var (negative, body) := SplitSign(s);
    var magnitude: Option<real> :=
      match DotIndex(body)
      case None =>
        if |body| > 0 && AllDigits(body) then Some(DigitsValue(body) as real) else None
      case Some(k) =>
        var whole := body[..k];
        var frac := body[k + 1..];
        if |whole| + |frac| > 0 && AllDigits(whole) && AllDigits(frac) then
          Some(DigitsValue(whole) as real + DigitsValue(frac) as real / Pow10(|frac|) as real)
        else None;
    match magnitude
    case None => None
    case Some(m) => Some(if negative then -m else m)
  }

  /** `int(f)` for a float truncates toward zero. */
  function TruncateTowardZero(f: real): (r: int)
    ensures 0.0 <= f ==> r as real <= f < r as real + 1.0
    ensures f < 0.0 ==> r as real - 1.0 < f <= r as real
  {
    if f >= 0.0 then f.Floor else -((-f).Floor)
  }

  /**
   * Python's `int(v)`: bools are ints, floats truncate, strings parse,
   * anything else raises TypeError.
   */
  function ToInt(v: Value): (r: Result<int, PyError>)
    ensures v.VInt? ==> r == Ok(v.i)
    ensures v.VBool? ==> r == Ok(if v.b then 1 else 0)
    ensures (v.VNone? || v.VList? || v.VDict?) ==> r == Err(TypeError)
    ensures v.VStr? ==> (r.Ok? <==> ParseInt(v.s).Some?)
    ensures r.Err? ==> r.error == TypeError || r.error == ValueError
  {
    match v
    case VNone => Err(TypeError)
    case VBool(b) => Ok(if b then 1 else 0)
    case VInt(i) => Ok(i)
    case VFloat(f) => Ok(TruncateTowardZero(f))
    case VStr(s) =>
      (match ParseInt(s)
       case Some(n) => Ok(n)
       case None => Err(ValueError))
    case VList(_) => Err(TypeError)
    case VDict(_) => Err(TypeError)
  }

  /** Python's `float(v)`. */
  function ToFloat(v: Value): (r: Result<real, PyError>)
    ensures v.VFloat? ==> r == Ok(v.f)
    ensures v.VInt? ==> r == Ok(v.i as real)
    ensures v.VBool? ==> r == Ok(if v.b then 1.0 else 0.0)
    ensures (v.VNone? || v.VList? || v.VDict?) ==> r == Err(TypeError)
    ensures v.VStr? ==> (r.Ok? <==> ParseFloat(v.s).Some?)
    ensures r.Err? ==> r.error == TypeError || r.error == ValueError
  {
    match v
    case VNone => Err(TypeError)
    case VBool(b) => Ok(if b then 1.0 else 0.0)
    case VInt(i) => Ok(i as real)
    case VFloat(f) => Ok(f)
    case VStr(s) =>
      (match ParseFloat(s)
       case Some(x) => Ok(x)
       case None => Err(ValueError))
    case VList(_) => Err(TypeError)
    case VDict(_) => Err(TypeError)
  }

  /** Decimal rendering of a natural number (a reference for ParseInt). */
  function ShowNat(n: nat): (r: string)
    ensures |r| > 0 && AllDigits(r)
    decreases n
  {
    if n < 10 then [('0' as int + n) as char]
    else ShowNat(n / 10) + [('0' as int + n % 10) as char]
  }

  function ShowInt(n: int): string {
    if n < 0 then "-" + ShowNat(-n) else ShowNat(n)
  }

  lemma {:induction false} DigitsOfShowNat(n: nat)
    ensures DigitsValue(ShowNat(n)) == n
    decreases n
  {
    if n >= 10 {
      var s := ShowNat(n);
      var prefix := ShowNat(n / 10);
      assert s[..|s| - 1] == prefix;
      DigitsOfShowNat(n / 10);
    }
  }

  /** `int()` reads back every integer written in decimal. */
  lemma {:induction false} ParseIntShowInt(n: int)
    ensures ParseInt(ShowInt(n)) == Some(n)
  {
    var s := ShowInt(n);
    if n < 0 {
      assert s[1..] == ShowNat(-n);
      assert SplitSign(s) == (true, ShowNat(-n));
      DigitsOfShowNat(-n);
    } else {
      assert IsDigit(s[0]);
      assert SplitSign(s) == (false, s);
      DigitsOfShowNat(n);
    }
  }
}
