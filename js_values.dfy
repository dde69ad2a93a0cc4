/**
 * The few JavaScript value semantics the live-map code leans on: optional
 * values (undefined/null), clamped byte arrays, and the numbers that travel
 * between the threshold input control and the service: `Number#toString`
 * for integers, `parseInt(s, 10)` and `clamp`.
 */
module JsValues {

  /** A value that may be undefined or null in the source. */
  datatype Option<T> = None | Some(value: T)

  /** An element of a `Uint8ClampedArray`. */
  newtype byte = x: int | 0 <= x < 256

  /** A JavaScript number as this model uses it: an integer, or NaN. */
  datatype JsNumber = NaN | Num(value: int)

  /**
   * A JavaScript number that may have a fraction, or NaN. In an ordering
   * comparison `undefined` becomes NaN, so it is written `RealNaN` as well.
   */
  datatype JsReal = RealNaN | Real(value: real)

  /** `a < b` (and `b > a`): false as soon as either side is NaN. */
  predicate LessThan(a: JsReal, b: JsReal)
  {
    a.Real? && b.Real? && a.value < b.value
  }

  function Min(a: int, b: int): int { if a <= b then a else b }

  function Max(a: int, b: int): int { if a <= b then b else a }

  /**
   * `clamp(value, lo, hi)` as `Math.min(Math.max(value, lo), hi)`:
   * a number is pulled into `[lo, hi]`, NaN stays NaN.
   */
  function Clamp(x: JsNumber, lo: int, hi: int): (r: JsNumber)
    requires lo <= hi
    ensures r.NaN? <==> x.NaN?
    ensures r.Num? ==> lo <= r.value <= hi
    ensures r.Num? && lo <= x.value <= hi ==> r == x
    ensures r.Num? && x.value < lo ==> r.value == lo
    ensures r.Num? && hi < x.value ==> r.value == hi
  {
    match x
    case NaN => NaN
    case Num(v) => Num(Min(Max(v, lo), hi))
  }

  // ---------------------------------------------------------------------
  // Decimal digits

  predicate IsDigit(c: char) { '0' <= c <= '9' }

  predicate AllDigits(s: string) { forall i :: 0 <= i < |s| ==> IsDigit(s[i]) }

  function DigitValue(c: char): (d: nat)
    requires IsDigit(c)
    ensures d < 10
  {
    c as int - '0' as int
  }

  function DigitChar(d: nat): (c: char)
    requires d < 10
    ensures IsDigit(c) && DigitValue(c) == d
  {
    ('0' as int + d) as char
  }

  /** The value of a string of decimal digits, most significant first. */
  function DigitsValue(s: string): nat
    requires AllDigits(s)
  {
    if s == [] then 0 else DigitsValue(s[..|s| - 1]) * 10 + DigitValue(s[|s| - 1])
  }

  /** `n.toString()` for a non-negative integer: its shortest decimal numeral. */
  function NatToString(n: nat): (s: string)
    ensures s != [] && AllDigits(s)
    ensures |s| > 1 ==> s[0] != '0'
    decreases n
  {
    if n < 10 then [DigitChar(n)] else NatToString(n / 10) + [DigitChar(n % 10)]
  }

  /** `n.toString()` for an integer. */
  function IntToString(n: int): (s: string)
    ensures s != [] && (s[0] == '-' <==> n < 0)
    ensures AllDigits(if n < 0 then s[1..] else s)
  {
    if n < 0 then "-" + NatToString(-n) else NatToString(n)
  }

  /** `x.toString()`, as written into the threshold input control. */
  function NumberToString(x: JsNumber): (s: string)
    ensures s == "NaN" <==> x.NaN?
  {
    match x
    case NaN => "NaN"
    case Num(n) => IntToString(n)
  }

  // ---------------------------------------------------------------------
  // parseInt(s, 10)

  /** The white space and line terminators that `parseInt` skips before the numeral. */
  predicate IsWhiteSpace(c: char)
  {
    c == ' ' || c == '\t' || c == '\n' || c == '\r' || c == '\U{B}' || c == '\U{C}'
    || c == '\U{A0}' || c == '\U{1680}' || ('\U{2000}' <= c <= '\U{200A}')
    || c == '\U{2028}' || c == '\U{2029}' || c == '\U{202F}' || c == '\U{205F}'
    || c == '\U{3000}' || c == '\U{FEFF}'
  }

  function TrimStart(s: string): (t: string)
    ensures |t| <= |s|
    ensures t == s[|s| - |t|..]
    ensures t != [] ==> !IsWhiteSpace(t[0])
  {
    if s != [] && IsWhiteSpace(s[0]) then TrimStart(s[1..]) else s
  }

  /** The length of the longest prefix of `s` made of decimal digits. */
  function DigitPrefixLength(s: string): (k: nat)
    ensures k <= |s| && AllDigits(s[..k])
    ensures k < |s| ==> !IsDigit(s[k])
  {
    if s == [] || !IsDigit(s[0]) then 0
    else
      var k := 1 + DigitPrefixLength(s[1..]);
      assert s[..k] == [s[0]] + s[1..][..k - 1];
      k
  }

  /**
   * `parseInt(s, 10)`: skip leading white space, take an optional sign, then
   * the longest run of decimal digits; no digits at all gives NaN, and
   * whatever follows the digits is ignored.
   */
  function ParseInt(s: string): (r: JsNumber)
    ensures s == [] ==> r.NaN?
    ensures s != [] && AllDigits(s) ==> r == Num(DigitsValue(s))
  {
    var t := TrimStart(s);
    DigitsPrefixOfDigitString(s);
    var negative := t != [] && t[0] == '-';
    var u := if t != [] && (t[0] == '-' || t[0] == '+') then t[1..] else t;
    var k := DigitPrefixLength(u);
    if k == 0 then NaN
    else if negative then Num(-(DigitsValue(u[..k]) as int))
    else Num(DigitsValue(u[..k]))
  }

  /** A string of digits is its own trimmed, unsigned digit prefix. */
  lemma DigitsPrefixOfDigitString(s: string)
    ensures s != [] && AllDigits(s) ==>
              TrimStart(s) == s && DigitPrefixLength(s) == |s| && s[..|s|] == s
  {
    if s != [] && AllDigits(s) {
      assert IsDigit(s[0]);
      assert !IsWhiteSpace(s[0]);
      DigitPrefixOfDigits(s);
    }
  }

  lemma {:induction false} DigitsValueOfNatToString(n: nat)
    ensures DigitsValue(NatToString(n)) == n
    decreases n
  {
    var s := NatToString(n);
    if n >= 10 {
      DigitsValueOfNatToString(n / 10);
      assert s[..|s| - 1] == NatToString(n / 10);
    }
  }

  /**
   * Reading back what `toString` wrote: `parseInt(n.toString(), 10) == n`
   * for every integer.
   */
  lemma ParseIntOfIntToString(n: int)
    ensures ParseInt(IntToString(n)) == Num(n)
  {
    var s := IntToString(n);
    var digits := NatToString(if n < 0 then -n else n);
    DigitsValueOfNatToString(if n < 0 then -n else n);
    assert !IsWhiteSpace(s[0]);
    assert TrimStart(s) == s;
    var u := if s[0] == '-' then s[1..] else s;
    assert u == digits;
    assert DigitPrefixLength(u) == |u| by {
      DigitPrefixOfDigits(u);
    }
    assert u[..|u|] == u;
  }

  lemma {:induction false} DigitPrefixOfDigits(s: string)
    requires AllDigits(s)
    ensures DigitPrefixLength(s) == |s|
  {
    if s != [] {
      DigitPrefixOfDigits(s[1..]);
    }
  }

  /** Different non-negative integers print as different numerals. */
  lemma NatToStringInjective(m: nat, n: nat)
    requires NatToString(m) == NatToString(n)
    ensures m == n
  {
    DigitsValueOfNatToString(m);
    DigitsValueOfNatToString(n);
  }

  /** Clamping -5 and 50000 into `[0, 1e4]`, the range of the threshold button, gives 0 and 10000. */
  lemma ClampExamples()
    ensures Clamp(Num(-5), 0, 10000) == Num(0)
    ensures Clamp(Num(50000), 0, 10000) == Num(10000)
  {
  }
}
