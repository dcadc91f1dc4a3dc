/**
 * Python's `float(text)` on the texts `top` prints in a column: an optional
 * sign, a decimal mantissa with an optional fraction, and an optional
 * exponent.  A text it does not accept (Python raises `ValueError`) gives
 * `None`.
 */
module PyFloat {
  import opened Wrappers

  predicate IsDigit(c: char) {
    '0' <= c <= '9'
  }

  predicate AllDigits(s: string) {
    forall j :: 0 <= j < |s| ==> IsDigit(s[j])
  }

  /** The characters a text `float()` accepts may be made of. */
  predicate IsNumberChar(c: char) {
    IsDigit(c) || c == '+' || c == '-' || c == '.' || c == 'e' || c == 'E'
  }

  function DigitValue(c: char): (d: nat)
    requires IsDigit(c)
    ensures d < 10
  {
    c as int - '0' as int
  }

  /** The decimal value of a digit string, most significant digit first. */
  function DigitsValue(s: string): nat
    requires AllDigits(s)
  {
    if s == [] then 0 else DigitsValue(s[..|s| - 1]) * 10 + DigitValue(s[|s| - 1])
  }

  function Pow10(n: nat): (p: nat)
    ensures p >= 1
  {
    if n == 0 then 1 else 10 * Pow10(n - 1)
  }

  /** Position of the first `c` in `s`, or `|s|` when there is none. */
  function IndexOf(s: string, c: char): (i: nat)
    ensures i <= |s|
    ensures forall j :: 0 <= j < i ==> s[j] != c
    ensures i < |s| ==> s[i] == c
  {
    if s == [] then 0 else if s[0] == c then 0 else 1 + IndexOf(s[1..], c)
  }

  /** Position of the first exponent marker `e` or `E`, or `|s|`. */
  function ExponentAt(s: string): (i: nat)
    ensures i <= |s|
    ensures forall j :: 0 <= j < i ==> s[j] != 'e' && s[j] != 'E'
    ensures i < |s| ==> s[i] == 'e' || s[i] == 'E'
  {
    if s == [] then 0 else if s[0] == 'e' || s[0] == 'E' then 0 else 1 + ExponentAt(s[1..])
  }

  /** The digits before the first point of a mantissa. */
  function WholePart(m: string): string {
    m[..IndexOf(m, '.')]
  }

  /** The text after the first point of a mantissa, empty when there is no point. */
  function FracPart(m: string): string {
    var dot := IndexOf(m, '.');
    if dot < |m| then m[dot + 1..] else ""
  }

  /** `digits[.digits]` or `.digits`, with at least one digit in all. */
  predicate IsMantissa(m: string) {
    AllDigits(WholePart(m)) && AllDigits(FracPart(m)) && |WholePart(m)| + |FracPart(m)| > 0
  }

  function ParseMantissa(m: string): (r: Option<real>)
    ensures r.Some? <==> IsMantissa(m)
    ensures r.Some? ==> r.value >= 0.0
  {
    if IsMantissa(m) then Some(FixedValue(WholePart(m), FracPart(m))) else None
  }

  /** The number written `whole.frac`. */
  function FixedValue(whole: string, frac: string): (v: real)
    requires AllDigits(whole) && AllDigits(frac)
    ensures v >= DigitsValue(whole) as real >= 0.0
  {
    DigitsValue(whole) as real + DigitsValue(frac) as real / Pow10(|frac|) as real
  }

  predicate IsSigned(x: string) {
    |x| > 0 && (x[0] == '+' || x[0] == '-')
  }

  function Unsigned(x: string): string {
    if IsSigned(x) then x[1..] else x
  }

  /** `[+|-]digits`, the part after the exponent marker. */
  predicate IsExponent(x: string) {
    |Unsigned(x)| > 0 && AllDigits(Unsigned(x))
  }

  function ParseExponent(x: string): (r: Option<int>)
    ensures r.Some? <==> IsExponent(x)
  {
    if IsExponent(x) then
      Some(if x[0] == '-' then -(DigitsValue(Unsigned(x)) as int) else DigitsValue(Unsigned(x)))
    else
      None
  }

  /** `m` times ten to the power `e`. */
  function Scale(m: real, e: int): (r: real)
    ensures m >= 0.0 ==> r >= 0.0
  {
    if e >= 0 then m * Pow10(e) as real else m / Pow10(-e) as real
  }

  /** The texts `float()` accepts without a sign, by shape alone: a mantissa, then optionally a marker and an exponent. */
  predicate IsUnsigned(s: string) {
    var e := ExponentAt(s);
    IsMantissa(s[..e]) && (e < |s| ==> IsExponent(s[e + 1..]))
  }

  /** The texts `float()` accepts: an unsigned number, optionally after one sign. */
  predicate IsFloatText(s: string) {
    if IsSigned(s) then IsUnsigned(s[1..]) else IsUnsigned(s)
  }

  /** `float()` on text without a sign: `None` exactly when the text is not a mantissa with an optional exponent. */
  function ParseUnsigned(s: string): (r: Option<real>)
    ensures r.Some? <==> IsUnsigned(s)
    ensures r.Some? ==> r.value >= 0.0
  {
    var e := ExponentAt(s);
    match ParseMantissa(s[..e])
    case None => None
    case Some(m) =>
      if e == |s| then Some(m)
      else
        match ParseExponent(s[e + 1..])
        case None => None
        case Some(x) => Some(Scale(m, x))
  }

  lemma IndexOfAbsent(s: string, c: char)
    requires forall j :: 0 <= j < |s| ==> s[j] != c
    ensures IndexOf(s, c) == |s|
  {
  }

  lemma ExponentAtAbsent(s: string)
    requires forall j :: 0 <= j < |s| ==> s[j] != 'e' && s[j] != 'E'
    ensures ExponentAt(s) == |s|
  {
  }

  /** An accepted mantissa holds a digit and nothing but digits and the point. */
  lemma MantissaShape(m: string)
    requires IsMantissa(m)
    ensures exists j :: 0 <= j < |m| && IsDigit(m[j])
    ensures forall j :: 0 <= j < |m| ==> IsDigit(m[j]) || m[j] == '.'
  {
    var dot := IndexOf(m, '.');
    var whole := m[..dot];
    if dot == |m| {
      assert whole == m;
      if |m| > 0 { assert IsDigit(m[0]); }
    } else {
      var frac := m[dot + 1..];
      assert m == whole + "." + frac;
      if |whole| > 0 {
        assert IsDigit(m[0]);
      } else {
        assert IsDigit(m[dot + 1]);
      }
    }
  }

  /** An accepted exponent holds nothing but digits and a leading sign. */
  lemma ExponentShape(x: string)
    requires IsExponent(x)
    ensures forall j :: 0 <= j < |x| ==> IsDigit(x[j]) || x[j] == '+' || x[j] == '-'
  {
    if |x| > 0 && (x[0] == '+' || x[0] == '-') {
      assert x == [x[0]] + x[1..];
    }
  }

  lemma UnsignedShape(s: string)
    requires IsUnsigned(s)
    ensures exists j :: 0 <= j < |s| && IsDigit(s[j])
    ensures forall j :: 0 <= j < |s| ==> IsNumberChar(s[j])
  {
    var e := ExponentAt(s);
    MantissaShape(s[..e]);
    var k :| 0 <= k < |s[..e]| && IsDigit(s[..e][k]);
    assert IsDigit(s[k]);
    forall j | 0 <= j < e ensures IsNumberChar(s[j]) {
      assert s[j] == s[..e][j];
    }
    if e < |s| {
      ExponentChars(s, e);
    }
  }

  lemma ExponentChars(s: string, e: nat)
    requires e < |s| && IsExponent(s[e + 1..])
    ensures forall j :: e < j < |s| ==> IsNumberChar(s[j])
  {
    var x := s[e + 1..];
    ExponentShape(x);
    forall j | e < j < |s| ensures IsNumberChar(s[j]) {
      assert s[j] == x[j - e - 1];
    }
  }

  /** `float(s)`: the value `s` denotes, or `None` where Python raises `ValueError`. */
  function ParseFloat(s: string): (r: Option<real>)
    ensures r.Some? <==> IsFloatText(s)
    ensures r.Some? && r.value < 0.0 ==> 0 < |s| && s[0] == '-'
  {
    if |s| > 0 && (s[0] == '+' || s[0] == '-') then
      match ParseUnsigned(s[1..])
      case None => None
      case Some(v) => Some(if s[0] == '-' then -v else v)
    else
      ParseUnsigned(s)
  }

  /** Whatever `float()` accepts holds a digit and only sign, digit, point and exponent characters. */
  lemma ParseFloatShape(s: string)
    requires ParseFloat(s).Some?
    ensures exists j :: 0 <= j < |s| && IsDigit(s[j])
    ensures forall j :: 0 <= j < |s| ==> IsNumberChar(s[j])
  {
    if |s| > 0 && (s[0] == '+' || s[0] == '-') {
      UnsignedShape(s[1..]);
      var k :| 0 <= k < |s[1..]| && IsDigit(s[1..][k]);
      assert IsDigit(s[k + 1]);
      forall j | 0 < j < |s| ensures IsNumberChar(s[j]) {
        assert s[j] == s[1..][j - 1];
      }
    } else {
      UnsignedShape(s);
    }
  }

  // ---------------------------------------------------------------- round trips

  /** The decimal digits of `n`, as `str(n)` writes them. */
  function NatToDigits(n: nat): (s: string)
    ensures |s| > 0 && AllDigits(s)
  {
    if n < 10 then ['0' + n as char]
    else NatToDigits(n / 10) + ['0' + (n % 10) as char]
  }

  lemma {:induction false} DigitsValueOfNat(n: nat)
    ensures DigitsValue(NatToDigits(n)) == n
  {
    if n >= 10 {
      var s := NatToDigits(n);
      assert s[..|s| - 1] == NatToDigits(n / 10);
      DigitsValueOfNat(n / 10);
    }
  }

  /** An integer written out in decimal reads back as itself. */
  lemma ParseFloatNat(n: nat)
    ensures ParseFloat(NatToDigits(n)) == Some(n as real)
  {
    var s := NatToDigits(n);
    assert !(s[0] == '+' || s[0] == '-');
    ParseFloatNoExponent(s);
    IndexOfAbsent(s, '.');
    assert s[..|s|] == s;
    DigitsValueOfNat(n);
  }

  /**
   * A fixed-point text such as "12.5" (the form of `top`'s %CPU column)
   * reads as its whole part plus its fraction scaled by the number of
   * fraction digits.
   */
  lemma ParseFloatFixedPoint(whole: string, frac: string)
    requires |whole| > 0 && AllDigits(whole) && AllDigits(frac)
    ensures ParseFloat(whole + "." + frac) == Some(FixedValue(whole, frac))
  {
    var s := whole + "." + frac;
    forall j | 0 <= j < |s| ensures if j == |whole| then s[j] == '.' else IsDigit(s[j]) {
      if j < |whole| {
        assert s[j] == whole[j];
      } else if j > |whole| {
        assert s[j] == frac[j - |whole| - 1];
      }
    }
    ParseFloatNoExponent(s);
    MantissaFixedPoint(s, whole, frac);
  }

  /** Without a sign or an exponent marker, `float()` reads just the mantissa. */
  lemma ParseFloatNoExponent(s: string)
    requires |s| > 0 && IsDigit(s[0])
    requires forall j :: 0 <= j < |s| ==> s[j] != 'e' && s[j] != 'E'
    ensures ParseFloat(s) == ParseMantissa(s)
  {
    ExponentAtAbsent(s);
    assert s[..|s|] == s;
  }


  lemma MantissaFixedPoint(s: string, whole: string, frac: string)
    requires AllDigits(whole) && AllDigits(frac) && |whole| > 0
    requires s == whole + "." + frac
    ensures ParseMantissa(s) == Some(FixedValue(whole, frac))
  {
    assert s[|whole|] == '.';
    assert forall j :: 0 <= j < |whole| ==> s[j] == whole[j];
    assert IndexOf(s, '.') == |whole|;
    assert s[..|whole|] == whole;
    assert s[|whole| + 1..] == frac;
  }
}
