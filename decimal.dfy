/**
 * Decimal text for integers: the fixed-point rendering that Python's
 * `f"{v:.{p}f}"` gives an integer `v`, and the parsing that `int(text)`
 * performs on a string.
 */
module Decimal {

  import opened Wrappers
  import Text

  predicate IsDigit(c: char)
  {
    '0' <= c <= '9'
  }

  predicate AllDigits(s: string)
  {
    forall i :: 0 <= i < |s| ==> IsDigit(s[i])
  }

  function DigitChar(d: nat): (c: char)
    requires d < 10
    ensures IsDigit(c) && DigitValue(c) == d
  {
    (('0' as int) + d) as char
  }

  function DigitValue(c: char): (d: nat)
    requires IsDigit(c)
    ensures d < 10
  {
    (c as int) - ('0' as int)
  }

  /** The shortest decimal numeral of `n` (no leading zeros). */
  function NatToString(n: nat): (s: string)
    ensures |s| > 0 && AllDigits(s)
    ensures |s| > 1 ==> s[0] != '0'
    decreases n
  {
    if n < 10 then [DigitChar(n)] else NatToString(n / 10) + [DigitChar(n % 10)]
  }

  /** The value of a numeral (leading zeros allowed, as `int()` allows). */
  function DigitsValue(s: string): nat
    requires AllDigits(s)
  {
    if |s| == 0 then 0 else DigitsValue(s[..|s| - 1]) * 10 + DigitValue(s[|s| - 1])
  }

  lemma {:induction false} DigitsValueOfNatToString(n: nat)
    ensures DigitsValue(NatToString(n)) == n
    decreases n
  {
    var s := NatToString(n);
    if n >= 10 {
      DigitsValueOfNatToString(n / 10);
      assert s[..|s| - 1] == NatToString(n / 10);
    }
  }

  /** Python's `str(v)` for an integer. */
  function IntToString(v: int): (s: string)
    ensures |s| > 0
  {
    if v < 0 then "-" + NatToString(-v) else NatToString(v)
  }

  /** `str(v)` is digits, with a leading minus sign exactly for negative values. */
  lemma IntToStringChars(v: int)
    ensures var s := IntToString(v);
      (forall i :: 1 <= i < |s| ==> IsDigit(s[i])) && (s[0] == '-' <==> v < 0) && (v >= 0 ==> IsDigit(s[0]))
  {
  }

  function Zeros(n: nat): (s: string)
    ensures |s| == n
  {
    if n == 0 then "" else Zeros(n - 1) + "0"
  }

  lemma {:induction false} ZerosChars(n: nat)
    ensures forall i :: 0 <= i < n ==> Zeros(n)[i] == '0'
  {
    if n > 0 {
      ZerosChars(n - 1);
      assert forall i :: 0 <= i < n - 1 ==> Zeros(n)[i] == Zeros(n - 1)[i];
    }
  }

  /**
   * `f"{v:.{precision}f}"` for an integer `v`: the integer part, then a
   * decimal point and `precision` zeros when `precision > 0`.
   */
  function FormatFixed(v: int, precision: nat): (s: string)
    ensures |s| == |IntToString(v)| + (if precision == 0 then 0 else precision + 1)
  {
    var whole := IntToString(v);
    if precision == 0 then whole else whole + "." + Zeros(precision)
  }

  /**
   * The shape of the fixed-point text: `str(v)`, and when `precision > 0`
   * a point followed by exactly `precision` zeros; so it holds no markup
   * characters, and a point exactly when `precision > 0`.
   */
  lemma FormatFixedShape(v: int, precision: nat)
    ensures var s := FormatFixed(v, precision); var w := |IntToString(v)|;
      s[..w] == IntToString(v) &&
      (precision > 0 ==> s[w] == '.' && forall i :: w < i < |s| ==> s[i] == '0')
    ensures forall i :: 0 <= i < |FormatFixed(v, precision)| ==>
      IsDigit(FormatFixed(v, precision)[i]) || FormatFixed(v, precision)[i] in "-."
    ensures precision > 0 <==> '.' in FormatFixed(v, precision)
  {
    var s := FormatFixed(v, precision);
    var whole := IntToString(v);
    IntToStringChars(v);
    if precision > 0 {
      ZerosChars(precision);
      assert s == whole + "." + Zeros(precision);
      assert s[|whole|] == '.';
      forall i | |whole| < i < |s| ensures s[i] == '0' {
        assert s[i] == Zeros(precision)[i - |whole| - 1];
      }
    }
  }

  /** An optional sign followed by one or more ASCII digits. */
  predicate IsIntLiteral(t: string)
  {
    var digits := if |t| > 0 && (t[0] == '-' || t[0] == '+') then t[1..] else t;
    |digits| > 0 && AllDigits(digits)
  }

  /** Python's `int(text)` in base 10: surrounding white space, an optional sign, one or more digits. */
  function ParseInt(text: string): (r: Option<int>)
    ensures r.Some? <==> IsIntLiteral(Text.Strip(text))
    ensures r.Some? && r.value < 0 ==> Text.Strip(text)[0] == '-'
  {
    ParseStripped(Text.Strip(text))
  }

  /** `int()` on text already stripped of surrounding white space. */
  function ParseStripped(t: string): (r: Option<int>)
  {
    if |t| > 0 && (t[0] == '-' || t[0] == '+') then
      var body := t[1..];
      if |body| > 0 && AllDigits(body) then
        var magnitude: int := DigitsValue(body);
        Some(if t[0] == '-' then -magnitude else magnitude)
      else None
    else if |t| > 0 && AllDigits(t) then Some(DigitsValue(t))
    else None
  }

  /** `int(str(v)) == v`: the parser inverts the integer rendering. */
  lemma ParseIntOfIntToString(v: int)
    ensures ParseInt(IntToString(v)) == Some(v)
  {
    var s := IntToString(v);
    UnpaddedIntToString(v);
    Text.StripOfUnpadded(s);
    if v < 0 {
      ParseNegative(-v);
    } else {
      ParseNatural(v);
    }
  }

  lemma ParseNatural(n: nat)
    ensures ParseStripped(NatToString(n)) == Some(n)
  {
    DigitsValueOfNatToString(n);
  }

  lemma ParseNegative(n: nat)
    ensures ParseStripped("-" + NatToString(n)) == Some(0 - n)
  {
    var s := "-" + NatToString(n);
    assert s[1..] == NatToString(n);
    DigitsValueOfNatToString(n);
  }

  lemma UnpaddedIntToString(v: int)
    ensures Text.Unpadded(IntToString(v))
  {
    var s := IntToString(v);
    IntToStringChars(v);
    assert IsDigit(s[|s| - 1]);
    assert IsDigit(s[0]) || s[0] == '-';
  }

  /** The parsed value of a string is unchanged by surrounding white space. */
  lemma ParseIntIgnoresPadding(text: string, pad1: string, pad2: string)
    requires Text.AllSpace(pad1) && Text.AllSpace(pad2)
    ensures ParseInt(pad1 + text + pad2) == ParseInt(text)
  {
    Text.StripPadded(text, pad1, pad2);
  }

  /** Fixed-point rendering of integers loses nothing: distinct values render differently. */
  lemma FormatFixedInjective(a: int, b: int, precision: nat)
    requires FormatFixed(a, precision) == FormatFixed(b, precision)
    ensures a == b
  {
    FormatFixedShape(a, precision);
    FormatFixedShape(b, precision);
    assert |IntToString(a)| == |IntToString(b)|;
    ParseIntOfIntToString(a);
    ParseIntOfIntToString(b);
  }
}
