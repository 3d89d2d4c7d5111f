/** Decimal numerals: what JavaScript's `Number(string)` accepts and what
    `String(number)` writes, restricted to plain decimal notation (no
    exponent, no hexadecimal, no `Infinity`). A JavaScript number is a real
    here, and "NaN" is the absence of a value. */
module Numeral {
  import opened Text

  datatype Option<T> = None | Some(value: T)

  function DigitValue(c: char): (d: nat)
    requires IsDigit(c)
    ensures d < 10
  {
    c as int - '0' as int
  }

  function DigitChar(d: nat): (c: char)
    requires d < 10
    ensures IsDigit(c) && DigitValue(c) == d
  {
    ('0' as int + d) as char
  }

  predicate AllDigits(s: string)
  {
    forall i :: 0 <= i < |s| ==> IsDigit(s[i])
  }

  /** The value of a string of decimal digits, most significant first. */
  function DigitsValue(ds: string): nat
    requires AllDigits(ds)
  {
    if ds == [] then 0 else DigitsValue(ds[..|ds| - 1]) * 10 + DigitValue(ds[|ds| - 1])
  }

  /** `v / 10^k` */
  function Shift(v: real, k: nat): real
  {
    if k == 0 then v else Shift(v, k - 1) / 10.0
  }

  /** Position of the first '.', or |u| when there is none. */
  function DotIndex(u: string): (k: nat)
    ensures k <= |u|
    ensures forall i :: 0 <= i < k ==> u[i] != '.'
    ensures k < |u| ==> u[k] == '.'
  {
    if u == [] then 0 else if u[0] == '.' then 0 else 1 + DotIndex(u[1..])
  }

  /** An unsigned decimal literal: digits, optionally followed by '.' and
      more digits, with at least one digit in all ("1", "1.", "1.5", ".5"). */
  function ParseUnsigned(u: string): Option<real>
  {
    var k := DotIndex(u);
    var whole := u[..k];
    var frac := if k < |u| then u[k + 1..] else [];
    if AllDigits(whole) && AllDigits(frac) && |whole| + |frac| > 0 then
      Some(DigitsValue(whole) as real + Shift(DigitsValue(frac) as real, |frac|))
    else
      None
  }

  /** A decimal literal with an optional sign, as `Number` reads it once the
      string is trimmed; `None` stands for NaN. */
  function ParseNumeral(t: string): (r: Option<real>)
  {
    if t != [] && t[0] == '-' then
      match ParseUnsigned(t[1..])
      case Some(v) => Some(-v)
      case None => None
    else if t != [] && t[0] == '+' then
      ParseUnsigned(t[1..])
    else
      ParseUnsigned(t)
  }

  /** `Number(s)` for a string: surrounding white space is ignored and a
      blank string is 0. */
  function StringToNumber(s: string): Option<real>
  {
    var t := Trim(s);
    if t == [] then Some(0.0) else ParseNumeral(t)
  }

  /** `Number` reads a blank string as 0. */
  lemma BlankIsZero(s: string)
    requires AllSpace(s)
    ensures StringToNumber(s) == Some(0.0)
  {
    TrimAllSpace(s);
  }

  /** Decimal digits of a natural number, without leading zeros. */
  function NatToString(n: nat): (s: string)
    ensures |s| >= 1 && AllDigits(s)
  {
    if n < 10 then [DigitChar(n)] else NatToString(n / 10) + [DigitChar(n % 10)]
  }

  /** The digits `NatToString` writes read back as the same number. */
  lemma {:induction false} NatToStringValue(n: nat)
    ensures DigitsValue(NatToString(n)) == n
  {
    var s := NatToString(n);
    if n >= 10 {
      assert s[..|s| - 1] == NatToString(n / 10);
      NatToStringValue(n / 10);
    }
  }

  function IntToString(i: int): string
  {
    if i < 0 then "-" + NatToString(-i) else NatToString(i)
  }

  function StripTrailingZeros(s: string): (r: string)
    ensures |r| <= |s| && r == s[..|r|]
    ensures r == [] || r[|r| - 1] != '0'
    ensures (forall i :: 0 <= i < |s| ==> s[i] == '0') ==> r == []
  {
    if s != [] && s[|s| - 1] == '0' then StripTrailingZeros(s[..|s| - 1]) else s
  }

  function PadZeros(s: string, width: nat): (r: string)
    ensures |r| >= |s| && r[|r| - |s|..] == s
    ensures |r| >= width
    ensures forall i :: 0 <= i < |r| - |s| ==> r[i] == '0'
    decreases width - |s|
  {
    if |s| >= width then s else PadZeros("0" + s, width)
  }

  /** The first six fraction digits of a non-negative `x`, as a number
      below one million. */
  function FractionMicros(x: real): (m: nat)
    requires x >= 0.0
    ensures m < 1000000
  {
    ((x - x.Floor as real) * 1000000.0).Floor
  }

  /** The digits written after the point for a fraction of `m` millionths:
      six digits with the trailing zeros dropped. */
  function FractionDigits(m: nat): (ds: string)
    ensures AllDigits(ds)
  {
    var padded := PadZeros(NatToString(m), 6);
    assert AllDigits(padded) by {
      var ds := NatToString(m);
      forall i | 0 <= i < |padded| ensures IsDigit(padded[i]) {
        if i >= |padded| - |ds| {
          assert padded[i] == padded[|padded| - |ds|..][i - (|padded| - |ds|)];
        }
      }
    }
    var r := StripTrailingZeros(padded);
    assert forall i :: 0 <= i < |r| ==> r[i] == padded[i];
    r
  }

  predicate NumeralChars(s: string)
  {
    forall i :: 0 <= i < |s| ==> IsDigit(s[i]) || s[i] == '-' || s[i] == '.'
  }

  lemma NumeralCharsConcat(a: string, b: string)
    requires NumeralChars(a) && NumeralChars(b)
    ensures NumeralChars(a + b)
  {
    forall i | 0 <= i < |a + b| ensures IsDigit((a + b)[i]) || (a + b)[i] == '-' || (a + b)[i] == '.' {
      if i >= |a| {
        assert (a + b)[i] == b[i - |a|];
      }
    }
  }

  /** A non-negative number with `whole` as integer part and `micros`
      millionths as fraction. */
  function DecimalString(whole: nat, micros: nat): string
  {
    var w := NatToString(whole);
    var f := FractionDigits(micros);
    if f == [] then w else w + "." + f
  }

  lemma DecimalStringShape(whole: nat, micros: nat)
    ensures var s := DecimalString(whole, micros); |s| >= 1 && IsDigit(s[0]) && NumeralChars(s)
  {
    var w := NatToString(whole);
    var f := FractionDigits(micros);
    assert NumeralChars(w) && NumeralChars(f);
    NumeralCharsConcat(w, ".");
    NumeralCharsConcat(w + ".", f);
  }

  /** A non-negative number as its integer part, '.', and at most six
      fraction digits, truncated. */
  function NonNegToString(x: real): string
    requires x >= 0.0
  {
    DecimalString(x.Floor, FractionMicros(x))
  }

  lemma NumeralCharNotSpace(c: char)
    requires IsDigit(c) || c == '-' || c == '.'
    ensures !IsSpace(c)
  {
  }

  lemma NumeralTrimmed(s: string)
    requires |s| >= 1 && NumeralChars(s)
    ensures Trimmed(s)
  {
    NumeralCharNotSpace(s[0]);
    NumeralCharNotSpace(s[|s| - 1]);
  }

  /** `String(x)`: an integral number is written as its integer, any other
      as its sign, integer part, '.' and fraction digits. */
  function NumberToString(x: real): string
  {
    if x == x.Floor as real then IntToString(x.Floor)
    else if x < 0.0 then "-" + NonNegToString(-x)
    else NonNegToString(x)
  }

  lemma IntToStringShape(i: int)
    ensures var s := IntToString(i);
      |s| >= 1 && (IsDigit(s[0]) || s[0] == '-') && NumeralChars(s)
  {
    var ds := NatToString(if i < 0 then -i else i);
    assert NumeralChars(ds);
    if i < 0 {
      NumeralCharsConcat("-", ds);
    }
  }

  /** `String(x)` is never blank, starts with a digit or '-', and is made
      only of digits, '-' and '.', so it has no white space at its ends. */
  lemma NumberToStringShape(x: real)
    ensures var s := NumberToString(x);
      |s| >= 1 && (IsDigit(s[0]) || s[0] == '-') && NumeralChars(s) && Trimmed(s)
  {
    var s := NumberToString(x);
    if x == x.Floor as real {
      IntToStringShape(x.Floor);
    } else {
      var y := if x < 0.0 then -x else x;
      DecimalStringShape(y.Floor, FractionMicros(y));
      if x < 0.0 {
        NumeralCharsConcat("-", NonNegToString(y));
      }
    }
    NumeralTrimmed(s);
  }

  lemma {:induction false} ParseAllDigits(ds: string)
    requires AllDigits(ds) && |ds| > 0
    ensures ParseUnsigned(ds) == Some(DigitsValue(ds) as real)
  {
    assert forall i :: 0 <= i < |ds| ==> ds[i] != '.';
    assert DotIndex(ds) == |ds|;
    assert ds[..DotIndex(ds)] == ds;
  }

  /** Reading back what `String` writes gives the same integer:
      `Number(String(n)) == n` for every integer `n`. */
  lemma {:induction false} ParseNegativeDigits(ds: string)
    requires AllDigits(ds) && |ds| > 0
    ensures ParseNumeral("-" + ds) == Some(-(DigitsValue(ds) as real))
  {
    assert ("-" + ds)[1..] == ds;
    ParseAllDigits(ds);
  }

  lemma {:induction false} ParseDigits(ds: string)
    requires AllDigits(ds) && |ds| > 0
    ensures ParseNumeral(ds) == Some(DigitsValue(ds) as real)
  {
    assert ds[0] != '-' && ds[0] != '+';
    ParseAllDigits(ds);
  }

  /** A string that starts with anything but a digit, a point or a sign is
      not a numeral. */
  lemma ParseNonNumeralStart(t: string)
    requires t != [] && !IsDigit(t[0]) && t[0] != '.' && t[0] != '-' && t[0] != '+'
    ensures ParseNumeral(t) == None
  {
    var k := DotIndex(t);
    assert k > 0;
    assert t[..k][0] == t[0];
  }

  lemma {:induction false} NumberOfTrimmed(s: string)
    requires Trimmed(s) && s != []
    ensures StringToNumber(s) == ParseNumeral(s)
  {
    TrimOfTrimmed(s);
  }

  lemma IntRoundTrip(i: int)
    ensures StringToNumber(IntToString(i)) == Some(i as real)
  {
    var n: nat := if i < 0 then -i else i;
    var ds := NatToString(n);
    NatToStringValue(n);
    var s := IntToString(i);
    assert NumeralChars(ds);
    if i < 0 {
      NumeralCharsConcat("-", ds);
      NumeralTrimmed("-" + ds);
      NumberOfTrimmed("-" + ds);
      ParseNegativeDigits(ds);
    } else {
      NumeralTrimmed(ds);
      NumberOfTrimmed(ds);
      ParseDigits(ds);
    }
  }

  /** `Number(String(x)) == x` for every integral number `x`. */
  lemma IntegralRoundTrip(x: real)
    requires x == x.Floor as real
    ensures StringToNumber(NumberToString(x)) == Some(x)
  {
    IntRoundTrip(x.Floor);
  }
}
