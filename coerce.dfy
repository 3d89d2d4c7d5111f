/** The `num` coercion that lib/loadListings.ts, lib/loadListings.js and the
    market-summary route each define with the same body, and the junk-row
    test both listing loaders apply. */
module Coerce {
  import opened Text
  import opened Numeral
  import opened Js

  /** The characters the pattern `/[$,%\s,]/g` removes. */
  predicate IsNoise(c: char)
  {
    c == '$' || c == ',' || c == '%' || IsSpace(c)
  }

  predicate NoNoise(s: string)
  {
    forall i :: 0 <= i < |s| ==> !IsNoise(s[i])
  }

  /** `s.replace(/[$,%\s,]/g, "")`: the characters of `s` that are not noise,
      in order. */
  function StripNoise(s: string): (r: string)
    ensures |r| <= |s|
    ensures NoNoise(r)
  {
    if s == [] then []
    else (if IsNoise(s[0]) then [] else [s[0]]) + StripNoise(s[1..])
  }

  lemma {:induction false} StripNoiseConcat(a: string, b: string)
    ensures StripNoise(a + b) == StripNoise(a) + StripNoise(b)
  {
    if a == [] {
      assert a + b == b;
    } else {
      assert (a + b)[1..] == a[1..] + b;
      StripNoiseConcat(a[1..], b);
    }
  }

  /** Text with no noise character passes through unchanged. */
  lemma {:induction false} StripNoiseOfClean(s: string)
    requires NoNoise(s)
    ensures StripNoise(s) == s
  {
    if s != [] {
      StripNoiseOfClean(s[1..]);
    }
  }

  /** `num(v)`: `null`, `undefined` and `""` give null; a number is returned
      as it is; anything else is written as a string, stripped of `$`, `,`,
      `%` and white space, and read with `Number`, non-numerals giving null.
      A non-empty string made only of those characters reads as 0, because
      `Number("")` is 0. */
  function Num(v: Value): (r: Option<real>)
    ensures IsNullish(v) || (v.Str? && v.s == "") ==> r.None?
    ensures v.Num? ==> r == Some(v.x)
    ensures v.Str? && v.s != "" && StripNoise(v.s) == "" ==> r == Some(0.0)
    ensures v.Bool? ==> r.None?
  {
    match v
    case Undefined => None
    case Null => None
    case Num(x) => Some(x)
    case Bool(_) => None
    case Str(s) => if s == "" then None else StringToNumber(StripNoise(s))
  }

  /** `String(true)` and `String(false)` are not numerals, so `num` of a
      boolean is null, as `Num` states directly. */
  lemma BooleanIsNotNumeral(b: bool)
    ensures StringToNumber(StripNoise(ToStr(Bool(b)))) == None
  {
    var t := ToStr(Bool(b));
    assert NoNoise(t);
    StripNoiseOfClean(t);
    assert Trimmed(t);
    NumberOfTrimmed(t);
    ParseNonNumeralStart(t);
  }

  /** Noise characters never change what `num` reads from a string: a cell
      and its stripped text give the same number. */
  lemma {:induction false} NumIgnoresNoise(s: string)
    requires StripNoise(s) != ""
    ensures Num(Str(StripNoise(s))) == Num(Str(s))
  {
    StripNoiseOfClean(StripNoise(s));
  }

  lemma NumeralHasNoNoise(d: string)
    requires NumeralChars(d)
    ensures NoNoise(d)
  {
    forall i | 0 <= i < |d| ensures !IsNoise(d[i]) {
      NumeralCharNotSpace(d[i]);
    }
  }

  /** An integral amount written with a leading `$` reads back as that
      amount: `num("$" + String(x)) == x`. */
  lemma NumReadsDollarInteger(x: real)
    requires x == x.Floor as real
    ensures Num(Str("$" + NumberToString(x))) == Some(x)
  {
    var d := NumberToString(x);
    assert NoNoise(d) by {
      NumberToStringShape(x);
      NumeralHasNoNoise(d);
    }
    assert StripNoise("$" + d) == d by {
      StripNoiseOfClean(d);
      StripNoiseConcat("$", d);
      assert StripNoise("$") == [];
    }
    assert "$" + d != "";
    IntegralRoundTrip(x);
  }

  /** `num(String(x) + "%") == x` for an integral percentage `x`. */
  lemma NumReadsPercentInteger(x: real)
    requires x == x.Floor as real
    ensures Num(Str(NumberToString(x) + "%")) == Some(x)
  {
    var d := NumberToString(x);
    assert NoNoise(d) by {
      NumberToStringShape(x);
      NumeralHasNoNoise(d);
    }
    assert StripNoise(d + "%") == d by {
      StripNoiseOfClean(d);
      StripNoiseConcat(d, "%");
      assert StripNoise("%") == [];
    }
    assert d + "%" != "";
    IntegralRoundTrip(x);
  }

  /** The junk-row test of both listing loaders:
      `x.address || x.price || x.beds || x.baths || x.sqft`. */
  predicate HasContent(address: Value, price: Option<real>, beds: Option<real>, baths: Option<real>, sqft: Option<real>)
  {
    Truthy(address) || TruthyNum(price) || TruthyNum(beds) || TruthyNum(baths) || TruthyNum(sqft)
  }
}
