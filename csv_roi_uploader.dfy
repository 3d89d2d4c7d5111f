/** components/CsvRoiUploader.jsx: an uploaded CSV or spreadsheet is read
    row by row. Each row is classified as FOR SALE or RENTAL, its price,
    tax, size, beds, baths and rent are parsed from dirty text, cheap
    listings are dropped, NOI and cap rate are computed for the listings
    for sale, and the table is ranked by cap rate. The rows are an input;
    reading the file is not part of this model. */
module CsvRoiUploader {
  import opened Text
  import opened Numeral
  import opened Js
  import opened Sorting
  import ListingsTs

  // ---------------------------------------------------------------------
  // The regular expressions the parsers use

  /** The patterns removed with `.replace(/.../g, "")`. */
  datatype Pattern =
    | Currency    // /cad|usd|c\$|us\$|cdn|\$/
    | SqFt        // /sq\.?\s?f(t)?/
    | SquareFeet  // /square\s*feet/

  /** Length of the run of white space at the start of `s`. */
  function SpaceRun(s: string): (n: nat)
    ensures n <= |s|
  {
    if s != [] && IsSpace(s[0]) then 1 + SpaceRun(s[1..]) else 0
  }

  /** Length of the match of `p` at the start of `s`, or 0 when `p` does not
      match there. The alternatives of `Currency` never match at the same
      place, and each optional part of `SqFt` is taken whenever it is
      present, because the character that follows it could not match the
      rest of the pattern otherwise. */
  function MatchLen(p: Pattern, s: string): (n: nat)
    ensures n <= |s|
  {
    match p
    case Currency =>
      if StartsWith(s, "cad") || StartsWith(s, "usd") then 3
      else if StartsWith(s, "c$") then 2
      else if StartsWith(s, "us$") || StartsWith(s, "cdn") then 3
      else if StartsWith(s, "$") then 1
      else 0
    case SqFt =>
      if !StartsWith(s, "sq") then 0
      else
        var dot := if 2 < |s| && s[2] == '.' then 3 else 2;
        var f := if dot < |s| && IsSpace(s[dot]) then dot + 1 else dot;
        if f < |s| && s[f] == 'f' then (if f + 1 < |s| && s[f + 1] == 't' then f + 2 else f + 1)
        else 0
    case SquareFeet =>
      if !StartsWith(s, "square") then 0
      else
        var k := 6 + SpaceRun(s[6..]);
        if StartsWith(s[k..], "feet") then k + 4 else 0
  }

  /** `s.replace(p, "")` with the global flag: matches are removed from left
      to right, scanning on after each one. */
  function ReplaceAll(s: string, p: Pattern): (r: string)
    ensures |r| <= |s|
  {
    if s == [] then []
    else
      var n := MatchLen(p, s);
      if n > 0 then ReplaceAll(s[n..], p) else [s[0]] + ReplaceAll(s[1..], p)
  }

  /** The characters a match of `p` can start with. */
  function Leads(p: Pattern): set<char>
  {
    match p
    case Currency => {'c', 'u', '$'}
    case SqFt => {'s'}
    case SquareFeet => {'s'}
  }

  lemma MatchLead(p: Pattern, s: string)
    requires MatchLen(p, s) > 0
    ensures s != [] && s[0] in Leads(p)
  {
    match p
    case Currency =>
      if StartsWith(s, "cad") { assert s[..3][0] == s[0]; }
      else if StartsWith(s, "usd") { assert s[..3][0] == s[0]; }
      else if StartsWith(s, "c$") { assert s[..2][0] == s[0]; }
      else if StartsWith(s, "us$") { assert s[..3][0] == s[0]; }
      else if StartsWith(s, "cdn") { assert s[..3][0] == s[0]; }
      else { assert s[..1][0] == s[0]; }
    case SqFt =>
      assert s[..2][0] == s[0];
    case SquareFeet =>
      assert s[..6][0] == s[0];
  }

  /** A string with no character a match can start with is left as it is. */
  lemma {:induction false} ReplaceAllClean(s: string, p: Pattern)
    requires forall i :: 0 <= i < |s| ==> s[i] !in Leads(p)
    ensures ReplaceAll(s, p) == s
  {
    if s != [] {
      if MatchLen(p, s) > 0 {
        MatchLead(p, s);
      }
      ReplaceAllClean(s[1..], p);
    }
  }

  /** The characters of `s` that belong to the class `keep`, in order: the
      `.replace(/[...]/g, "")` of a character class. */
  function Keep(s: string, keep: CharClass): (r: string)
    ensures |r| <= |s|
  {
    if s == [] then [] else (if Kept(keep, s[0]) then [s[0]] else []) + Keep(s[1..], keep)
  }

  /** The piece of `Keep` a single character contributes. */
  function KeepChar(c: char, keep: CharClass): string
  {
    if Kept(keep, c) then [c] else []
  }

  lemma KeepCons(c: char, t: string, keep: CharClass)
    ensures Keep([c] + t, keep) == KeepChar(c, keep) + Keep(t, keep)
  {
    assert ([c] + t)[1..] == t;
  }

  lemma ConcatAssoc(x: string, y: string, z: string)
    ensures x + (y + z) == (x + y) + z
  {
  }

  lemma {:induction false} KeepConcat(a: string, b: string, keep: CharClass)
    ensures Keep(a + b, keep) == Keep(a, keep) + Keep(b, keep)
  {
    if a == [] {
      assert a + b == b;
    } else {
      var c, t := a[0], a[1..];
      KeepConcat(t, b, keep);
      assert a == [c] + t;
      assert a + b == [c] + (t + b);
      KeepCons(c, t, keep);
      KeepCons(c, t + b, keep);
      ConcatAssoc(KeepChar(c, keep), Keep(t, keep), Keep(b, keep));
    }
  }

  lemma {:induction false} KeepAll(s: string, keep: CharClass)
    requires forall i :: 0 <= i < |s| ==> Kept(keep, s[i])
    ensures Keep(s, keep) == s
  {
    if s != [] {
      KeepAll(s[1..], keep);
    }
  }

  lemma {:induction false} KeepNone(s: string, keep: CharClass)
    requires forall i :: 0 <= i < |s| ==> !Kept(keep, s[i])
    ensures Keep(s, keep) == []
  {
    if s != [] {
      KeepNone(s[1..], keep);
    }
  }

  /** The character classes the parsers keep. */
  datatype CharClass =
    | NoComma  // [^,]
    | Numeric  // [\d.-]

  predicate Kept(k: CharClass, c: char)
  {
    match k
    case NoComma => NotComma(c)
    case Numeric => NumericChar(c)
  }

  predicate NotComma(c: char)
  {
    c != ','
  }

  /** `[\d.-]` */
  predicate NumericChar(c: char)
  {
    IsDigit(c) || c == '.' || c == '-'
  }

  /** Length of the run of digits at the start of `s`. */
  function DigitRun(s: string): (n: nat)
    ensures n <= |s| && AllDigits(s[..n])
    ensures n < |s| ==> !IsDigit(s[n])
  {
    if s != [] && IsDigit(s[0]) then
      var n := 1 + DigitRun(s[1..]);
      assert s[..n] == [s[0]] + s[1..][..n - 1];
      n
    else 0
  }

  lemma {:induction false} DigitRunAll(s: string)
    requires AllDigits(s)
    ensures DigitRun(s) == |s|
  {
    if s != [] {
      DigitRunAll(s[1..]);
    }
  }

  /** Length of the match of `-?\d+(\.\d+)?` at the start of `s`, or 0. The
      sign is taken when it is there (without it the match would have to
      start with a digit), and the fraction only when a digit follows the
      point. */
  function NumberAt(s: string): (n: nat)
    ensures n <= |s|
  {
    var sign := if s != [] && s[0] == '-' then 1 else 0;
    var w := DigitRun(s[sign..]);
    if w == 0 then 0
    else
      var e := sign + w;
      if e + 1 < |s| && s[e] == '.' && IsDigit(s[e + 1]) then e + 1 + DigitRun(s[e + 1..]) else e
  }

  /** `s.match(/-?\d+(\.\d+)?/)?.[0]`: the leftmost match, if any. */
  function FirstNumber(s: string): (m: Option<string>)
    ensures m.Some? ==> |m.value| > 0
  {
    if s == [] then None
    else
      var n := NumberAt(s);
      if n > 0 then Some(s[..n]) else FirstNumber(s[1..])
  }

  /** Digits, optionally followed by a point and more digits, read as an
      unsigned numeral. */
  lemma UnsignedMatchParses(d: string, f: string)
    requires AllDigits(d) && |d| > 0 && AllDigits(f)
    ensures ParseUnsigned(if f == [] then d else d + "." + f).Some?
  {
    if f == [] {
      ParseAllDigits(d);
    } else {
      var u := d + "." + f;
      var k := DotIndex(u);
      assert u[|d|] == '.';
      assert forall i :: 0 <= i < |d| ==> u[i] == d[i];
      assert k == |d|;
      assert u[..k] == d;
      assert u[k + 1..] == f;
    }
  }

  /** An optional '-' before such a numeral still reads as a number. */
  lemma SignedMatchParses(m: string, u: string)
    requires m == u || m == "-" + u
    requires |u| > 0 && IsDigit(u[0]) && IsDigit(u[|u| - 1]) && ParseUnsigned(u).Some?
    ensures StringToNumber(m).Some?
  {
    assert IsDigit(m[|m| - 1]) by { assert m[|m| - 1] == u[|u| - 1]; }
    assert Trimmed(m);
    NumberOfTrimmed(m);
    if m != u {
      assert m[0] == '-' && m[1..] == u;
    } else {
      assert m[0] != '-' && m[0] != '+';
    }
  }

  lemma PrefixSplit(s: string, j: nat, k: nat)
    requires j <= k <= |s|
    ensures s[..k] == s[..j] + s[j..k]
  {
  }

  lemma PrefixSplitAt(s: string, e: nat, n: nat)
    requires e < n <= |s|
    ensures s[..n] == s[..e] + ([s[e]] + s[e + 1..n])
  {
    assert s[e..n] == [s[e]] + s[e + 1..n];
    PrefixSplit(s, e, n);
  }

  /** The digits of a match before the point. */
  lemma IntegerPart(s: string, sign: nat) returns (d: string)
    requires sign <= |s| && DigitRun(s[sign..]) > 0
    ensures d == s[sign..sign + DigitRun(s[sign..])]
    ensures AllDigits(d) && |d| > 0
  {
    var w := DigitRun(s[sign..]);
    d := s[sign..sign + w];
    assert d == s[sign..][..w];
  }

  /** The parts of a match: an optional sign, digits, and optionally a
      point and more digits. */
  lemma NumberAtShape(s: string) returns (d: string, f: string)
    requires NumberAt(s) > 0
    ensures AllDigits(d) && |d| > 0 && AllDigits(f)
    ensures var u := if f == [] then d else d + "." + f;
      s[..NumberAt(s)] == u || s[..NumberAt(s)] == "-" + u
  {
    var n := NumberAt(s);
    var sign := if s[0] == '-' then 1 else 0;
    d := IntegerPart(s, sign);
    var e := sign + |d|;
    PrefixSplit(s, sign, e);
    var p := s[..sign];
    assert p == [] || p == "-" by {
      if sign == 1 { assert p == [s[0]]; }
    }
    if n == e {
      f := [];
    } else {
      f := s[e + 1..n];
      assert f == s[e + 1..][..DigitRun(s[e + 1..])];
      PrefixSplitAt(s, e, n);
      assert [s[e]] == ".";
      ConcatAssoc(s[..e], [s[e]], f);
      ConcatAssoc(p, d, "." + f);
      ConcatAssoc(d, ".", f);
    }
  }

  /** Whatever `-?\d+(\.\d+)?` matches, `Number` reads as a number. */
  lemma NumberAtParses(s: string)
    requires NumberAt(s) > 0
    ensures StringToNumber(s[..NumberAt(s)]).Some?
  {
    var d, f := NumberAtShape(s);
    var u := if f == [] then d else d + "." + f;
    UnsignedMatchParses(d, f);
    assert u[0] == d[0];
    assert IsDigit(u[|u| - 1]) by {
      if f == [] { assert u[|u| - 1] == d[|d| - 1]; } else { assert u[|u| - 1] == f[|f| - 1]; }
    }
    SignedMatchParses(s[..NumberAt(s)], u);
  }

  lemma {:induction false} FirstNumberParses(s: string)
    requires FirstNumber(s).Some?
    ensures StringToNumber(FirstNumber(s).value).Some?
  {
    if NumberAt(s) > 0 {
      NumberAtParses(s);
    } else {
      FirstNumberParses(s[1..]);
    }
  }

  lemma FirstNumberOfDigits(s: string)
    requires AllDigits(s) && |s| > 0
    ensures FirstNumber(s) == Some(s)
  {
    assert s[0] != '-';
    assert s[0..] == s;
    DigitRunAll(s);
    assert NumberAt(s) == |s|;
    assert s[..|s|] == s;
  }

  /** `const m = t.match(/-?\d+(\.\d+)?/); if (!m) return null; Number(m[0])` */
  function NumberIn(t: string): Option<real>
  {
    match FirstNumber(t)
    case None => None
    case Some(m) => StringToNumber(m)
  }

  /** The value is null exactly when nothing matches: whatever is matched
      reads as a number. */
  lemma NumberInNullOnlyWithoutMatch(t: string)
    ensures NumberIn(t).None? <==> FirstNumber(t).None?
  {
    if FirstNumber(t).Some? {
      FirstNumberParses(t);
    }
  }

  /** A run of digits is read as its value. */
  lemma NumberInDigits(ds: string)
    requires AllDigits(ds) && |ds| > 0
    ensures NumberIn(ds) == Some(DigitsValue(ds) as real)
  {
    FirstNumberOfDigits(ds);
    assert NumeralChars(ds);
    NumeralTrimmed(ds);
    NumberOfTrimmed(ds);
    ParseDigits(ds);
  }

  lemma DigitsConcat(a: string, b: string)
    requires AllDigits(a) && AllDigits(b)
    ensures AllDigits(a + b)
  {
    forall i | 0 <= i < |a + b| ensures IsDigit((a + b)[i]) {
      if i < |a| { assert (a + b)[i] == a[i]; } else { assert (a + b)[i] == b[i - |a|]; }
    }
  }

  // ---------------------------------------------------------------------
  // parseMoney and parseNumber

  /** The text `parseMoney` matches in: lower-cased, currency marks and
      commas removed, trimmed. */
  function MoneyCleaned(s: string): string
  {
    Trim(Keep(ReplaceAll(ToLower(s), Currency), NoComma))
  }

  /** `parseMoney` on the trimmed text of a value that is not a number:
      null when it has no digit, otherwise the first number of its cleaned
      text. */
  function MoneyOfText(s: string): Option<real>
  {
    if s == [] || !HasDigit(s) then None else NumberIn(MoneyCleaned(s))
  }

  /** `parseMoney(v)`: null for `null`, a number as it is, and for anything
      else what its trimmed text reads as. */
  function ParseMoney(v: Value): (r: Option<real>)
    ensures IsNullish(v) ==> r.None?
    ensures v.Num? ==> r == Some(v.x)
  {
    match v
    case Undefined => None
    case Null => None
    case Num(x) => Some(x)
    case Bool(_) => None
    case Str(s) => MoneyOfText(Trim(s))
  }

  lemma TrimKeepsNoDigit(s: string)
    requires !HasDigit(s)
    ensures !HasDigit(Trim(s))
  {
    TrimIsSlice(s);
    var i, j :| 0 <= i <= j <= |s| && Trim(s) == s[i..j] && AllSpace(s[..i]) && AllSpace(s[j..]);
    forall k | 0 <= k < j - i
      ensures !IsDigit(Trim(s)[k])
    {
      assert Trim(s)[k] == s[i + k];
    }
  }

  /** Text without a digit, `true` and `false` among them, is not money. */
  lemma MoneyNeedsDigit(v: Value)
    requires !v.Num? && !HasDigit(ToStr(v))
    ensures ParseMoney(v) == None
  {
    if !IsNullish(v) {
      TrimKeepsNoDigit(ToStr(v));
    }
  }

  /** Text with a digit is null exactly when its cleaned text holds no
      number. */
  lemma MoneyNullOnlyWithoutMatch(s: string)
    requires HasDigit(Trim(s))
    ensures ParseMoney(Str(s)).None? <==> FirstNumber(MoneyCleaned(Trim(s))).None?
  {
    assert ParseMoney(Str(s)) == NumberIn(MoneyCleaned(Trim(s)));
    NumberInNullOnlyWithoutMatch(MoneyCleaned(Trim(s)));
  }

  /** A string cannot start with a prefix whose first character differs
      from its own. */
  lemma NotStartsWithOther(s: string, prefix: string)
    requires s != [] && prefix != [] && s[0] != prefix[0]
    ensures !StartsWith(s, prefix)
  {
    if |prefix| <= |s| {
      assert s[..|prefix|][0] == s[0];
    }
  }

  /** At a '$' the currency pattern matches that one character. */
  lemma DollarMatch(s: string)
    requires s != [] && s[0] == '$'
    ensures MatchLen(Currency, s) == 1
  {
    NotStartsWithOther(s, "cad");
    NotStartsWithOther(s, "usd");
    NotStartsWithOther(s, "c$");
    NotStartsWithOther(s, "us$");
    NotStartsWithOther(s, "cdn");
    assert s[..1] == "$";
  }

  /** A leading '$' is removed and the rest, holding no currency mark, is
      left as it is. */
  lemma StripDollarSign(s: string)
    requires s != [] && s[0] == '$'
    requires forall i :: 1 <= i < |s| ==> s[i] !in Leads(Currency)
    ensures ReplaceAll(s, Currency) == s[1..]
  {
    DollarMatch(s);
    ReplaceAllClean(s[1..], Currency);
  }

  lemma DropComma(a: string, b: string)
    requires AllDigits(a) && AllDigits(b)
    ensures Keep(a + "," + b, NoComma) == a + b
  {
    ConcatAssoc(a, [','], b);
    KeepConcat(a, [','] + b, NoComma);
    KeepCons(',', b, NoComma);
    assert KeepChar(',', NoComma) + b == b;
    KeepAll(a, NoComma);
    KeepAll(b, NoComma);
  }

  /** Cleaning "$" + a + "," + b for digit strings a and b leaves a + b. */
  lemma CleanDollarThousands(a: string, b: string)
    requires AllDigits(a) && AllDigits(b)
    ensures MoneyCleaned("$" + a + "," + b) == a + b
  {
    var t := a + "," + b;
    var s := "$" + t;
    assert s == "$" + a + "," + b;
    assert forall i :: 0 <= i < |t| ==> t[i] == ',' || IsDigit(t[i]) by {
      forall i | 0 <= i < |t| ensures t[i] == ',' || IsDigit(t[i]) {
        if i < |a| { assert t[i] == a[i]; }
        else if i > |a| { assert t[i] == b[i - |a| - 1]; }
      }
    }
    assert forall i :: 1 <= i < |s| ==> s[i] == t[i - 1];
    assert ToLower(s) == s;
    StripDollarSign(s);
    assert s[1..] == t;
    DropComma(a, b);
    DigitsConcat(a, b);
    assert NumeralChars(a + b);
    if a + b != [] {
      NumeralTrimmed(a + b);
    }
    TrimOfTrimmed(a + b);
  }

  lemma MoneyOfTrimmed(s: string)
    requires Trimmed(s)
    ensures ParseMoney(Str(s)) == MoneyOfText(s)
  {
    TrimOfTrimmed(s);
  }

  lemma MoneyOfDigitText(s: string, t: string)
    requires s != [] && HasDigit(s) && MoneyCleaned(s) == t
    ensures MoneyOfText(s) == NumberIn(t)
  {
  }

  /** Text with a digit reads as what its cleaned form reads as. */
  lemma MoneyOfCleaned(s: string, t: string, x: real)
    requires Trimmed(s) && HasDigit(s)
    requires MoneyCleaned(s) == t && NumberIn(t) == Some(x)
    ensures ParseMoney(Str(s)) == Some(x)
  {
    MoneyOfTrimmed(s);
    MoneyOfDigitText(s, t);
  }

  /** A dollar amount with a thousands comma, such as "$450,000", reads as
      its digits without the comma. */
  lemma MoneyDollarThousands(a: string, b: string)
    requires AllDigits(a) && AllDigits(b) && |a| > 0
    ensures ParseMoney(Str("$" + a + "," + b)) == Some(DigitsValue(a + b) as real)
  {
    var s := "$" + a + "," + b;
    assert !IsSpace(s[0]);
    assert !IsSpace(s[|s| - 1]) by {
      if b == [] { assert s[|s| - 1] == ','; } else { assert s[|s| - 1] == b[|b| - 1]; }
    }
    assert IsDigit(s[1]) by { assert s[1] == a[0]; }
    CleanDollarThousands(a, b);
    DigitsConcat(a, b);
    NumberInDigits(a + b);
    MoneyOfCleaned(s, a + b, DigitsValue(a + b) as real);
  }

  /** The text `parseNumber` matches in: lower-cased, square-feet units
      removed, then every character other than a digit, '.' or '-'. */
  function NumberCleaned(s: string): string
  {
    Trim(Keep(ReplaceAll(ReplaceAll(ToLower(s), SqFt), SquareFeet), Numeric))
  }

  /** `parseNumber(v)`: null for `null`, a number as it is, and for anything
      else the first number of its cleaned text. */
  function ParseNumber(v: Value): (r: Option<real>)
    ensures IsNullish(v) ==> r.None?
    ensures v.Num? ==> r == Some(v.x)
  {
    match v
    case Undefined => None
    case Null => None
    case Num(x) => Some(x)
    case Bool(_) => None
    case Str(s) => NumberIn(NumberCleaned(s))
  }

  /** Lower-casing leaves digits alone. */
  lemma LowerOfDigits(a: string)
    requires AllDigits(a)
    ensures ToLower(a) == a
  {
  }

  lemma LowerAroundDigits(a: string, w: string, b: string)
    requires AllDigits(a) && AllDigits(b)
    ensures ToLower(a + w + b) == a + ToLower(w) + b
  {
    LowerConcat(a + w, b);
    LowerConcat(a, w);
    LowerOfDigits(a);
    LowerOfDigits(b);
  }

  /** The character filter keeps the digits and drops the words. */
  lemma KeepAroundWords(a: string, lw: string, b: string)
    requires AllDigits(a) && AllDigits(b)
    requires forall i :: 0 <= i < |lw| ==> !NumericChar(lw[i])
    ensures Keep(a + lw + b, Numeric) == a + b
  {
    KeepConcat(a + lw, b, Numeric);
    KeepConcat(a, lw, Numeric);
    KeepAll(a, Numeric);
    KeepAll(b, Numeric);
    KeepNone(lw, Numeric);
    assert a + [] == a;
  }

  /** Cleaning drops words without digits, '.', '-' or the letter s from
      between two digit strings. */
  lemma CleanRunsTogether(a: string, w: string, b: string)
    requires AllDigits(a) && AllDigits(b) && |a| > 0
    requires forall i :: 0 <= i < |w| ==> !NumericChar(w[i]) && LowerChar(w[i]) != 's'
    ensures NumberCleaned(a + w + b) == a + b
  {
    var lw := ToLower(w);
    var l := a + lw + b;
    LowerAroundDigits(a, w, b);
    assert forall i :: 0 <= i < |lw| ==> !NumericChar(lw[i]) && lw[i] != 's';
    assert forall i :: 0 <= i < |l| ==> l[i] != 's' by {
      forall i | 0 <= i < |l| ensures l[i] != 's' {
        if i < |a| { assert l[i] == a[i]; }
        else if i < |a| + |lw| { assert l[i] == lw[i - |a|]; }
        else { assert l[i] == b[i - |a| - |lw|]; }
      }
    }
    ReplaceAllClean(l, SqFt);
    ReplaceAllClean(l, SquareFeet);
    KeepAroundWords(a, lw, b);
    DigitsConcat(a, b);
    assert NumeralChars(a + b);
    NumeralTrimmed(a + b);
    TrimOfTrimmed(a + b);
  }

  lemma NumberOfText(s: string)
    ensures ParseNumber(Str(s)) == NumberIn(NumberCleaned(s))
  {
  }

  /** Words between two numbers are dropped and the digits run together:
      "3 bed 2" reads as 32. */
  lemma NumbersRunTogether(a: string, w: string, b: string)
    requires AllDigits(a) && AllDigits(b) && |a| > 0
    requires forall i :: 0 <= i < |w| ==> !NumericChar(w[i]) && LowerChar(w[i]) != 's'
    ensures ParseNumber(Str(a + w + b)) == Some(DigitsValue(a + b) as real)
  {
    CleanRunsTogether(a, w, b);
    DigitsConcat(a, b);
    NumberInDigits(a + b);
    NumberOfText(a + w + b);
  }

  /** The digits of a suffix are digits of the whole. */
  lemma SuffixNeedsDigit(s: string, n: nat)
    requires n <= |s| && !HasDigit(s)
    ensures !HasDigit(s[n..])
  {
    forall i | 0 <= i < |s| - n ensures !IsDigit(s[n..][i]) {
      assert s[n..][i] == s[n + i];
    }
  }

  /** Lower-casing makes no digit. */
  lemma LowerNeedsDigit(s: string)
    requires !HasDigit(s)
    ensures !HasDigit(ToLower(s))
  {
    forall i | 0 <= i < |s| ensures !IsDigit(ToLower(s)[i]) {
      assert !IsDigit(s[i]);
    }
  }

  /** Removing the matches of a pattern makes no digit. */
  lemma {:induction false} ReplaceAllNeedsDigit(s: string, p: Pattern)
    requires !HasDigit(s)
    ensures !HasDigit(ReplaceAll(s, p))
  {
    if s != [] {
      var n := MatchLen(p, s);
      if n > 0 {
        SuffixNeedsDigit(s, n);
        ReplaceAllNeedsDigit(s[n..], p);
      } else {
        SuffixNeedsDigit(s, 1);
        ReplaceAllNeedsDigit(s[1..], p);
        var r := ReplaceAll(s[1..], p);
        forall i | 0 <= i < |[s[0]] + r| ensures !IsDigit(([s[0]] + r)[i]) {
          if i > 0 { assert ([s[0]] + r)[i] == r[i - 1]; }
        }
      }
    }
  }

  /** Keeping a class of characters makes no digit. */
  lemma {:induction false} KeepNeedsDigit(s: string, keep: CharClass)
    requires !HasDigit(s)
    ensures !HasDigit(Keep(s, keep))
  {
    if s != [] {
      SuffixNeedsDigit(s, 1);
      KeepNeedsDigit(s[1..], keep);
      var h := KeepChar(s[0], keep);
      var r := Keep(s[1..], keep);
      assert Keep(s, keep) == h + r;
      forall i | 0 <= i < |h + r| ensures !IsDigit((h + r)[i]) {
        if i < |h| { assert (h + r)[i] == s[0]; } else { assert (h + r)[i] == r[i - |h|]; }
      }
    }
  }

  /** With no digit there is no number to match. */
  lemma {:induction false} FirstNumberNeedsDigit(s: string)
    requires !HasDigit(s)
    ensures FirstNumber(s) == None
  {
    if s != [] {
      var sign := if s[0] == '-' then 1 else 0;
      if sign < |s| {
        assert s[sign..][0] == s[sign];
      }
      assert NumberAt(s) == 0;
      SuffixNeedsDigit(s, 1);
      FirstNumberNeedsDigit(s[1..]);
    }
  }

  /** Text without a digit, `true` and `false` among them, reads as null:
      cleaning only removes characters, and the number match needs a
      digit. */
  lemma NumberNeedsDigit(v: Value)
    requires !v.Num? && !HasDigit(ToStr(v))
    ensures ParseNumber(v) == None
  {
    if v.Str? {
      var s := v.s;
      assert ToStr(v) == s;
      LowerNeedsDigit(s);
      ReplaceAllNeedsDigit(ToLower(s), SqFt);
      ReplaceAllNeedsDigit(ReplaceAll(ToLower(s), SqFt), SquareFeet);
      KeepNeedsDigit(ReplaceAll(ReplaceAll(ToLower(s), SqFt), SquareFeet), Numeric);
      TrimKeepsNoDigit(Keep(ReplaceAll(ReplaceAll(ToLower(s), SqFt), SquareFeet), Numeric));
      FirstNumberNeedsDigit(NumberCleaned(s));
    }
  }

  // ---------------------------------------------------------------------
  // getUrlFromRow and getListingType

  const URL_KEYS: seq<string> := ["Listing_URL", "ListingURL", "URL", "Url", "url", "Link", "link"]

  predicate IsUrl(s: string)
  {
    StartsWith(s, "http://") || StartsWith(s, "https://")
  }

  /** A candidate the loop returns: a non-empty string that is a web
      address once trimmed. */
  predicate Qualifies(c: Value)
  {
    c.Str? && c.s != [] && IsUrl(Trim(c.s))
  }

  /** A trimmed text shorter than "http://" is no web address. */
  lemma ShortIsNoUrl(t: string)
    requires Trimmed(t) && |t| < 7
    ensures !IsUrl(Trim(t))
  {
    TrimOfTrimmed(t);
  }

  /** A trimmed text that does not start with 'h' is no web address. */
  lemma NoUrlWithoutH(t: string)
    requires Trimmed(t) && t != [] && t[0] != 'h'
    ensures !IsUrl(Trim(t))
  {
    TrimOfTrimmed(t);
    NotStartsWithOther(t, "http://");
    NotStartsWithOther(t, "https://");
  }

  /** `Qualifies` is the loop's test, `c` truthy and `String(c).trim()` a web
      address: the text of a number or a boolean never starts with "http". */
  lemma QualifiesAsWritten(c: Value)
    ensures Qualifies(c) <==> Truthy(c) && IsUrl(Trim(ToStr(c)))
  {
    match c
    case Num(x) =>
      NumberToStringShape(x);
      NoUrlWithoutH(NumberToString(x));
    case Bool(b) =>
      if b { ShortIsNoUrl("true"); } else { ShortIsNoUrl("false"); }
    case _ =>
  }

  /** The loop over the candidates, returning at the first that qualifies. */
  function FirstUrl(cs: seq<Value>): (u: Option<string>)
    ensures u.Some? ==> IsUrl(u.value)
  {
    if cs == [] then None
    else if Qualifies(cs[0]) then Some(Trim(cs[0].s))
    else FirstUrl(cs[1..])
  }

  /** `getUrlFromRow(r)` */
  function GetUrlFromRow(r: Row): (u: Option<string>)
    ensures u.Some? ==> IsUrl(u.value)
    ensures u.None? <==> forall k :: 0 <= k < |URL_KEYS| ==> !Qualifies(Get(r, URL_KEYS[k]))
  {
    FirstUrlNone(Fields(r, URL_KEYS));
    FirstUrl(Fields(r, URL_KEYS))
  }

  /** No address is found exactly when no candidate qualifies. */
  lemma {:induction false} FirstUrlNone(cs: seq<Value>)
    ensures FirstUrl(cs).None? <==> forall k :: 0 <= k < |cs| ==> !Qualifies(cs[k])
  {
    if cs != [] && !Qualifies(cs[0]) {
      FirstUrlNone(cs[1..]);
      assert forall k :: 1 <= k < |cs| ==> cs[k] == cs[1..][k - 1];
    }
  }

  /** The address found is the trimmed first candidate that qualifies. */
  lemma {:induction false} FirstUrlFirst(cs: seq<Value>, k: nat)
    requires k < |cs| && Qualifies(cs[k])
    requires forall j :: 0 <= j < k ==> !Qualifies(cs[j])
    ensures FirstUrl(cs) == Some(Trim(cs[k].s))
  {
    if k > 0 {
      assert !Qualifies(cs[0]);
      assert cs[1..][k - 1] == cs[k];
      assert forall j :: 0 <= j < k - 1 ==> cs[1..][j] == cs[j + 1];
      FirstUrlFirst(cs[1..], k - 1);
    }
  }

  datatype ListingType = ForSale | Rental

  const TYPE_KEYS: seq<string> := ["Property_Type", "PropertyType", "type"]
  const LEASE_KEYS: seq<string> := ["LeaseAmount", "leaseAmount", "MonthlyRent", "monthlyRent", "Rent", "rent"]

  /** `String(row.Property_Type ?? row.PropertyType ?? row.type ?? "").toLowerCase()` */
  function TypeText(r: Row): string
  {
    ToLower(ToStr(Coalesce(Fields(r, TYPE_KEYS) + [Str("")])))
  }

  /** `getListingType(row)` */
  function GetListingType(r: Row): (t: ListingType)
    ensures Contains(TypeText(r), "lease") || Contains(TypeText(r), "rent") ==> t == Rental
    ensures !IsNullish(Get(r, "LeaseAmountFrequency")) ==> t == Rental
  {
    var t := TypeText(r);
    if !IsNullish(Coalesce(Fields(r, LEASE_KEYS))) || !IsNullish(Get(r, "LeaseAmountFrequency"))
       || Contains(t, "rent") || Contains(t, "rental") || Contains(t, "lease")
    then Rental
    else ForSale
  }

  lemma RentalContainsRent(t: string)
    requires Contains(t, "rental")
    ensures Contains(t, "rent")
  {
    var i :| 0 <= i <= |t| - 6 && OccursAt(t, "rental", i);
    assert t[i..i + 4] == t[i..i + 6][..4];
    assert OccursAt(t, "rent", i);
  }

  /** A row is a rental exactly when one of the lease or rent cells is
      present (an empty cell counts), a lease frequency is present, or the
      type text mentions "rent" or "lease". */
  lemma ListingTypeRental(r: Row)
    ensures GetListingType(r) == Rental <==>
      (exists k :: 0 <= k < |LEASE_KEYS| && !IsNullish(Get(r, LEASE_KEYS[k])))
      || !IsNullish(Get(r, "LeaseAmountFrequency"))
      || Contains(TypeText(r), "rent") || Contains(TypeText(r), "lease")
  {
    CoalesceNullish(Fields(r, LEASE_KEYS));
    if Contains(TypeText(r), "rental") {
      RentalContainsRent(TypeText(r));
    }
  }

  // ---------------------------------------------------------------------
  // calcNoiAndCapRate

  datatype NoiCap = NoiCap(noiAnnual: Option<real>, capRate: Option<real>)

  /** A year of tax, insurance, maintenance, vacancy and management. Tax
      falls back to 1.2% of the price and insurance to 1200 only when they
      are null. */
  function OperatingExpenses(price: real, gross: real, annualTax: Option<real>, annualInsurance: Option<real>,
                             maintPct: real, vacancyPct: real, mgmtPct: real): real
  {
    (if annualTax.Some? then annualTax.value else price * 0.012)
    + (if annualInsurance.Some? then annualInsurance.value else 1200.0)
    + price * (maintPct / 100.0) + gross * (vacancyPct / 100.0) + gross * (mgmtPct / 100.0)
  }

  /** `calcNoiAndCapRate(...)`: both null when the price or the rent is
      falsy (null or 0); otherwise a year of rent less the operating
      expenses, and that NOI as a percentage of the price. */
  function CalcNoiAndCapRate(purchasePrice: Option<real>, monthlyRent: Option<real>, annualTax: Option<real>,
                             annualInsurance: Option<real>, maintPct: real, vacancyPct: real, mgmtPct: real): (nc: NoiCap)
    ensures nc.noiAnnual.None? <==> !TruthyNum(purchasePrice) || !TruthyNum(monthlyRent)
    ensures nc.capRate.None? <==> nc.noiAnnual.None?
  {
    if !TruthyNum(purchasePrice) || !TruthyNum(monthlyRent) then NoiCap(None, None)
    else
      var gross := monthlyRent.value * 12.0;
      var noi := gross - OperatingExpenses(purchasePrice.value, gross, annualTax, annualInsurance, maintPct, vacancyPct, mgmtPct);
      NoiCap(Some(noi), Some(noi / purchasePrice.value * 100.0))
  }

  /** The cap rate is the NOI as a percentage of the price, so for a
      positive price it has the sign of the NOI. */
  lemma CapRateIsNoiShare(price: real, rent: real, annualTax: Option<real>, annualInsurance: Option<real>,
                          maintPct: real, vacancyPct: real, mgmtPct: real)
    requires price != 0.0 && rent != 0.0
    ensures var nc := CalcNoiAndCapRate(Some(price), Some(rent), annualTax, annualInsurance, maintPct, vacancyPct, mgmtPct);
      nc.capRate.value * price == nc.noiAnnual.value * 100.0
      && (price > 0.0 ==> (nc.capRate.value > 0.0 <==> nc.noiAnnual.value > 0.0))
  {
    var nc := CalcNoiAndCapRate(Some(price), Some(rent), annualTax, annualInsurance, maintPct, vacancyPct, mgmtPct);
    var noi := nc.noiAnnual.value;
    assert nc.capRate.value == noi / price * 100.0;
    assert noi / price * price == noi;
    if price > 0.0 {
      assert noi > 0.0 ==> noi / price > 0.0;
      assert noi / price > 0.0 ==> noi > 0.0;
    }
  }

  /** The tax default applies only to a null tax: a tax of 0 is kept, and
      a null tax costs 1.2% of the price. */
  lemma TaxDefaultsOnlyWhenNull(price: real, rent: real, tax: real, annualInsurance: Option<real>,
                                maintPct: real, vacancyPct: real, mgmtPct: real)
    requires price != 0.0 && rent != 0.0
    ensures CalcNoiAndCapRate(Some(price), Some(rent), Some(tax), annualInsurance, maintPct, vacancyPct, mgmtPct).noiAnnual.value
            == CalcNoiAndCapRate(Some(price), Some(rent), Some(0.0), annualInsurance, maintPct, vacancyPct, mgmtPct).noiAnnual.value - tax
    ensures CalcNoiAndCapRate(Some(price), Some(rent), None, annualInsurance, maintPct, vacancyPct, mgmtPct).noiAnnual.value
            == CalcNoiAndCapRate(Some(price), Some(rent), Some(0.0), annualInsurance, maintPct, vacancyPct, mgmtPct).noiAnnual.value - price * 0.012
  {
  }

  /** Each extra dollar of monthly rent adds twelve dollars a year, less the
      vacancy and management shares. */
  lemma RentRaisesNoi(price: real, rent1: real, rent2: real, annualTax: Option<real>, annualInsurance: Option<real>,
                      maintPct: real, vacancyPct: real, mgmtPct: real)
    requires price != 0.0 && rent1 != 0.0 && rent2 != 0.0
    ensures CalcNoiAndCapRate(Some(price), Some(rent2), annualTax, annualInsurance, maintPct, vacancyPct, mgmtPct).noiAnnual.value
            - CalcNoiAndCapRate(Some(price), Some(rent1), annualTax, annualInsurance, maintPct, vacancyPct, mgmtPct).noiAnnual.value
            == 12.0 * (rent2 - rent1) * (1.0 - vacancyPct / 100.0 - mgmtPct / 100.0)
  {
    var g1 := rent1 * 12.0;
    var g2 := rent2 * 12.0;
    assert g2 * (vacancyPct / 100.0) - g1 * (vacancyPct / 100.0) == (g2 - g1) * (vacancyPct / 100.0);
    assert g2 * (mgmtPct / 100.0) - g1 * (mgmtPct / 100.0) == (g2 - g1) * (mgmtPct / 100.0);
  }

  // ---------------------------------------------------------------------
  // The analysis of one row

  /** The rent estimate rule the page starts with. */
  datatype RentRule = RentRule(base: real, perBed: real, fallbackBeds: real)
  const DEFAULT_RENT_RULE: RentRule := RentRule(1200.0, 700.0, 2.0)

  /** The operating assumptions the page starts with. */
  datatype Assumptions = Assumptions(insuranceAnnual: real, maintPct: real, vacancyPct: real, mgmtPct: real)
  const DEFAULT_ASSUMPTIONS: Assumptions := Assumptions(1200.0, 1.0, 5.0, 8.0)

  /** The least price a listing for sale must have to be shown. */
  const MIN_PRICE: real := 250000.0

  /** One row of the ranking table. */
  datatype Analyzed = Analyzed(
    url: Option<string>,
    listingType: ListingType,
    location: Option<string>,
    propertyType: Option<string>,
    purchasePrice: Option<real>,
    squareFeet: Option<real>,
    annualTax: Option<real>,
    beds: Option<real>,
    baths: Option<real>,
    monthlyRent: Option<real>,
    noiAnnual: Option<real>,
    capRate: Option<real>)

  const LOCATION_KEYS: seq<string> := ["Location", "location"]
  const PROPERTY_TYPE_KEYS: seq<string> := ["Property_Type", "propertyType", "type"]
  const PRICE_KEYS: seq<string> := ["Price_Listing", "price", "ListPrice", "Price_Number", "PurchasePrice"]
  const SQFT_KEYS: seq<string> := ["Property_Sqft", "Square_Feet", "sqft", "squareFeet"]
  const TAX_KEYS: seq<string> := ["Property_Tax", "Property_Tax_Annual", "tax", "TaxAnnualAmount"]
  const BED_KEYS: seq<string> := ["Bed", "beds", "BedroomsTotal", "bedrooms"]
  const BATH_KEYS: seq<string> := ["Bath", "baths", "BathroomsTotalInteger", "bathrooms"]
  const RENT_KEYS: seq<string> := ["MonthlyRent", "Rent", "LeaseAmount", "monthlyRent", "rent"]

  /** `String(r[k1] ?? r[k2] ?? ... ?? "").trim()` */
  function TextOf(r: Row, keys: seq<string>): string
  {
    Trim(ToStr(Coalesce(Fields(r, keys) + [Str("")])))
  }

  /** `s || null` for a string. */
  function NonEmpty(s: string): Option<string>
  {
    if s == [] then None else Some(s)
  }

  /** `parseMoney(r[k1]) ?? parseMoney(r[k2]) ?? ...` */
  function FirstMoney(r: Row, keys: seq<string>): Option<real>
  {
    if keys == [] then None
    else
      match ParseMoney(Get(r, keys[0]))
      case Some(x) => Some(x)
      case None => FirstMoney(r, keys[1..])
  }

  lemma {:induction false} FirstMoneyAllMissing(r: Row, keys: seq<string>)
    requires forall k :: 0 <= k < |keys| ==> IsNullish(Get(r, keys[k]))
    ensures FirstMoney(r, keys) == None
  {
    if keys != [] {
      assert forall k :: 1 <= k < |keys| ==> keys[k] == keys[1..][k - 1];
      FirstMoneyAllMissing(r, keys[1..]);
    }
  }

  /** `Math.max(0, Math.round(rentRule.base + bedCount * rentRule.perBed))` */
  function BedEstimate(beds: Option<real>, rule: RentRule): real
  {
    ListingsTs.EstimateMonthlyRent(beds, rule.base, rule.perBed, rule.fallbackBeds)
  }

  /** The purchase price read for a listing for sale. */
  function PriceOf(r: Row): Option<real>
  {
    ParseMoney(Coalesce(Fields(r, PRICE_KEYS)))
  }

  /** The body of the loop for one row: `None` where it `continue`s without
      pushing. */
  function AnalyzeRow(r: Row, rule: RentRule, asm: Assumptions): (a: Option<Analyzed>)
    ensures a.Some? ==> a.value.listingType == GetListingType(r)
    ensures GetListingType(r) == Rental ==> a.Some?
    ensures GetListingType(r) == ForSale ==> (a.Some? <==> PriceOf(r).Some? && PriceOf(r).value >= MIN_PRICE)
    ensures a.Some? ==>
      && a.value.url == GetUrlFromRow(r)
      && a.value.location == NonEmpty(TextOf(r, LOCATION_KEYS))
      && a.value.propertyType == NonEmpty(TextOf(r, PROPERTY_TYPE_KEYS))
    ensures a.Some? ==>
      && a.value.squareFeet == ParseNumber(Coalesce(Fields(r, SQFT_KEYS)))
      && a.value.annualTax == ParseMoney(Coalesce(Fields(r, TAX_KEYS)))
      && a.value.beds == ParseNumber(Coalesce(Fields(r, BED_KEYS)))
      && a.value.baths == ParseNumber(Coalesce(Fields(r, BATH_KEYS)))
    ensures a.Some? && a.value.listingType == Rental ==> a.value.monthlyRent == FirstMoney(r, RENT_KEYS)
    ensures a.Some? && a.value.listingType == ForSale ==> a.value.purchasePrice == PriceOf(r)
  {
    var kind := GetListingType(r);
    var price := if kind == ForSale then PriceOf(r) else None;
    if kind == ForSale && (price.None? || price.value < MIN_PRICE) then None
    else
      var url := GetUrlFromRow(r);
      var location := NonEmpty(TextOf(r, LOCATION_KEYS));
      var propertyType := NonEmpty(TextOf(r, PROPERTY_TYPE_KEYS));
      var squareFeet := ParseNumber(Coalesce(Fields(r, SQFT_KEYS)));
      var annualTax := ParseMoney(Coalesce(Fields(r, TAX_KEYS)));
      var beds := ParseNumber(Coalesce(Fields(r, BED_KEYS)));
      var baths := ParseNumber(Coalesce(Fields(r, BATH_KEYS)));
      var rentFromFile := FirstMoney(r, RENT_KEYS);
      var monthlyRent := if rentFromFile.Some? then rentFromFile.value else BedEstimate(beds, rule);
      if kind == Rental then
        Some(Analyzed(url, kind, location, propertyType, None, squareFeet, annualTax, beds, baths,
                      rentFromFile, None, None))
      else
        var nc := CalcNoiAndCapRate(price, Some(monthlyRent), annualTax, Some(asm.insuranceAnnual),
                                    asm.maintPct, asm.vacancyPct, asm.mgmtPct);
        Some(Analyzed(url, kind, location, propertyType, price, squareFeet, annualTax, beds, baths,
                      Some(monthlyRent), nc.noiAnnual, nc.capRate))
  }

  /** What every row of the table satisfies. A listing for sale costs at
      least 250000, its rent is the bed estimate, and its NOI and cap rate
      come from that rent. A rental has no price, NOI or cap rate. */
  predicate Consistent(a: Analyzed, rule: RentRule, asm: Assumptions)
  {
    (a.listingType == ForSale ==>
      a.purchasePrice.Some? && a.purchasePrice.value >= MIN_PRICE
      && a.monthlyRent == Some(BedEstimate(a.beds, rule))
      && NoiCap(a.noiAnnual, a.capRate)
         == CalcNoiAndCapRate(a.purchasePrice, a.monthlyRent, a.annualTax, Some(asm.insuranceAnnual),
                              asm.maintPct, asm.vacancyPct, asm.mgmtPct))
    && (a.listingType == Rental ==> a.purchasePrice.None? && a.noiAnnual.None? && a.capRate.None?)
  }

  /** A listing for sale never uses a rent from the file: each rent column
      the loop reads is one of the lease columns, and a present lease column
      makes the row a rental. */
  lemma ForSaleHasNoFileRent(r: Row)
    requires GetListingType(r) == ForSale
    ensures FirstMoney(r, RENT_KEYS) == None
  {
    ForSaleHasNoLease(r);
    LeaseColumnsMissing(r);
  }

  lemma ForSaleHasNoLease(r: Row)
    requires GetListingType(r) == ForSale
    ensures IsNullish(Coalesce(Fields(r, LEASE_KEYS)))
  {
  }

  lemma LeaseColumnsMissing(r: Row)
    requires IsNullish(Coalesce(Fields(r, LEASE_KEYS)))
    ensures FirstMoney(r, RENT_KEYS) == None
  {
    var vs := Fields(r, LEASE_KEYS);
    CoalesceNullish(vs);
    assert forall k :: 0 <= k < |LEASE_KEYS| ==> IsNullish(Get(r, LEASE_KEYS[k]));
    assert RENT_KEYS[0] == LEASE_KEYS[2] && RENT_KEYS[1] == LEASE_KEYS[4] && RENT_KEYS[2] == LEASE_KEYS[0]
      && RENT_KEYS[3] == LEASE_KEYS[3] && RENT_KEYS[4] == LEASE_KEYS[5];
    FirstMoneyAllMissing(r, RENT_KEYS);
  }

  lemma AnalyzeRowConsistent(r: Row, rule: RentRule, asm: Assumptions)
    requires AnalyzeRow(r, rule, asm).Some?
    ensures Consistent(AnalyzeRow(r, rule, asm).value, rule, asm)
  {
    if GetListingType(r) == ForSale {
      ForSaleHasNoFileRent(r);
    }
  }

  // ---------------------------------------------------------------------
  // The `analyzed` table

  /** The rows the loop pushes for `rows`, in order, before the sort. */
  function Collect(rows: seq<Row>, rule: RentRule, asm: Assumptions): (out: seq<Analyzed>)
    ensures |out| <= |rows|
  {
    if rows == [] then []
    else
      var last := rows[|rows| - 1];
      var init := Collect(rows[..|rows| - 1], rule, asm);
      match AnalyzeRow(last, rule, asm)
      case None => init
      case Some(a) => init + [a]
  }

  /** Every row the loop pushes is consistent with the rent rule and the
      assumptions. */
  lemma {:induction false} CollectConsistent(rows: seq<Row>, rule: RentRule, asm: Assumptions)
    ensures forall j :: 0 <= j < |Collect(rows, rule, asm)| ==> Consistent(Collect(rows, rule, asm)[j], rule, asm)
  {
    if rows != [] {
      var last := rows[|rows| - 1];
      var init := Collect(rows[..|rows| - 1], rule, asm);
      CollectConsistent(rows[..|rows| - 1], rule, asm);
      if AnalyzeRow(last, rule, asm).Some? {
        var a := AnalyzeRow(last, rule, asm).value;
        AnalyzeRowConsistent(last, rule, asm);
        AppendConsistent(init, a, rule, asm);
      }
    }
  }

  lemma AppendConsistent(init: seq<Analyzed>, a: Analyzed, rule: RentRule, asm: Assumptions)
    requires forall j :: 0 <= j < |init| ==> Consistent(init[j], rule, asm)
    requires Consistent(a, rule, asm)
    ensures forall j :: 0 <= j < |init + [a]| ==> Consistent((init + [a])[j], rule, asm)
  {
    assert forall j :: 0 <= j < |init| ==> (init + [a])[j] == init[j];
  }

  function CapRateOf(a: Analyzed): Option<real>
  {
    a.capRate
  }

  /** What the loop pushes for a row: its analysis, or nothing for a
      skipped row. */
  function Pushed(a: Option<Analyzed>): seq<Analyzed>
  {
    if a.Some? then [a.value] else []
  }

  /** One more row adds its analysis, if any, at the end. */
  lemma CollectStep(rows: seq<Row>, i: nat, rule: RentRule, asm: Assumptions)
    requires i < |rows|
    ensures Collect(rows[..i + 1], rule, asm)
      == Collect(rows[..i], rule, asm) + Pushed(AnalyzeRow(rows[i], rule, asm))
  {
    assert rows[..i + 1][..i] == rows[..i];
  }

  /** Sorting by cap rate keeps every row and puts rows without a cap rate
      after all rows with one. */
  lemma SortedTable(acc: seq<Analyzed>, rule: RentRule, asm: Assumptions)
    requires forall j :: 0 <= j < |acc| ==> Consistent(acc[j], rule, asm)
    ensures var out := SortDesc(acc, CapRateOf);
      && SortedDesc(out, CapRateOf) && |out| == |acc|
      && (forall j :: 0 <= j < |out| ==> Consistent(out[j], rule, asm))
      && (forall i, j :: 0 <= i < j < |out| && out[j].capRate.Some? ==> out[i].capRate.Some?)
  {
    SortDescCorrect(acc, CapRateOf);
    var out := SortDesc(acc, CapRateOf);
    forall j | 0 <= j < |out|
      ensures Consistent(out[j], rule, asm)
    {
      assert out[j] in multiset(acc);
      var k :| 0 <= k < |acc| && acc[k] == out[j];
    }
    forall i, j | 0 <= i < j < |out| && out[j].capRate.Some?
      ensures out[i].capRate.Some?
    {
      assert KeyGe(CapRateOf(out[i]), CapRateOf(out[j]));
    }
  }

  /** The `analyzed` memo: a row is pushed per row the loop does not skip,
      then the table is sorted by cap rate, highest first, rows without a
      cap rate last and ties in file order. */
  method Analyze(rows: seq<Row>, rule: RentRule, asm: Assumptions) returns (out: seq<Analyzed>)
    ensures out == SortDesc(Collect(rows, rule, asm), CapRateOf)
    ensures SortedDesc(out, CapRateOf) && |out| <= |rows|
    ensures forall j :: 0 <= j < |out| ==> Consistent(out[j], rule, asm)
    ensures forall i, j :: 0 <= i < j < |out| && out[j].capRate.Some? ==> out[i].capRate.Some?
  {
    var acc: seq<Analyzed> := [];
    for i := 0 to |rows|
      invariant acc == Collect(rows[..i], rule, asm)
    {
      CollectStep(rows, i, rule, asm);
      acc := acc + Pushed(AnalyzeRow(rows[i], rule, asm));
    }
    assert rows[..|rows|] == rows;
    CollectConsistent(rows, rule, asm);
    SortedTable(acc, rule, asm);
    out := SortDesc(acc, CapRateOf);
  }

  function CountRentals(xs: seq<Analyzed>): nat
  {
    if xs == [] then 0
    else CountRentals(xs[..|xs| - 1]) + (if xs[|xs| - 1].listingType == Rental then 1 else 0)
  }

  function RentalRows(rows: seq<Row>): nat
  {
    if rows == [] then 0
    else RentalRows(rows[..|rows| - 1]) + (if GetListingType(rows[|rows| - 1]) == Rental then 1 else 0)
  }

  /** Every rental row is kept, whatever its price: the table has as many
      rentals as the file. */
  lemma {:induction false} RentalsAllKept(rows: seq<Row>, rule: RentRule, asm: Assumptions)
    ensures CountRentals(Collect(rows, rule, asm)) == RentalRows(rows)
  {
    if rows != [] {
      var init := rows[..|rows| - 1];
      RentalsAllKept(init, rule, asm);
      var c := Collect(init, rule, asm);
      var a := AnalyzeRow(rows[|rows| - 1], rule, asm);
      if a.Some? {
        assert (c + [a.value])[..|c|] == c;
      }
    }
  }
}
