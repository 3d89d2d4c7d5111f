/** components/GreaterVancouverSearch.jsx: the listings the page is given
    are cut to those priced at 250000 or more, narrowed by a search on the
    location, given a rent from the bed count, an NOI and a cap rate, ranked
    by cap rate and cut to the first 500. */
module GreaterVancouverSearch {
  import opened Text
  import opened Numeral
  import opened Js
  import opened Sorting
  import ListingsTs
  import CsvRoiUploader

  /** The least listing price shown. */
  const MIN_PRICE: real := 250000.0

  /** The most rows the table shows. */
  const MAX_SHOWN: nat := 500

  /** The insurance a year, fixed by the page. */
  const INSURANCE_ANNUAL: real := 1200.0

  // ---------------------------------------------------------------------
  // calcNoiAndCapRate

  /** `calcNoiAndCapRate({ price, monthlyRent, annualTax })`. The price is
      a number (`!price` is then `price == 0`), the rent is `None` for NaN,
      and the tax is `None` when the cell is null. */
  function CalcNoiAndCapRate(price: real, monthlyRent: Option<real>, annualTax: Option<real>): (nc: CsvRoiUploader.NoiCap)
    ensures nc.noiAnnual.None? <==> price == 0.0 || !TruthyNum(monthlyRent)
    ensures nc.capRate.None? <==> nc.noiAnnual.None?
  {
    if price == 0.0 || !TruthyNum(monthlyRent) then CsvRoiUploader.NoiCap(None, None)
    else
      var gross := monthlyRent.value * 12.0;
      var propTax := if annualTax.Some? then annualTax.value else price * 0.012;
      var expenses := propTax + INSURANCE_ANNUAL + price * 0.01 + gross * 0.05 + gross * 0.08;
      var noi := gross - expenses;
      CsvRoiUploader.NoiCap(Some(noi), Some(noi / price * 100.0))
  }

  /** The NOI is 87% of a year of rent less the tax, the insurance and 1% of
      the price for maintenance: vacancy and management take 13% of the
      gross. */
  lemma NoiKeepsEightySevenPercent(price: real, rent: real, annualTax: Option<real>)
    requires price != 0.0 && rent != 0.0
    ensures var tax := if annualTax.Some? then annualTax.value else 0.012 * price;
      CalcNoiAndCapRate(price, Some(rent), annualTax).noiAnnual
        == Some(12.0 * rent * 0.87 - tax - INSURANCE_ANNUAL - 0.01 * price)
  {
  }

  /** The same calculation as the uploader's, with its default operating
      assumptions: insurance 1200, maintenance 1%, vacancy 5% and
      management 8%. */
  lemma SameAsUploader(price: real, rent: Option<real>, annualTax: Option<real>)
    ensures CalcNoiAndCapRate(price, rent, annualTax)
      == CsvRoiUploader.CalcNoiAndCapRate(Some(price), rent, annualTax, Some(1200.0), 1.0, 5.0, 8.0)
  {
  }

  /** The cap rate is the NOI as a percentage of the price. */
  lemma CapRateIsNoiShare(price: real, rent: real, annualTax: Option<real>)
    requires price != 0.0 && rent != 0.0
    ensures var nc := CalcNoiAndCapRate(price, Some(rent), annualTax);
      nc.capRate.value * price == nc.noiAnnual.value * 100.0
      && (price > 0.0 ==> (nc.capRate.value > 0.0 <==> nc.noiAnnual.value > 0.0))
  {
    SameAsUploader(price, Some(rent), annualTax);
    CsvRoiUploader.CapRateIsNoiShare(price, rent, annualTax, Some(1200.0), 1.0, 5.0, 8.0);
  }

  // ---------------------------------------------------------------------
  // The cells a row contributes

  /** `r.Price_Listing ?? 0` */
  function PriceCell(r: Row): Value
  {
    Coalesce([Get(r, "Price_Listing"), Num(0.0)])
  }

  /** `(r.Price_Listing ?? 0) >= 250000`: the comparison converts the cell
      to a number, and NaN compares false. */
  predicate PriceOk(r: Row)
  {
    var p := ToNumber(PriceCell(r));
    p.Some? && p.value >= MIN_PRICE
  }

  /** The price as the calculation sees it. */
  function PriceNumber(r: Row): real
    requires PriceOk(r)
  {
    ToNumber(PriceCell(r)).value
  }

  /** A row that passes the price filter has a truthy price cell, so the
      `!price` test never fires on it. */
  lemma PricedRowIsTruthy(r: Row)
    requires PriceOk(r)
    ensures Truthy(Get(r, "Price_Listing")) && PriceNumber(r) >= MIN_PRICE
  {
    var v := Get(r, "Price_Listing");
    assert !IsNullish(v);
    assert PriceCell(r) == v;
  }

  /** What `annualTax ?? price * 0.012` puts first in the expense sum:
      the default for a nullish cell, a number, or text. */
  datatype TaxTerm = DefaultTax | TaxNumber(x: real) | TaxText(s: string)

  /** `r.Property_Tax ?? null` as the expense sum sees it: nullish gives the
      1.2% default, a text cell stays text (`+` then concatenates), and
      any other cell adds as its number, a boolean as 1 or 0. */
  function TaxCell(v: Value): (t: TaxTerm)
    ensures t.DefaultTax? <==> IsNullish(v)
    ensures t.TaxText? <==> v.Str?
    ensures v.Str? ==> t == TaxText(v.s)
    ensures t.TaxNumber? ==> ToNumber(v) == Some(t.x)
  {
    match v
    case Undefined => DefaultTax
    case Null => DefaultTax
    case Bool(b) => TaxNumber(if b then 1.0 else 0.0)
    case Num(x) => TaxNumber(x)
    case Str(s) => TaxText(s)
  }

  /** The tax a numeric term contributes to `CalcNoiAndCapRate`. */
  function NumericTax(t: TaxTerm): Option<real>
  {
    if t.TaxNumber? then Some(t.x) else None
  }

  /** `propTaxAnnual + insuranceAnnual + maintAnnual + vacancyAnnual +
      mgmtAnnual` once the tax is text, for a yearly gross rent: `+` turns
      into concatenation, so the text is followed by the four amounts. */
  function ExpenseText(tax: string, price: real, gross: real): string
  {
    tax + Amounts(price, gross)
  }

  /** The four amounts after the tax, each written as `String` writes it,
      `String(1200)` being "1200". */
  function Amounts(price: real, gross: real): string
  {
    "1200" + NumberToString(price * 0.01) + NumberToString(gross * 0.05) + NumberToString(gross * 0.08)
  }

  /** `calcNoiAndCapRate` with a text tax: without a price or a rent both
      are null, as with a numeric tax. */
  function CalcWithTextTax(price: real, monthlyRent: Option<real>, tax: string): (nc: CsvRoiUploader.NoiCap)
    ensures nc.capRate.None? <==> nc.noiAnnual.None?
    ensures (price == 0.0 || !TruthyNum(monthlyRent)) ==> nc.noiAnnual.None?
    ensures price != 0.0 && TruthyNum(monthlyRent) ==> nc == TextTaxNoi(price, monthlyRent.value, tax)
  {
    if price == 0.0 || !TruthyNum(monthlyRent) then CsvRoiUploader.NoiCap(None, None)
    else TextTaxNoi(price, monthlyRent.value, tax)
  }

  /** With a price and a monthly rent, the subtraction
      `grossAnnual - expenses` reads the expense text back with `Number`: a
      NaN there (`None`) makes the NOI and the cap rate NaN too, and a
      number is taken from a year of rent. */
  function TextTaxNoi(price: real, rent: real, tax: string): (nc: CsvRoiUploader.NoiCap)
    requires price != 0.0
    ensures var expenses := StringToNumber(ExpenseText(tax, price, rent * 12.0));
      && (nc.noiAnnual.None? <==> expenses.None?)
      && (nc.capRate.None? <==> expenses.None?)
      && (expenses.Some? ==> nc.noiAnnual == Some(rent * 12.0 - expenses.value))
      && nc == NoiOfExpenses(price, rent * 12.0, expenses)
  {
    NoiOfExpenses(price, rent * 12.0, StringToNumber(ExpenseText(tax, price, rent * 12.0)))
  }

  /** `grossAnnual - expenses` and `(noiAnnual / price) * 100` once the
      expenses are read as a number, `None` for NaN. */
  function NoiOfExpenses(price: real, gross: real, expenses: Option<real>): (nc: CsvRoiUploader.NoiCap)
    requires price != 0.0
    ensures nc.capRate.None? <==> nc.noiAnnual.None?
    ensures nc.noiAnnual.None? <==> expenses.None?
    ensures expenses.Some? ==> nc.noiAnnual == Some(gross - expenses.value)
    ensures expenses.Some? ==> nc.capRate == Some(nc.noiAnnual.value / price * 100.0)
  {
    match expenses
    case None => CsvRoiUploader.NoiCap(None, None)
    case Some(x) => CsvRoiUploader.NoiCap(Some(gross - x), Some((gross - x) / price * 100.0))
  }

  /** The cap rate is the NOI as a percentage of the price. */
  lemma NoiOfExpensesCapRate(price: real, gross: real, expenses: Option<real>)
    requires price != 0.0
    ensures var nc := NoiOfExpenses(price, gross, expenses);
      nc.noiAnnual.Some? ==> nc.capRate.value * price == nc.noiAnnual.value * 100.0
  {
    if expenses.Some? {
      var noi := gross - expenses.value;
      assert noi / price * price == noi;
    }
  }

  /** A text tax that starts with a letter or other character no numeral
      starts with turns the expense sum into text `Number` reads as NaN, so
      the NOI and the cap rate are NaN. */
  lemma TextTaxWithoutNumeralIsNaN(price: real, rent: real, tax: string)
    requires tax != [] && !IsSpace(tax[0]) && !IsDigit(tax[0])
    requires tax[0] != '.' && tax[0] != '-' && tax[0] != '+'
    ensures CalcWithTextTax(price, Some(rent), tax).noiAnnual.None?
    ensures CalcWithTextTax(price, Some(rent), tax).capRate.None?
  {
    NonNumeralTextIsNaN(tax, Amounts(price, rent * 12.0));
  }

  /** Text whose first character is neither white space nor one a numeral
      starts with reads as NaN, whatever follows it. */
  lemma NonNumeralTextIsNaN(head: string, tail: string)
    requires head != [] && !IsSpace(head[0]) && !IsDigit(head[0])
    requires head[0] != '.' && head[0] != '-' && head[0] != '+'
    ensures StringToNumber(head + tail) == None
  {
    var text := head + tail;
    assert text[0] == head[0];
    TrimKeepsFirst(text);
    ParseNonNumeralStart(Trim(text));
  }

  /** `Math.max(0, Math.round(rentRule.base + bedCount * rentRule.perBed))`
      with `bedCount = (r.Bed ?? null) ?? rentRule.fallbackBeds`: the server
      loader's estimate, which takes the fallback bed count for a missing
      one. A bed cell that is not a number makes the product NaN, and NaN
      survives the rounding and the maximum; `None` stands for it. */
  function EstRent(bed: Value, rule: CsvRoiUploader.RentRule): (est: Option<real>)
    ensures est.None? <==> BedCount(bed, rule).None?
    ensures est.Some? ==>
      var x := rule.base + BedCount(bed, rule).value * rule.perBed;
      && est.value >= 0.0 && est.value == est.value.Floor as real
      && (x < 0.5 ==> est.value == 0.0)
      && (x >= 0.5 ==> est.value - 0.5 <= x < est.value + 0.5)
  {
    var count := BedCount(bed, rule);
    if count.None? then None
    else
      EstimateOfBeds(count.value, rule);
      Some(ListingsTs.EstimateMonthlyRent(count, rule.base, rule.perBed, rule.fallbackBeds))
  }

  /** `bedCount`, as the arithmetic reads it: the fallback for a nullish
      cell, otherwise the cell as a number, `None` for NaN. */
  function BedCount(bed: Value, rule: CsvRoiUploader.RentRule): (count: Option<real>)
    ensures IsNullish(bed) ==> count == Some(rule.fallbackBeds)
    ensures !IsNullish(bed) ==> count == ToNumber(bed)
  {
    if IsNullish(bed) then Some(rule.fallbackBeds) else ToNumber(bed)
  }

  /** The estimate for a known bed count, rounded from `base + beds·perBed`
      and never below 0. */
  lemma EstimateOfBeds(beds: real, rule: CsvRoiUploader.RentRule)
    ensures var est := ListingsTs.EstimateMonthlyRent(Some(beds), rule.base, rule.perBed, rule.fallbackBeds);
      var x := rule.base + beds * rule.perBed;
      && est >= 0.0 && est == est.Floor as real
      && (x < 0.5 ==> est == 0.0)
      && (x >= 0.5 ==> est - 0.5 <= x < est + 0.5)
  {
  }

  /** `String(r.Location ?? "")` */
  function LocationText(v: Value): string
  {
    match v
    case Undefined => ""
    case Null => ""
    case Bool(b) => if b then "true" else "false"
    case Num(x) => NumberToString(x)
    case Str(s) => s
  }

  lemma LocationTextAsWritten(v: Value)
    ensures LocationText(v) == ToStr(Coalesce([v, Str("")]))
  {
  }

  // ---------------------------------------------------------------------
  // The filtered pipeline

  /** The two `.filter` steps. */
  datatype Stage =
    | ByPrice          // (r.Price_Listing ?? 0) >= 250000
    | ByQuery(q: string)  // !q || location includes q

  predicate Keeps(st: Stage, r: Row)
  {
    match st
    case ByPrice => PriceOk(r)
    case ByQuery(q) => q == [] || Contains(ToLower(LocationText(Get(r, "Location"))), q)
  }

  /** `rows.filter(...)` */
  function Filter(rows: seq<Row>, st: Stage): (out: seq<Row>)
    ensures |out| <= |rows|
  {
    if rows == [] then []
    else (if Keeps(st, rows[0]) then [rows[0]] else []) + Filter(rows[1..], st)
  }

  /** A row is kept exactly when it is one of the input rows and passes the
      test. */
  lemma {:induction false} FilterMembers(rows: seq<Row>, st: Stage)
    ensures forall r :: r in Filter(rows, st) <==> r in rows && Keeps(st, r)
  {
    if rows != [] {
      FilterMembers(rows[1..], st);
      assert rows == [rows[0]] + rows[1..];
    }
  }

  /** A test that every row passes keeps the rows as they are. */
  lemma {:induction false} FilterAll(rows: seq<Row>, st: Stage)
    requires forall i :: 0 <= i < |rows| ==> Keeps(st, rows[i])
    ensures Filter(rows, st) == rows
  {
    if rows != [] {
      FilterAll(rows[1..], st);
      assert rows == [rows[0]] + rows[1..];
    }
  }

  /** `{ ...r, estRent, noiAnnual, capRate }`: the row with the three
      computed fields set over any it had. `None` stands for null and for
      NaN alike. */
  datatype Enriched = Enriched(row: Row, estRent: Option<real>, noiAnnual: Option<real>, capRate: Option<real>)

  /** The `.map` step for one row that passed the price filter. */
  function Enrich(r: Row, rule: CsvRoiUploader.RentRule): (e: Enriched)
    requires PriceOk(r)
    ensures e.row == r
    ensures e.estRent.Some? ==> e.estRent.value >= 0.0
    ensures e.estRent == EstRent(Get(r, "Bed"), rule)
    ensures !TruthyNum(e.estRent) ==> e.noiAnnual.None? && e.capRate.None?
    ensures !Get(r, "Property_Tax").Str? ==> (e.capRate.None? <==> !TruthyNum(e.estRent))
    ensures e == EnrichWith(r, e.estRent, TaxCell(Get(r, "Property_Tax")))
  {
    PricedRowIsTruthy(r);
    var tax := TaxCell(Get(r, "Property_Tax"));
    var est := EstRent(Get(r, "Bed"), rule);
    NoiOfEstimate(PriceNumber(r), est, NumericTax(tax));
    EnrichWith(r, est, tax)
  }

  /** The record built from a row, its rent estimate and its tax term. */
  function EnrichWith(r: Row, est: Option<real>, tax: TaxTerm): Enriched
    requires PriceOk(r)
  {
    var nc := NoiFor(PriceNumber(r), est, tax);
    Enriched(r, est, nc.noiAnnual, nc.capRate)
  }

  /** `calcNoiAndCapRate(price, estRent, tax)` for a listing price: a text
      tax goes through the concatenation, any other through the sums. */
  function NoiFor(price: real, est: Option<real>, tax: TaxTerm): (nc: CsvRoiUploader.NoiCap)
    requires price > 0.0
    ensures nc.capRate.None? <==> nc.noiAnnual.None?
    ensures !TruthyNum(est) ==> nc.noiAnnual.None?
  {
    if tax.TaxText? then CalcWithTextTax(price, est, tax.s)
    else CalcNoiAndCapRate(price, est, NumericTax(tax))
  }

  /** With a rent estimate and a tax that is not text, the NOI is 87% of
      twelve months' rent less the tax (1.2% of the price when the cell is
      empty), insurance and 1% of the price for maintenance, and the cap
      rate is that NOI as a percentage of the price. */
  lemma EnrichValues(price: real, est: Option<real>, tax: TaxTerm)
    requires price > 0.0
    ensures var nc := NoiFor(price, est, tax);
      && (!TruthyNum(est) ==> nc.noiAnnual.None? && nc.capRate.None?)
      && (TruthyNum(est) && !tax.TaxText? ==>
            var t := if tax.TaxNumber? then tax.x else 0.012 * price;
            && nc.noiAnnual == Some(12.0 * est.value * 0.87 - t - INSURANCE_ANNUAL - 0.01 * price)
            && nc.capRate.value * price == nc.noiAnnual.value * 100.0)
  {
    if !tax.TaxText? {
      NoiOfEstimate(price, est, NumericTax(tax));
    }
  }

  /** With a rent estimate and a text tax, the NOI is twelve months' rent
      less the concatenated expense text read as a number, and NaN when the
      text is not a numeral. */
  lemma TextTaxValues(price: real, est: Option<real>, tax: TaxTerm)
    requires price > 0.0 && TruthyNum(est) && tax.TaxText?
    ensures var nc := NoiFor(price, est, tax);
      var expenses := StringToNumber(ExpenseText(tax.s, price, est.value * 12.0));
      && (nc.noiAnnual.None? <==> expenses.None?)
      && (expenses.Some? ==> nc.noiAnnual == Some(est.value * 12.0 - expenses.value))
  {
    assert NoiFor(price, est, tax) == TextTaxNoi(price, est.value, tax.s);
  }

  /** The NOI and cap rate of a positive price and a rent estimate. */
  lemma NoiOfEstimate(price: real, est: Option<real>, tax: Option<real>)
    requires price > 0.0
    ensures var nc := CalcNoiAndCapRate(price, est, tax);
      var t := if tax.Some? then tax.value else 0.012 * price;
      && (!TruthyNum(est) ==> nc.noiAnnual.None? && nc.capRate.None?)
      && (TruthyNum(est) ==>
            && nc.noiAnnual == Some(12.0 * est.value * 0.87 - t - INSURANCE_ANNUAL - 0.01 * price)
            && nc.capRate.value * price == nc.noiAnnual.value * 100.0)
  {
    if TruthyNum(est) {
      NoiKeepsEightySevenPercent(price, est.value, tax);
      CapRateIsNoiShare(price, est.value, tax);
    }
  }

  /** The row's cap rate is a number or null, never NaN: only a text tax
      that the concatenation leaves unreadable, with a rent estimate, makes
      it NaN. The sort's comparator subtracts cap rates, so a NaN there
      makes its order one the language leaves to the implementation. */
  predicate CapRateNotNaN(r: Row, rule: CsvRoiUploader.RentRule)
    requires PriceOk(r)
  {
    Get(r, "Property_Tax").Str? && TruthyNum(EstRent(Get(r, "Bed"), rule)) ==> Enrich(r, rule).capRate.Some?
  }

  function EnrichAll(rows: seq<Row>, rule: CsvRoiUploader.RentRule): (out: seq<Enriched>)
    requires forall r :: r in rows ==> PriceOk(r)
    ensures |out| == |rows|
    ensures forall i :: 0 <= i < |rows| ==> out[i] == Enrich(rows[i], rule)
  {
    if rows == [] then [] else [Enrich(rows[0], rule)] + EnrichAll(rows[1..], rule)
  }

  function CapRateOf(e: Enriched): Option<real>
  {
    e.capRate
  }

  /** The rows that pass both filters. */
  function Matched(listings: seq<Row>, query: string): seq<Row>
  {
    Filter(Filter(listings, ByPrice), ByQuery(ToLower(Trim(query))))
  }

  lemma MatchedMembers(listings: seq<Row>, query: string)
    ensures forall r :: r in Matched(listings, query) <==>
      r in listings && PriceOk(r) && Keeps(ByQuery(ToLower(Trim(query))), r)
  {
    var priced := Filter(listings, ByPrice);
    FilterMembers(listings, ByPrice);
    FilterMembers(priced, ByQuery(ToLower(Trim(query))));
  }

  /** `.sort(by cap rate desc).slice(0, 500)` */
  function Shown(all: seq<Enriched>): (out: seq<Enriched>)
    ensures |out| == if |all| <= MAX_SHOWN then |all| else MAX_SHOWN
  {
    var sorted := SortDesc(all, CapRateOf);
    if |sorted| <= MAX_SHOWN then sorted else sorted[..MAX_SHOWN]
  }

  /** The rows shown are the best ranked: a row left out ranks no higher by
      cap rate than any row shown. */
  lemma ShownBest(all: seq<Enriched>, e: Enriched)
    requires e in all
    ensures e !in Shown(all) ==> forall i :: 0 <= i < |Shown(all)| ==> KeyGe(CapRateOf(Shown(all)[i]), CapRateOf(e))
  {
    SortDescCorrect(all, CapRateOf);
    var sorted := SortDesc(all, CapRateOf);
    assert Shown(all) == sorted[..|Shown(all)|];
    assert e in multiset(all);
    PrefixRanksFirst(sorted, CapRateOf, |Shown(all)|, e);
  }

  /** The `filtered` memo. Text tax cells are outside the model. */
  function Filtered(listings: seq<Row>, query: string, rule: CsvRoiUploader.RentRule): (out: seq<Enriched>)
    ensures |out| <= MAX_SHOWN
    ensures |out| == if |Matched(listings, query)| <= MAX_SHOWN then |Matched(listings, query)| else MAX_SHOWN
  {
    MatchedMembers(listings, query);
    Shown(EnrichAll(Matched(listings, query), rule))
  }

  /** The table has at most 500 rows, no more than the listings, ranked by
      cap rate with the rows without one last. */
  lemma FilteredRanked(listings: seq<Row>, query: string, rule: CsvRoiUploader.RentRule)
    requires forall r :: r in listings && PriceOk(r) ==> CapRateNotNaN(r, rule)
    ensures var out := Filtered(listings, query, rule);
      && |out| <= MAX_SHOWN && |out| <= |listings|
      && SortedDesc(out, CapRateOf)
      && (forall i, j :: 0 <= i < j < |out| && out[j].capRate.Some? ==> out[i].capRate.Some?)
  {
    MatchedMembers(listings, query);
    var m := Matched(listings, query);
    var all := EnrichAll(m, rule);
    SortDescCorrect(all, CapRateOf);
    var sorted := SortDesc(all, CapRateOf);
    var out := Filtered(listings, query, rule);
    if |sorted| > MAX_SHOWN {
      PrefixSorted(sorted, CapRateOf, MAX_SHOWN);
    }
    FilterLength(listings, query);
    forall i, j | 0 <= i < j < |out| && out[j].capRate.Some?
      ensures out[i].capRate.Some?
    {
      assert KeyGe(CapRateOf(out[i]), CapRateOf(out[j]));
    }
  }

  lemma FilterLength(listings: seq<Row>, query: string)
    ensures |Matched(listings, query)| <= |listings|
  {
  }

  /** Every row of the table is a listing that passed both filters, with
      its fields kept and the rent, NOI and cap rate added. */
  lemma FilteredRowsQualify(listings: seq<Row>, query: string, rule: CsvRoiUploader.RentRule)
    ensures forall e :: e in Filtered(listings, query, rule) ==>
      && e.row in listings && PriceOk(e.row)
      && Keeps(ByQuery(ToLower(Trim(query))), e.row)
      && e == Enrich(e.row, rule)
  {
    MatchedMembers(listings, query);
    var m := Matched(listings, query);
    var all := EnrichAll(m, rule);
    var sorted := SortDesc(all, CapRateOf);
    forall e | e in Filtered(listings, query, rule)
      ensures e.row in m && e == Enrich(e.row, rule)
    {
      assert e in sorted;
      EnrichedRowOf(m, rule, e);
    }
  }

  /** A sorted, enriched row is the enrichment of one of the rows. */
  lemma EnrichedRowOf(m: seq<Row>, rule: CsvRoiUploader.RentRule, e: Enriched)
    requires forall r :: r in m ==> PriceOk(r)
    requires e in SortDesc(EnrichAll(m, rule), CapRateOf)
    ensures e.row in m && e == Enrich(e.row, rule)
  {
    var all := EnrichAll(m, rule);
    SortedFrom(all, e);
    var k :| 0 <= k < |all| && all[k] == e;
    assert m[k] in m;
  }

  /** Sorting adds no row. */
  lemma SortedFrom(all: seq<Enriched>, e: Enriched)
    requires e in SortDesc(all, CapRateOf)
    ensures e in all
  {
    SortDescCorrect(all, CapRateOf);
    assert e in multiset(SortDesc(all, CapRateOf));
  }

  /** Sorting loses no row. */
  lemma InSorted(all: seq<Enriched>, k: nat)
    requires k < |all|
    ensures all[k] in SortDesc(all, CapRateOf)
  {
    SortDescCorrect(all, CapRateOf);
    assert all[k] in multiset(all);
  }

  /** When no more than 500 listings pass the filters, every one of them is
      in the table. */
  lemma FilteredComplete(listings: seq<Row>, query: string, rule: CsvRoiUploader.RentRule, r: Row)
    requires |Matched(listings, query)| <= MAX_SHOWN
    requires r in listings && PriceOk(r) && Keeps(ByQuery(ToLower(Trim(query))), r)
    ensures Enrich(r, rule) in Filtered(listings, query, rule)
  {
    MatchedMembers(listings, query);
    var m := Matched(listings, query);
    var all := EnrichAll(m, rule);
    SortDescCorrect(all, CapRateOf);
    assert Filtered(listings, query, rule) == SortDesc(all, CapRateOf);
    var k :| 0 <= k < |m| && m[k] == r;
    InSorted(all, k);
  }

  /** When more than 500 listings pass the filters, the table shows the
      best ranked: a passing listing left out ranks no higher by cap rate
      than any row shown. */
  lemma FilteredBest(listings: seq<Row>, query: string, rule: CsvRoiUploader.RentRule, r: Row)
    requires forall r :: r in listings && PriceOk(r) ==> CapRateNotNaN(r, rule)
    requires r in listings && PriceOk(r) && Keeps(ByQuery(ToLower(Trim(query))), r)
    ensures var out := Filtered(listings, query, rule);
      Enrich(r, rule) !in out ==> forall i :: 0 <= i < |out| ==> KeyGe(CapRateOf(out[i]), CapRateOf(Enrich(r, rule)))
  {
    MatchedMembers(listings, query);
    var m := Matched(listings, query);
    var all := EnrichAll(m, rule);
    var k :| 0 <= k < |m| && m[k] == r;
    assert all[k] == Enrich(r, rule);
    ShownBest(all, Enrich(r, rule));
  }

  /** In a list sorted by descending key, an element missing from a prefix
      ranks no higher than any element of the prefix. */
  lemma PrefixRanksFirst<T>(sorted: seq<T>, key: T -> Option<real>, n: nat, e: T)
    requires SortedDesc(sorted, key) && n <= |sorted| && e in sorted
    ensures e !in sorted[..n] ==> forall i :: 0 <= i < n ==> KeyGe(key(sorted[i]), key(e))
  {
    var j :| 0 <= j < |sorted| && sorted[j] == e;
    assert j < n ==> sorted[..n][j] == e;
  }

  /** A blank search keeps every listing that passes the price filter. */
  lemma BlankQueryKeepsAll(rows: seq<Row>, query: string)
    requires Trim(query) == []
    ensures Filter(rows, ByQuery(ToLower(Trim(query)))) == rows
  {
    FilterAll(rows, ByQuery(ToLower(Trim(query))));
  }
}
