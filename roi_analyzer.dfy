/** components/RealEstateROIAnalyzer.tsx: a quick ROI estimate from a price
    and a monthly rent (an 80% loan at 6.5% over 30 years and fixed
    operating costs), and the area search that keeps the results with a
    numeric price and rent and merges the estimate over each. The requests
    to the server are not part of this model; their results are inputs. */
module RoiAnalyzer {
  import opened Numeral
  import opened Js
  import opened Finance

  /** The yearly mortgage rate. */
  const ANNUAL_RATE: real := 0.065

  /** The monthly mortgage rate. */
  const MONTHLY_RATE: real := ANNUAL_RATE / 12.0

  /** Thirty years of monthly payments. */
  const TERM: nat := 360

  /** What `calculateQuickROI` returns; a `null` is `None`. */
  datatype QuickRoi = QuickRoi(cashOnCashReturn: Option<real>, capRate: Option<real>,
                               monthlyCashFlow: real, annualCashFlow: real)

  /** The loan: the price less a 20% down payment. */
  function LoanAmount(purchasePrice: real): real
  {
    purchasePrice - purchasePrice * 0.20
  }

  /** The monthly mortgage payment on the loan. The source's `rate === 0`
      branch is the zero-rate case of the amortisation formula; the rate
      here is fixed at 6.5% a year, so the closed form applies. */
  function MonthlyPayment(purchasePrice: real): real
  {
    AmortizedPayment(LoanAmount(purchasePrice), MONTHLY_RATE, TERM)
  }

  /** `calculateQuickROI(purchasePrice, monthlyRent)` */
  function CalculateQuickRoi(purchasePrice: real, monthlyRent: real): (q: QuickRoi)
    ensures q.cashOnCashReturn.None? <==> purchasePrice * 0.23 <= 0.0
    ensures q.capRate.None? <==> purchasePrice <= 0.0
    ensures q.annualCashFlow == 12.0 * q.monthlyCashFlow
  {
    var down := purchasePrice * 0.20;
    var monthlyPayment := MonthlyPayment(purchasePrice);
    var propTax := purchasePrice * 0.012 / 12.0;
    var insurance := 1200.0 / 12.0;
    var maint := purchasePrice * 0.01 / 12.0;
    var vacancy := monthlyRent * 0.05;
    var mgmt := monthlyRent * 0.08;
    var monthlyIncome := monthlyRent - vacancy;
    var monthlyExpenses := monthlyPayment + propTax + insurance + maint + mgmt;
    var monthlyCashFlow := monthlyIncome - monthlyExpenses;
    var annualCashFlow := monthlyCashFlow * 12.0;
    var totalInvestment := down + purchasePrice * 0.03;
    var cashOnCashReturn := if totalInvestment > 0.0 then Some(annualCashFlow / totalInvestment * 100.0) else None;
    var capRate :=
      if purchasePrice > 0.0 then Some((monthlyRent * 12.0 - (propTax * 12.0 + insurance * 12.0 + maint * 12.0)) / purchasePrice * 100.0)
      else None;
    QuickRoi(cashOnCashReturn, capRate, monthlyCashFlow, annualCashFlow)
  }

  /** Each extra dollar of rent adds 87 cents to the monthly cash flow:
      vacancy takes 5% and management 8%, and nothing else depends on the
      rent. */
  lemma CashFlowRentSlope(purchasePrice: real, rent1: real, rent2: real)
    ensures CalculateQuickRoi(purchasePrice, rent2).monthlyCashFlow - CalculateQuickRoi(purchasePrice, rent1).monthlyCashFlow
      == 0.87 * (rent2 - rent1)
  {
  }

  /** The cap rate leaves out vacancy, management and the mortgage: it is a
      year of rent less tax (1.2%), maintenance (1%) and insurance (1200),
      over the price. */
  lemma CapRateIgnoresFinancing(purchasePrice: real, monthlyRent: real)
    requires purchasePrice > 0.0
    ensures CalculateQuickRoi(purchasePrice, monthlyRent).capRate.value * purchasePrice
      == (12.0 * monthlyRent - 0.022 * purchasePrice - 1200.0) * 100.0
  {
    var q := CalculateQuickRoi(purchasePrice, monthlyRent);
    var num := monthlyRent * 12.0 - (purchasePrice * 0.012 / 12.0 * 12.0 + 1200.0 / 12.0 * 12.0 + purchasePrice * 0.01 / 12.0 * 12.0);
    assert q.capRate.value == num / purchasePrice * 100.0;
    DivTimes(num, purchasePrice);
  }

  lemma DivTimes(a: real, b: real)
    requires b != 0.0
    ensures a / b * 100.0 * b == a * 100.0
  {
  }

  /** The year's cash flow is the cap rate's income less vacancy and
      management (13% of the rent) and twelve mortgage payments. */
  lemma CashFlowBelowCapIncome(purchasePrice: real, monthlyRent: real)
    requires purchasePrice > 0.0
    ensures var q := CalculateQuickRoi(purchasePrice, monthlyRent);
      q.annualCashFlow == q.capRate.value * purchasePrice / 100.0 - 1.56 * monthlyRent - 12.0 * MonthlyPayment(purchasePrice)
  {
    CapRateIgnoresFinancing(purchasePrice, monthlyRent);
  }

  /** For a positive price the mortgage is paid off by the last of the 360
      payments, and each payment is more than a month's interest on the
      whole loan. */
  lemma LoanRepaid(purchasePrice: real)
    requires purchasePrice > 0.0
    ensures Balance(LoanAmount(purchasePrice), MONTHLY_RATE, MonthlyPayment(purchasePrice), TERM) == 0.0
    ensures MonthlyPayment(purchasePrice) > LoanAmount(purchasePrice) * MONTHLY_RATE
  {
    AmortizationRepays(LoanAmount(purchasePrice), MONTHLY_RATE, TERM);
    PaymentExceedsInterest(LoanAmount(purchasePrice), MONTHLY_RATE, TERM);
  }

  /** For a positive price the cash-on-cash return has the sign of the
      year's cash flow. */
  lemma CashOnCashSign(purchasePrice: real, monthlyRent: real)
    requires purchasePrice > 0.0
    ensures var q := CalculateQuickRoi(purchasePrice, monthlyRent);
      q.cashOnCashReturn.Some?
      && (q.cashOnCashReturn.value > 0.0 <==> q.annualCashFlow > 0.0)
      && (q.cashOnCashReturn.value < 0.0 <==> q.annualCashFlow < 0.0)
  {
    var q := CalculateQuickRoi(purchasePrice, monthlyRent);
    var t := purchasePrice * 0.20 + purchasePrice * 0.03;
    assert q.cashOnCashReturn.value == q.annualCashFlow / t * 100.0;
    QuotientSign(q.annualCashFlow, t);
  }

  lemma QuotientSign(a: real, t: real)
    requires t > 0.0
    ensures a / t * 100.0 > 0.0 <==> a > 0.0
    ensures a / t * 100.0 < 0.0 <==> a < 0.0
  {
    assert a / t * t == a;
  }

  // ---------------------------------------------------------------------
  // The area search

  /** An element of the search response: a JSON object, or anything else
      (a number, a string, a boolean or null). */
  datatype Json = Prim(v: Value) | Obj(fields: Row)

  /** `p && typeof p.purchasePrice === "number" && typeof p.estimatedRent
      === "number"`: an object whose price and rent are numbers. A
      primitive fails, being falsy or having no such properties. */
  predicate HasNumbers(p: Json)
  {
    p.Obj? && Get(p.fields, "purchasePrice").Num? && Get(p.fields, "estimatedRent").Num?
  }

  /** The keys the estimate adds. */
  const ROI_KEYS: set<string> := {"cashOnCashReturn", "capRate", "monthlyCashFlow", "annualCashFlow"}

  /** `{ ...prop, ...calculateQuickROI(prop.purchasePrice, prop.estimatedRent) }` */
  function Merge(prop: Row): (m: Row)
    requires Get(prop, "purchasePrice").Num? && Get(prop, "estimatedRent").Num?
    ensures forall k :: k !in ROI_KEYS ==> (k in m <==> k in prop) && (k in prop ==> m[k] == prop[k])
    ensures ROI_KEYS <= m.Keys
  {
    var q := CalculateQuickRoi(Get(prop, "purchasePrice").x, Get(prop, "estimatedRent").x);
    prop["cashOnCashReturn" := FromOption(q.cashOnCashReturn)]
        ["capRate" := FromOption(q.capRate)]
        ["monthlyCashFlow" := Num(q.monthlyCashFlow)]
        ["annualCashFlow" := Num(q.annualCashFlow)]
  }

  /** `propertiesData.filter(...).map(...)` */
  function WithRoi(data: seq<Json>): (out: seq<Row>)
    ensures |out| <= |data|
  {
    if data == [] then []
    else (if HasNumbers(data[0]) then [Merge(data[0].fields)] else []) + WithRoi(data[1..])
  }

  /** How many elements of the response pass the filter. */
  function CountWithNumbers(data: seq<Json>): nat
  {
    if data == [] then 0 else (if HasNumbers(data[0]) then 1 else 0) + CountWithNumbers(data[1..])
  }

  /** Every element that passes the filter gives one result, merged, and
      nothing else does. */
  lemma {:induction false} WithRoiExact(data: seq<Json>)
    ensures |WithRoi(data)| == CountWithNumbers(data)
    ensures forall r :: r in WithRoi(data) <==>
      exists k :: 0 <= k < |data| && HasNumbers(data[k]) && r == Merge(data[k].fields)
  {
    if data != [] {
      WithRoiExact(data[1..]);
      assert forall k :: 1 <= k < |data| ==> data[k] == data[1..][k - 1];
      forall r | r in WithRoi(data)
        ensures exists k :: 0 <= k < |data| && HasNumbers(data[k]) && r == Merge(data[k].fields)
      {
        if HasNumbers(data[0]) && r == Merge(data[0].fields) {
        } else {
          var k :| 0 <= k < |data[1..]| && HasNumbers(data[1..][k]) && r == Merge(data[1..][k].fields);
          assert data[k + 1] == data[1..][k];
        }
      }
      forall r | exists k :: 0 <= k < |data| && HasNumbers(data[k]) && r == Merge(data[k].fields)
        ensures r in WithRoi(data)
      {
        var k :| 0 <= k < |data| && HasNumbers(data[k]) && r == Merge(data[k].fields);
        if k > 0 {
          assert data[1..][k - 1] == data[k];
        }
      }
    }
  }

  /** Every result carries a numeric price and rent and the estimate made
      from them. */
  lemma {:induction false} WithRoiCarriesEstimate(data: seq<Json>)
    ensures forall r: Row :: r in WithRoi(data) ==>
      && Get(r, "purchasePrice").Num? && Get(r, "estimatedRent").Num?
      && var q := CalculateQuickRoi(Get(r, "purchasePrice").x, Get(r, "estimatedRent").x);
         Get(r, "capRate") == FromOption(q.capRate)
         && Get(r, "cashOnCashReturn") == FromOption(q.cashOnCashReturn)
         && Get(r, "monthlyCashFlow") == Num(q.monthlyCashFlow)
         && Get(r, "annualCashFlow") == Num(q.annualCashFlow)
  {
    if data != [] {
      WithRoiCarriesEstimate(data[1..]);
    }
  }
}
