/** lib/invest.ts: the investor metrics for one listing under a set of
    financing assumptions. Every branch that cannot compute a metric
    yields null, modelled as `None`. */
module Invest {
  import opened Numeral
  import opened Js
  import opened Finance

  /** Percentages are on a 0-100 scale; the amortisation is in whole years. */
  datatype Assumptions = Assumptions(
    downPaymentPct: real,
    interestRatePct: real,
    amortYears: int,
    vacancyPct: real,
    expensePct: real)

  /** The defaults of the assumptions form (components/InvestorControls.jsx). */
  const DEFAULT_ASSUMPTIONS := Assumptions(20.0, 5.5, 30, 5.0, 35.0)

  datatype Metrics = Metrics(
    loanAmount: Option<real>,
    monthlyMortgage: Option<real>,
    effectiveRentMonthly: Option<real>,
    opexMonthly: Option<real>,
    noiAnnual: Option<real>,
    cashFlowMonthly: Option<real>,
    cashOnCashPct: Option<real>,
    dscr: Option<real>)

  function Max(a: real, b: real): real
  {
    if a >= b then a else b
  }

  function MinR(a: real, b: real): real
  {
    if a <= b then a else b
  }

  /** `clamp(n, lo, hi)`, that is `Math.max(lo, Math.min(hi, n))`. */
  function Clamp(n: real, lo: real, hi: real): (c: real)
    ensures lo <= hi ==> lo <= c <= hi
    ensures lo <= n <= hi ==> c == n
    ensures n < lo || hi < lo ==> c == lo
    ensures lo <= hi < n ==> c == hi
  {
    Max(lo, MinR(hi, n))
  }

  /** The monthly rate of an annual percentage. */
  function MonthlyRate(annualRatePct: real): real
  {
    annualRatePct / 100.0 / 12.0
  }

  /** `mortgagePaymentMonthly(principal, annualRatePct, amortYears)`: 0 for
      no loan or no term, otherwise the level monthly payment over
      `12 * amortYears` months (`principal / n` at a zero rate). */
  function MortgagePaymentMonthly(principal: real, annualRatePct: real, amortYears: int): (m: real)
    requires annualRatePct > -1200.0
    ensures principal <= 0.0 || amortYears <= 0 ==> m == 0.0
  {
    if principal <= 0.0 || amortYears <= 0 then 0.0
    else AmortizedPayment(principal, MonthlyRate(annualRatePct), 12 * amortYears)
  }

  /** For a real loan and term the payment is positive and repays the
      principal exactly in `12 * amortYears` months; at a zero rate it is
      an equal share of the principal, and at a positive rate it exceeds
      the first month's interest. */
  lemma MortgageRepays(principal: real, annualRatePct: real, amortYears: int)
    requires annualRatePct > -1200.0 && principal > 0.0 && amortYears > 0
    ensures var m := MortgagePaymentMonthly(principal, annualRatePct, amortYears);
      && m > 0.0
      && Balance(principal, MonthlyRate(annualRatePct), m, 12 * amortYears) == 0.0
      && (annualRatePct == 0.0 ==> m * (12 * amortYears) as real == principal)
      && (annualRatePct > 0.0 ==> m > principal * MonthlyRate(annualRatePct))
  {
    var r := MonthlyRate(annualRatePct);
    var n: nat := 12 * amortYears;
    AmortizationRepays(principal, r, n);
    PaymentPositive(principal, r, n);
    if r > 0.0 {
      PaymentExceedsInterest(principal, r, n);
    }
  }

  /** The down payment as a share of the price. */
  function DownShare(a: Assumptions): real
  {
    Clamp(a.downPaymentPct, 0.0, 100.0) / 100.0
  }

  /** `loanAmount = price * (1 - dp)` */
  function LoanAmount(price: real, a: Assumptions): real
  {
    price * (1.0 - DownShare(a))
  }

  function MonthlyMortgage(price: real, a: Assumptions): real
    requires a.interestRatePct > -1200.0
  {
    MortgagePaymentMonthly(LoanAmount(price, a), a.interestRatePct, a.amortYears)
  }

  /** The rent less the clamped vacancy share. */
  function EffectiveRent(rent: real, a: Assumptions): real
  {
    rent * (1.0 - Clamp(a.vacancyPct, 0.0, 100.0) / 100.0)
  }

  /** The clamped expense share of the effective rent. */
  function Opex(rent: real, a: Assumptions): real
  {
    EffectiveRent(rent, a) * (Clamp(a.expensePct, 0.0, 100.0) / 100.0)
  }

  function NetRent(rent: real, a: Assumptions): real
  {
    EffectiveRent(rent, a) - Opex(rent, a)
  }

  function CashFlow(price: real, rent: real, a: Assumptions): real
    requires a.interestRatePct > -1200.0
  {
    NetRent(rent, a) - MonthlyMortgage(price, a)
  }

  /** A year of cash flow as a percentage of the cash invested, null when
      nothing is invested. */
  function CashOnCashPct(price: real, rent: real, a: Assumptions): Option<real>
    requires a.interestRatePct > -1200.0
  {
    var cashInvested := price * DownShare(a);
    if cashInvested > 0.0 then Some(CashFlow(price, rent, a) * 12.0 / cashInvested * 100.0) else None
  }

  /** Net rent over the mortgage payment, null when there is no payment. */
  function DscrOf(price: real, rent: real, a: Assumptions): Option<real>
    requires a.interestRatePct > -1200.0
  {
    var monthlyMortgage := MonthlyMortgage(price, a);
    if monthlyMortgage > 0.0 then Some(NetRent(rent, a) / monthlyMortgage) else None
  }

  /** Whether a price or rent admits a computation: present, non-zero and
      positive. */
  predicate Priced(v: Option<real>)
  {
    TruthyNum(v) && v.value > 0.0
  }

  /** `computeMetrics(price, estRentMonthly, listingNoiAnnual, assumptions)` */
  function ComputeMetrics(price: Option<real>, estRentMonthly: Option<real>, listingNoiAnnual: Option<real>, a: Assumptions): Metrics
    requires a.interestRatePct > -1200.0
  {
    if !TruthyNum(price) || price.value <= 0.0 then
      Metrics(None, None, None, None, listingNoiAnnual, None, None, None)
    else
      var p := price.value;
      if !TruthyNum(estRentMonthly) || estRentMonthly.value <= 0.0 then
        Metrics(Some(LoanAmount(p, a)), Some(MonthlyMortgage(p, a)), None, None, listingNoiAnnual, None, None, None)
      else
        var rent := estRentMonthly.value;
        Metrics(Some(LoanAmount(p, a)), Some(MonthlyMortgage(p, a)), Some(EffectiveRent(rent, a)), Some(Opex(rent, a)),
          Some(NetRent(rent, a) * 12.0), Some(CashFlow(p, rent, a)), CashOnCashPct(p, rent, a), DscrOf(p, rent, a))
  }

  /** Taking a share between none and all of a non-negative amount. */
  lemma ShareBounds(x: real, f: real)
    requires x >= 0.0 && 0.0 <= f <= 1.0
    ensures 0.0 <= x * f <= x && 0.0 <= x * (1.0 - f) <= x
  {
    assert x * f <= x * 1.0;
    assert x * (1.0 - f) <= x * 1.0;
  }

  lemma PositiveTimes(p: real, x: real)
    requires p > 0.0
    ensures p * x > 0.0 <==> x > 0.0
  {
    if x <= 0.0 {
      assert p * x <= p * 0.0;
    }
  }

  /** Without a positive price every metric is null but the NOI, which is
      the listing's own. */
  lemma NoPriceMetrics(price: Option<real>, rent: Option<real>, noi: Option<real>, a: Assumptions)
    requires a.interestRatePct > -1200.0 && !Priced(price)
    ensures ComputeMetrics(price, rent, noi, a) == Metrics(None, None, None, None, noi, None, None, None)
  {
  }

  /** With a positive price but no positive rent only the loan and the
      mortgage are computed, and the NOI is the listing's own. */
  lemma NoRentMetrics(price: Option<real>, rent: Option<real>, noi: Option<real>, a: Assumptions)
    requires a.interestRatePct > -1200.0 && Priced(price) && !Priced(rent)
    ensures ComputeMetrics(price, rent, noi, a)
      == Metrics(Some(LoanAmount(price.value, a)), Some(MonthlyMortgage(price.value, a)), None, None, noi, None, None, None)
  {
  }

  /** The loan is between nothing and the whole price, the payment is never
      negative, and a real loan over a real term is repaid exactly. */
  lemma LoanBounds(price: real, a: Assumptions)
    requires a.interestRatePct > -1200.0 && price > 0.0
    ensures 0.0 <= LoanAmount(price, a) <= price
    ensures MonthlyMortgage(price, a) >= 0.0
    ensures LoanAmount(price, a) > 0.0 && a.amortYears > 0 ==>
      Balance(LoanAmount(price, a), MonthlyRate(a.interestRatePct), MonthlyMortgage(price, a), 12 * a.amortYears) == 0.0
  {
    ShareBounds(price, DownShare(a));
    if LoanAmount(price, a) > 0.0 && a.amortYears > 0 {
      MortgageRepays(LoanAmount(price, a), a.interestRatePct, a.amortYears);
    }
  }

  /** Vacancy and expenses only reduce the rent: `0 <= opex <= effective
      rent <= rent`. */
  lemma RentBounds(rent: real, a: Assumptions)
    requires rent > 0.0
    ensures 0.0 <= Opex(rent, a) <= EffectiveRent(rent, a) <= rent
  {
    var vacancy := Clamp(a.vacancyPct, 0.0, 100.0) / 100.0;
    ShareBounds(rent, vacancy);
    ShareBounds(EffectiveRent(rent, a), Clamp(a.expensePct, 0.0, 100.0) / 100.0);
  }

  /** With a positive price and rent every metric is computed from the
      assumptions: vacancy and expenses only reduce the rent, the NOI is a
      year of net rent (the listing's own NOI is ignored), the cash flow is
      the net rent less the mortgage, and cash-on-cash and DSCR are the
      ratios below. */
  lemma RentMetrics(price: Option<real>, rent: Option<real>, noi: Option<real>, a: Assumptions)
    requires a.interestRatePct > -1200.0 && Priced(price) && Priced(rent)
    ensures var m := ComputeMetrics(price, rent, noi, a);
      && m.loanAmount.Some? && m.monthlyMortgage.Some? && m.effectiveRentMonthly.Some?
      && m.opexMonthly.Some? && m.noiAnnual.Some? && m.cashFlowMonthly.Some?
      && 0.0 <= m.opexMonthly.value <= m.effectiveRentMonthly.value <= rent.value
      && m.noiAnnual.value == 12.0 * (m.effectiveRentMonthly.value - m.opexMonthly.value)
      && m.cashFlowMonthly.value == m.effectiveRentMonthly.value - m.opexMonthly.value - m.monthlyMortgage.value
      && m.cashOnCashPct == CashOnCashPct(price.value, rent.value, a)
      && m.dscr == DscrOf(price.value, rent.value, a)
  {
    RentBounds(rent.value, a);
  }

  /** Cash-on-cash is null exactly when no down payment is made; otherwise
      it is a year of cash flow as a percentage of the down payment. */
  lemma CashOnCash(price: real, rent: real, a: Assumptions)
    requires a.interestRatePct > -1200.0 && price > 0.0
    ensures CashOnCashPct(price, rent, a).None? <==> a.downPaymentPct <= 0.0
    ensures CashOnCashPct(price, rent, a).Some? ==>
      CashOnCashPct(price, rent, a).value * (price * DownShare(a)) == 1200.0 * CashFlow(price, rent, a)
  {
    PositiveTimes(price, DownShare(a));
  }

  /** The debt-service coverage ratio is null exactly when there is no
      mortgage payment (all paid down, or no term); otherwise it is the net
      rent over the payment. */
  lemma Dscr(price: real, rent: real, a: Assumptions)
    requires a.interestRatePct > -1200.0 && price > 0.0
    ensures DscrOf(price, rent, a).None? <==> a.downPaymentPct >= 100.0 || a.amortYears <= 0
    ensures DscrOf(price, rent, a).Some? ==>
      DscrOf(price, rent, a).value * MonthlyMortgage(price, a) == NetRent(rent, a)
  {
    var loan := LoanAmount(price, a);
    PositiveTimes(price, 1.0 - DownShare(a));
    assert loan > 0.0 <==> a.downPaymentPct < 100.0;
    if loan > 0.0 && a.amortYears > 0 {
      MortgageRepays(loan, a.interestRatePct, a.amortYears);
    }
  }

  /** With the form's defaults a 500000 purchase borrows 400000. */
  lemma DefaultLoan()
    ensures ComputeMetrics(Some(500000.0), None, None, DEFAULT_ASSUMPTIONS).loanAmount == Some(400000.0)
  {
  }
}
