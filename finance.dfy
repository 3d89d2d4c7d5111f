/** The arithmetic the investment calculators share: `Math.round`,
    `Math.pow` with a whole exponent, and the level payment of a fully
    amortising loan, `P * (r * (1 + r)^n) / ((1 + r)^n - 1)`, that
    lib/invest.ts and components/RealEstateROIAnalyzer.tsx both write out.
    Numbers are exact reals. */
module Finance {

  /** `Math.round(x)`: the nearest integer, halves rounded up. */
  function Round(x: real): (r: int)
    ensures r as real - 0.5 <= x < r as real + 0.5
  {
    (x + 0.5).Floor
  }

  /** An integer rounds to itself. */
  lemma RoundOfInt(k: int)
    ensures Round(k as real) == k
  {
  }

  /** `Math.pow(q, n)` for a whole `n`. */
  function Pow(q: real, n: nat): real
  {
    if n == 0 then 1.0 else q * Pow(q, n - 1)
  }

  lemma {:induction false} PowPositive(q: real, n: nat)
    requires q > 0.0
    ensures Pow(q, n) > 0.0
  {
    if n > 0 {
      PowPositive(q, n - 1);
    }
  }

  lemma {:induction false} PowAboveOne(q: real, n: nat)
    requires q > 1.0 && n > 0
    ensures Pow(q, n) > 1.0
  {
    if n > 1 {
      PowAboveOne(q, n - 1);
      assert q * Pow(q, n - 1) > Pow(q, n - 1);
    }
  }

  lemma {:induction false} PowBelowOne(q: real, n: nat)
    requires 0.0 < q < 1.0 && n > 0
    ensures Pow(q, n) < 1.0
  {
    if n > 1 {
      PowBelowOne(q, n - 1);
      PowPositive(q, n - 1);
      assert q * Pow(q, n - 1) < Pow(q, n - 1);
    }
  }

  /** A positive growth factor other than 1 never compounds back to 1, so the
      payment formula never divides by zero. */
  lemma PowNotOne(q: real, n: nat)
    requires q > 0.0 && q != 1.0 && n > 0
    ensures Pow(q, n) != 1.0
  {
    if q > 1.0 {
      PowAboveOne(q, n);
    } else {
      PowBelowOne(q, n);
    }
  }

  /** The level payment that repays `principal` in `n` periods at `rate` per
      period; with no interest, an equal share of the principal. */
  function AmortizedPayment(principal: real, rate: real, n: nat): (p: real)
    requires n > 0 && rate > -1.0
    ensures rate == 0.0 ==> p * n as real == principal
  {
    if rate == 0.0 then principal / n as real
    else
      PowNotOne(1.0 + rate, n);
      principal * (rate * Pow(1.0 + rate, n)) / (Pow(1.0 + rate, n) - 1.0)
  }

  /** What is still owed after `k` periods of interest at `rate` and a
      payment of `payment` at the end of each. */
  function Balance(principal: real, rate: real, payment: real, k: nat): real
  {
    if k == 0 then principal else Balance(principal, rate, payment, k - 1) * (1.0 + rate) - payment
  }

  /** One period of the closed form below, as plain algebra: `nb` is the
      next balance and `np` the next power. */
  lemma ClosedFormStep(b: real, rate: real, payment: real, principal: real, p: real, nb: real, np: real)
    requires b * rate == principal * rate * p - payment * (p - 1.0)
    requires nb == b * (1.0 + rate) - payment && np == (1.0 + rate) * p
    ensures nb * rate == principal * rate * np - payment * (np - 1.0)
  {
    calc {
      nb * rate;
      (b * (1.0 + rate) - payment) * rate;
      (b * rate) * (1.0 + rate) - payment * rate;
      (principal * rate * p - payment * (p - 1.0)) * (1.0 + rate) - payment * rate;
      principal * rate * ((1.0 + rate) * p) - payment * ((1.0 + rate) * p - 1.0);
    }
  }

  /** `rate * B_k == rate * P * q^k - payment * (q^k - 1)` with `q = 1 + rate`. */
  lemma {:induction false} BalanceClosedForm(principal: real, rate: real, payment: real, k: nat)
    ensures Balance(principal, rate, payment, k) * rate
            == principal * rate * Pow(1.0 + rate, k) - payment * (Pow(1.0 + rate, k) - 1.0)
  {
    if k > 0 {
      var b := Balance(principal, rate, payment, k - 1);
      var p := Pow(1.0 + rate, k - 1);
      assert b * rate == principal * rate * p - payment * (p - 1.0) by {
        BalanceClosedForm(principal, rate, payment, k - 1);
      }
      ClosedFormStep(b, rate, payment, principal, p, Balance(principal, rate, payment, k), Pow(1.0 + rate, k));
    }
  }

  /** With no interest the balance falls by one payment each period. */
  lemma {:induction false} BalanceNoInterest(principal: real, payment: real, k: nat)
    ensures Balance(principal, 0.0, payment, k) == principal - k as real * payment
  {
    if k > 0 {
      BalanceNoInterest(principal, payment, k - 1);
    }
  }

  /** Paying `AmortizedPayment` for `n` periods repays the loan exactly. */
  lemma AmortizationRepays(principal: real, rate: real, n: nat)
    requires n > 0 && rate > -1.0
    ensures Balance(principal, rate, AmortizedPayment(principal, rate, n), n) == 0.0
  {
    var payment := AmortizedPayment(principal, rate, n);
    if rate == 0.0 {
      BalanceNoInterest(principal, payment, n);
    } else {
      var big := Pow(1.0 + rate, n);
      PowNotOne(1.0 + rate, n);
      assert payment * (big - 1.0) == principal * (rate * big);
      BalanceClosedForm(principal, rate, payment, n);
      assert Balance(principal, rate, payment, n) * rate == 0.0;
    }
  }

  /** A positive loan always has a positive payment, whatever the sign of
      the rate. */
  lemma PaymentPositive(principal: real, rate: real, n: nat)
    requires n > 0 && rate > -1.0 && principal > 0.0
    ensures AmortizedPayment(principal, rate, n) > 0.0
  {
    if rate != 0.0 {
      var big := Pow(1.0 + rate, n);
      PowPositive(1.0 + rate, n);
      if rate > 0.0 {
        PowAboveOne(1.0 + rate, n);
        assert rate * big > 0.0 && big - 1.0 > 0.0;
        assert principal * (rate * big) > 0.0;
      } else {
        PowBelowOne(1.0 + rate, n);
        assert rate * big < 0.0 && big - 1.0 < 0.0;
        assert principal * (rate * big) < 0.0;
      }
    }
  }

  /** With interest, the payment is more than the first period's interest, so
      the balance starts falling at once. */
  lemma PaymentExceedsInterest(principal: real, rate: real, n: nat)
    requires n > 0 && rate > 0.0 && principal > 0.0
    ensures AmortizedPayment(principal, rate, n) > principal * rate
  {
    var big := Pow(1.0 + rate, n);
    PowAboveOne(1.0 + rate, n);
    var d := big - 1.0;
    assert principal * (rate * big) == principal * rate * d + principal * rate;
    var pr := principal * rate;
    assert pr > 0.0 && d > 0.0;
    assert (pr * d + pr) / d == pr + pr / d;
    assert pr / d > 0.0;
  }
}
