/** The annuity-payment calculator of the projection engine, and the loan
    schedules that a payment produces.

    Money and rates are exact reals. Pmt returns a payment with the sign of an
    outflow (negative for a positive loan balance), as the source does; the
    schedules below take the payment as the positive amount paid each period. */
module Amortization {

  function Max(a: real, b: real): (m: real)
    ensures m >= a && m >= b && (m == a || m == b)
  {
    if a >= b then a else b
  }

  /** x raised to a natural power; (1 + r) ** (-n) is 1 / Pow(1 + r, n). */
  function Pow(x: real, n: nat): real
  {
    if n == 0 then 1.0 else x * Pow(x, n - 1)
  }

  lemma {:induction false} PowPositive(x: real, n: nat)
    requires x > 0.0
    ensures Pow(x, n) > 0.0
  {
    if n > 0 {
      PowPositive(x, n - 1);
      MulPositive(x, Pow(x, n - 1));
    }
  }

  /** Compounding at a positive rate strictly grows a balance. */
  lemma {:induction false} PowAboveOne(x: real, n: nat)
    requires x > 1.0 && n >= 1
    ensures Pow(x, n) > 1.0
  {
    if n > 1 {
      PowAboveOne(x, n - 1);
      assert x * Pow(x, n - 1) > 1.0 * Pow(x, n - 1);
    }
  }

  /** Compounding at a negative rate above -100% strictly shrinks a balance. */
  lemma {:induction false} PowBelowOne(x: real, n: nat)
    requires 0.0 < x < 1.0 && n >= 1
    ensures 0.0 < Pow(x, n) < 1.0
  {
    if n > 1 {
      PowBelowOne(x, n - 1);
      assert x * Pow(x, n - 1) < 1.0 * Pow(x, n - 1);
    }
  }

  /** Pow of a base of at least 1 grows with the exponent. */
  lemma {:induction false} PowMonotone(x: real, m: nat, n: nat)
    requires x >= 1.0 && m <= n
    ensures 1.0 <= Pow(x, m) <= Pow(x, n)
  {
    if m < n {
      PowMonotone(x, m, n - 1);
      assert x * Pow(x, n - 1) >= 1.0 * Pow(x, n - 1);
    } else if m > 0 {
      PowMonotone(x, m - 1, m - 1);
      assert x * Pow(x, m - 1) >= 1.0 * Pow(x, m - 1);
    }
  }

  /** The growth factor (1 + r) ** n of a rate above -100% is positive, and
      lies above 1 or below 1 with the sign of the rate. */
  lemma GrowthFactorSign(rate: real, nper: nat)
    requires rate > -1.0 && nper >= 1
    ensures Pow(1.0 + rate, nper) > 0.0
    ensures rate > 0.0 ==> Pow(1.0 + rate, nper) > 1.0
    ensures rate < 0.0 ==> Pow(1.0 + rate, nper) < 1.0
  {
    PowPositive(1.0 + rate, nper);
    if rate > 0.0 {
      PowAboveOne(1.0 + rate, nper);
    } else if rate < 0.0 {
      PowBelowOne(1.0 + rate, nper);
    }
  }

  /** The payment that amortises a present value `pv` over `nper` periods at
      the periodic rate `rate`, with the sign of an outflow. Without interest
      it is the straight-line share pv / nper; otherwise the annuity formula
      rate * pv / (1 - (1 + rate) ** (-nper)). */
  function Pmt(rate: real, nper: int, pv: real): real
    requires rate > -1.0 && nper >= 1
  {
    if rate == 0.0 then
      -(pv / nper as real)
    else
      GrowthFactorSign(rate, nper);
      DenominatorNonZero(Pow(1.0 + rate, nper));
      -(rate * pv) / (1.0 - 1.0 / Pow(1.0 + rate, nper))
  }

  /** A payment is an outflow: negative for a loan, zero for no balance. */
  lemma PmtIsOutflow(rate: real, nper: int, pv: real)
    requires rate > -1.0 && nper >= 1
    ensures pv > 0.0 ==> Pmt(rate, nper, pv) < 0.0
    ensures pv == 0.0 ==> Pmt(rate, nper, pv) == 0.0
    ensures pv < 0.0 ==> Pmt(rate, nper, pv) > 0.0
  {
    if rate == 0.0 {
      QuotientSign(pv, nper as real);
    } else {
      GrowthFactorSign(rate, nper);
      AnnuitySignAlgebra(rate, pv, Pow(1.0 + rate, nper));
    }
  }

  /** `pay` is the level payment that amortises `pv` over `nper` periods at
      `rate`: pay * n == pv without interest, and otherwise
      pay * (P - 1) == rate * pv * P, where P is the growth factor over the
      whole term. */
  ghost predicate IsAnnuityPayment(rate: real, nper: nat, pv: real, pay: real)
  {
    if rate == 0.0 then
      pay * (nper as real) == pv
    else
      (Pow(1.0 + rate, nper) != 1.0 &&
       pay * (Pow(1.0 + rate, nper) - 1.0) == rate * pv * Pow(1.0 + rate, nper))
  }

  /** Pmt, negated, is the level payment of the loan. */
  lemma PmtIsAnnuityPayment(rate: real, nper: int, pv: real)
    requires rate > -1.0 && nper >= 1
    ensures IsAnnuityPayment(rate, nper, pv, -Pmt(rate, nper, pv))
  {
    if rate != 0.0 {
      GrowthFactorSign(rate, nper);
      AnnuityAlgebra(rate, pv, Pow(1.0 + rate, nper));
    }
  }

  /** One period of a loan: interest accrues on the balance, then the
      payment comes off. */
  function Accrue(b: real, rate: real, pay: real): real
  {
    b * (1.0 + rate) - pay
  }

  /** One period of a loan whose balance is floored at zero: an overpayment
      clears the loan and is not carried. */
  function Settle(b: real, rate: real, pay: real): (b': real)
    ensures b' >= 0.0 && b' >= Accrue(b, rate, pay) && (b' == 0.0 || b' == Accrue(b, rate, pay))
  {
    Max(Accrue(b, rate, pay), 0.0)
  }

  /** The balance still owed after k payments of `pay`, interest accruing on
      the previous balance first, with no floor. */
  function Owed(pv: real, rate: real, pay: real, k: nat): real
  {
    if k == 0 then pv else Accrue(Owed(pv, rate, pay, k - 1), rate, pay)
  }

  /** The closed form of the schedule, multiplied through by the rate. */
  lemma {:induction false} OwedClosedForm(pv: real, rate: real, pay: real, k: nat)
    ensures Owed(pv, rate, pay, k) * rate
         == pv * rate * Pow(1.0 + rate, k) - pay * (Pow(1.0 + rate, k) - 1.0)
  {
    if k > 0 {
      OwedClosedForm(pv, rate, pay, k - 1);
      ClosedFormStep(Owed(pv, rate, pay, k - 1), pv, rate, pay, Pow(1.0 + rate, k - 1),
                     Owed(pv, rate, pay, k), Pow(1.0 + rate, k));
    }
  }

  /** Without interest every payment comes straight off the balance. */
  lemma {:induction false} OwedWithoutInterest(pv: real, pay: real, k: nat)
    ensures Owed(pv, 0.0, pay, k) == pv - (k as real) * pay
  {
    if k > 0 {
      OwedWithoutInterest(pv, pay, k - 1);
    }
  }

  /** A level payment pays a loan off exactly at the end of its term. */
  lemma LevelPaymentAmortizes(rate: real, nper: nat, pv: real, pay: real)
    requires nper >= 1 && IsAnnuityPayment(rate, nper, pv, pay)
    ensures Owed(pv, rate, pay, nper) == 0.0
  {
    if rate == 0.0 {
      OwedWithoutInterest(pv, pay, nper);
    } else {
      OwedClosedForm(pv, rate, pay, nper);
      AmortizedAlgebra(Owed(pv, rate, pay, nper), rate, pv, pay, Pow(1.0 + rate, nper));
    }
  }

  /** While a payment covers the interest on the original balance, the
      balance never grows: it shrinks period by period and stays below pv. */
  lemma {:induction false} OwedDecreasing(rate: real, pv: real, pay: real, k: nat)
    requires rate >= 0.0 && pv * rate <= pay
    ensures Owed(pv, rate, pay, k + 1) <= Owed(pv, rate, pay, k) <= pv
  {
    if k > 0 {
      OwedDecreasing(rate, pv, pay, k - 1);
    }
    InterestStep(rate, pv, pay, Owed(pv, rate, pay, k), Owed(pv, rate, pay, k + 1));
  }

  lemma {:induction false} OwedChain(rate: real, pv: real, pay: real, k: nat, k': nat)
    requires rate >= 0.0 && pv * rate <= pay && k <= k'
    ensures Owed(pv, rate, pay, k') <= Owed(pv, rate, pay, k)
  {
    if k' > k {
      OwedChain(rate, pv, pay, k, k' - 1);
      OwedDecreasing(rate, pv, pay, k' - 1);
    }
  }

  /** The annuity payment pays a loan off exactly at the end of its term. */
  lemma PmtAmortizes(rate: real, nper: int, pv: real)
    requires rate > -1.0 && nper >= 1
    ensures Owed(pv, rate, -Pmt(rate, nper, pv), nper) == 0.0
  {
    PmtIsAnnuityPayment(rate, nper, pv);
    LevelPaymentAmortizes(rate, nper, pv, -Pmt(rate, nper, pv));
  }

  /** With one period left the payment is the whole balance with its interest. */
  lemma PmtLastPeriod(rate: real, pv: real)
    requires rate > -1.0
    ensures -Pmt(rate, 1, pv) == pv * (1.0 + rate)
  {
    PmtIsAnnuityPayment(rate, 1, pv);
    LastPeriodAlgebra(rate, pv, -Pmt(rate, 1, pv));
  }

  /** At a non-negative rate, a payment covers at least the period's interest
      and never more than the balance with its interest. */
  lemma PmtBounds(rate: real, nper: int, pv: real)
    requires rate >= 0.0 && nper >= 1 && pv >= 0.0
    ensures pv * rate <= -Pmt(rate, nper, pv) <= pv * (1.0 + rate)
  {
    PmtIsAnnuityPayment(rate, nper, pv);
    LevelPaymentBounds(rate, nper, pv, -Pmt(rate, nper, pv));
  }

  lemma LevelPaymentBounds(rate: real, nper: nat, pv: real, pay: real)
    requires rate >= 0.0 && nper >= 1 && pv >= 0.0 && IsAnnuityPayment(rate, nper, pv, pay)
    ensures pv * rate <= pay <= pv * (1.0 + rate)
  {
    if rate == 0.0 {
      ZeroRateBounds(pv, nper as real, pay);
    } else {
      GrowthFactorSign(rate, nper);
      PowMonotone(1.0 + rate, 1, nper);
      PaymentBoundsAlgebra(rate, pv, pay, Pow(1.0 + rate, nper));
    }
  }

  /** Re-amortising the balance left after one payment over the remaining
      term gives back the same payment. */
  lemma ReamortizedPayment(rate: real, nper: int, pv: real)
    requires rate > -1.0 && nper >= 2
    ensures Pmt(rate, nper - 1, Accrue(pv, rate, -Pmt(rate, nper, pv))) == Pmt(rate, nper, pv)
  {
    var pay := -Pmt(rate, nper, pv);
    var b := Accrue(pv, rate, pay);
    PmtIsAnnuityPayment(rate, nper, pv);
    LevelPaymentRollsForward(rate, nper, pv, pay);
    PmtIsAnnuityPayment(rate, nper - 1, b);
    AnnuityPaymentUnique(rate, nper - 1, b, pay, -Pmt(rate, nper - 1, b));
  }

  /** After one level payment, the same payment retires what is left over
      one period fewer. */
  lemma LevelPaymentRollsForward(rate: real, nper: nat, pv: real, pay: real)
    requires rate > -1.0 && nper >= 2 && IsAnnuityPayment(rate, nper, pv, pay)
    ensures IsAnnuityPayment(rate, nper - 1, Accrue(pv, rate, pay), pay)
  {
    if rate == 0.0 {
      assert pay * ((nper - 1) as real) == pay * (nper as real) - pay;
    } else {
      GrowthFactorSign(rate, nper - 1);
      RollForwardAlgebra(rate, pv, pay, Pow(1.0 + rate, nper - 1), Pow(1.0 + rate, nper), Accrue(pv, rate, pay));
    }
  }

  /** A loan has only one level payment for a given term. */
  lemma AnnuityPaymentUnique(rate: real, nper: nat, pv: real, pay: real, pay': real)
    requires nper >= 1 && IsAnnuityPayment(rate, nper, pv, pay) && IsAnnuityPayment(rate, nper, pv, pay')
    ensures pay == pay'
  {
    if rate == 0.0 {
      CancelNonZero(pay, pay', nper as real);
    } else {
      CancelNonZero(pay, pay', Pow(1.0 + rate, nper) - 1.0);
    }
  }

  /** The converse of PmtAmortizes: a level payment that leaves nothing owed
      at the end of the term is the one Pmt computes. */
  lemma AmortizingPaymentIsPmt(rate: real, nper: int, pv: real, pay: real)
    requires rate > -1.0 && nper >= 1 && Owed(pv, rate, pay, nper) == 0.0
    ensures pay == -Pmt(rate, nper, pv)
  {
    if rate == 0.0 {
      OwedWithoutInterest(pv, pay, nper);
    } else {
      OwedClosedForm(pv, rate, pay, nper);
      GrowthFactorSign(rate, nper);
      assert IsAnnuityPayment(rate, nper, pv, pay);
    }
    PmtIsAnnuityPayment(rate, nper, pv);
    AnnuityPaymentUnique(rate, nper, pv, pay, -Pmt(rate, nper, pv));
  }

  /** With more than one period to go, a payment at a non-negative rate leaves
      part of a positive balance owing. */
  lemma PmtLeavesBalance(rate: real, nper: int, pv: real)
    requires rate >= 0.0 && nper >= 2 && pv > 0.0
    ensures Accrue(pv, rate, -Pmt(rate, nper, pv)) > 0.0
  {
    var pay := -Pmt(rate, nper, pv);
    PmtIsAnnuityPayment(rate, nper, pv);
    if rate == 0.0 {
      ZeroRateRemainder(pv, nper as real, pay);
    } else {
      PowAboveOne(1.0 + rate, nper - 1);
      StrictBoundsAlgebra(rate, pv, pay, Pow(1.0 + rate, nper - 1), Pow(1.0 + rate, nper));
    }
  }

  /** The balance after k periods when each period interest accrues, the
      payment is subtracted and the result is floored at zero. */
  function Balance(pv: real, rate: real, pay: real, k: nat): (b: real)
    requires pv >= 0.0
    ensures b >= 0.0
  {
    if k == 0 then pv else Settle(Balance(pv, rate, pay, k - 1), rate, pay)
  }

  /** While the payment covers the interest on the original balance and the
      unfloored schedule reaches zero at the end of the term, the floor never
      bites before the term ends and the loan stays paid off afterwards. */
  lemma {:induction false} LevelPaymentSchedule(rate: real, nper: nat, pv: real, pay: real, k: nat)
    requires rate >= 0.0 && pv >= 0.0 && pv * rate <= pay && Owed(pv, rate, pay, nper) == 0.0
    ensures Balance(pv, rate, pay, k) == if k <= nper then Owed(pv, rate, pay, k) else 0.0
  {
    if k > 0 {
      LevelPaymentSchedule(rate, nper, pv, pay, k - 1);
      if k <= nper {
        OwedChain(rate, pv, pay, k, nper);
      } else {
        MulNonNegative(pv, rate);
      }
    }
  }

  /** A loan on a level payment never grows, and is paid off from the end of
      its term onwards. */
  lemma LevelPaymentPaidOff(rate: real, nper: nat, pv: real, pay: real, k: nat)
    requires rate >= 0.0 && nper >= 1 && pv >= 0.0 && IsAnnuityPayment(rate, nper, pv, pay)
    ensures Balance(pv, rate, pay, k + 1) <= Balance(pv, rate, pay, k)
    ensures k >= nper ==> Balance(pv, rate, pay, k) == 0.0
  {
    LevelPaymentBounds(rate, nper, pv, pay);
    LevelPaymentAmortizes(rate, nper, pv, pay);
    LevelPaymentSchedule(rate, nper, pv, pay, k);
    LevelPaymentSchedule(rate, nper, pv, pay, k + 1);
    if k < nper {
      OwedDecreasing(rate, pv, pay, k);
    }
  }

  /** A loan on its annuity payment never grows, and is paid off from the end
      of its term onwards. */
  lemma FixedLoanPaidOff(rate: real, nper: int, pv: real, k: nat)
    requires rate >= 0.0 && nper >= 1 && pv >= 0.0
    ensures Balance(pv, rate, -Pmt(rate, nper, pv), k + 1) <= Balance(pv, rate, -Pmt(rate, nper, pv), k)
    ensures k >= nper ==> Balance(pv, rate, -Pmt(rate, nper, pv), k) == 0.0
  {
    PmtIsAnnuityPayment(rate, nper, pv);
    LevelPaymentPaidOff(rate, nper, pv, -Pmt(rate, nper, pv), k);
  }

  /** A 1200 loan at rate 0 over 12 months pays 100 a month and is paid off
      after the twelfth payment. */
  lemma ZeroRateLoanExample()
    ensures Pmt(0.0, 12, 1200.0) == -100.0
    ensures Balance(1200.0, 0.0, 100.0, 12) == 0.0
  {
    FixedLoanPaidOff(0.0, 12, 1200.0, 12);
  }

  // Field algebra on plain variables, kept apart so that the solver sees no
  // function applications while it normalises the polynomials.

  lemma ClosedFormStep(b: real, pv: real, rate: real, pay: real, p: real, b': real, p': real)
    requires b * rate == pv * rate * p - pay * (p - 1.0)
    requires b' == b * (1.0 + rate) - pay && p' == (1.0 + rate) * p
    ensures b' * rate == pv * rate * p' - pay * (p' - 1.0)
  {
  }

  lemma DenominatorNonZero(p: real)
    requires p > 0.0 && p != 1.0
    ensures 1.0 - 1.0 / p != 0.0
  {
  }

  lemma QuotientSign(a: real, c: real)
    requires c > 0.0
    ensures a > 0.0 ==> -(a / c) < 0.0
    ensures a == 0.0 ==> -(a / c) == 0.0
    ensures a < 0.0 ==> -(a / c) > 0.0
  {
  }

  lemma AnnuitySignAlgebra(rate: real, pv: real, p: real)
    requires rate != 0.0 && p > 0.0
    requires (rate > 0.0 ==> p > 1.0) && (rate < 0.0 ==> p < 1.0)
    ensures 1.0 - 1.0 / p != 0.0
    ensures pv > 0.0 ==> -(rate * pv) / (1.0 - 1.0 / p) < 0.0
    ensures pv == 0.0 ==> -(rate * pv) / (1.0 - 1.0 / p) == 0.0
    ensures pv < 0.0 ==> -(rate * pv) / (1.0 - 1.0 / p) > 0.0
  {
    var d := 1.0 - 1.0 / p;
    assert rate > 0.0 ==> 1.0 / p < 1.0;
    assert rate < 0.0 ==> 1.0 / p > 1.0;
    var q := rate / d;
    assert q > 0.0;
    assert -(rate * pv) / d == -(q * pv);
  }

  lemma AnnuityAlgebra(rate: real, pv: real, p: real)
    requires p > 0.0 && p != 1.0
    ensures 1.0 - 1.0 / p != 0.0
    ensures -(-(rate * pv) / (1.0 - 1.0 / p)) * (p - 1.0) == rate * pv * p
  {
    var d := 1.0 - 1.0 / p;
    assert d * p == p - 1.0;
    var q := (rate * pv) / d;
    assert q * d == rate * pv;
    calc {
      q * (p - 1.0);
      q * (d * p);
      (q * d) * p;
    }
  }

  lemma ZeroProduct(b: real, c: real)
    requires c != 0.0 && b * c == 0.0
    ensures b == 0.0
  {
  }

  lemma LastPeriodAlgebra(rate: real, pv: real, pay: real)
    requires IsAnnuityPayment(rate, 1, pv, pay)
    ensures pay == pv * (1.0 + rate)
  {
    assert Pow(1.0 + rate, 1) == 1.0 + rate;
    if rate != 0.0 {
      assert rate * pay == rate * (pv * (1.0 + rate));
    }
  }

  lemma ZeroRateBounds(pv: real, n: real, pay: real)
    requires pv >= 0.0 && n >= 1.0 && pay * n == pv
    ensures pv * 0.0 <= pay <= pv * (1.0 + 0.0)
  {
    CancelPositive(0.0, pay, n);
    MulMonotone(pay, n, 1.0);
  }

  lemma PaymentBoundsAlgebra(rate: real, pv: real, pay: real, pn: real)
    requires rate > 0.0 && pv >= 0.0 && pn > 1.0 && pn >= 1.0 + rate
    requires pay * (pn - 1.0) == rate * pv * pn
    ensures pv * rate <= pay <= pv * (1.0 + rate)
  {
    MulNonNegative(rate * pv, 1.0);
    assert pay * (pn - 1.0) == (pv * rate) * (pn - 1.0) + rate * pv;
    CancelPositive(pv * rate, pay, pn - 1.0);
    MulNonNegative(pv, pn - 1.0 - rate);
    assert (pv * (1.0 + rate)) * (pn - 1.0) == pay * (pn - 1.0) + pv * (pn - 1.0 - rate);
    CancelPositive(pay, pv * (1.0 + rate), pn - 1.0);
  }

  lemma MulPositive(a: real, b: real)
    requires a > 0.0 && b > 0.0
    ensures a * b > 0.0
  {
  }

  lemma MulNonNegative(a: real, b: real)
    requires a >= 0.0 && b >= 0.0
    ensures a * b >= 0.0
  {
  }

  lemma MulMonotone(a: real, x: real, y: real)
    requires a >= 0.0 && x >= y
    ensures a * x >= a * y
  {
    MulNonNegative(a, x - y);
  }

  lemma CancelPositive(a: real, b: real, c: real)
    requires c > 0.0 && a * c <= b * c
    ensures a <= b
  {
    if a > b {
      MulPositive(c, a - b);
    }
  }

  lemma AmortizedAlgebra(b: real, rate: real, pv: real, pay: real, p: real)
    requires rate != 0.0
    requires b * rate == pv * rate * p - pay * (p - 1.0)
    requires pay * (p - 1.0) == rate * pv * p
    ensures b == 0.0
  {
    assert b * rate == 0.0;
  }

  lemma InterestStep(rate: real, pv: real, pay: real, b: real, b': real)
    requires rate >= 0.0 && b <= pv && pv * rate <= pay && b' == b * (1.0 + rate) - pay
    ensures b' <= b
  {
    MulMonotone(rate, pv, b);
  }

  lemma CancelNonZero(a: real, b: real, c: real)
    requires c != 0.0 && a * c == b * c
    ensures a == b
  {
    ZeroProduct(a - b, c);
  }

  lemma RollForwardAlgebra(rate: real, pv: real, pay: real, p1: real, p: real, b: real)
    requires p == (1.0 + rate) * p1 && pay * (p - 1.0) == rate * pv * p && b == pv * (1.0 + rate) - pay
    ensures pay * (p1 - 1.0) == rate * b * p1
  {
  }

  lemma ZeroRateRemainder(pv: real, n: real, pay: real)
    requires pv > 0.0 && n >= 2.0 && pay * n == pv
    ensures pv * (1.0 + 0.0) - pay > 0.0
  {
    assert pay > 0.0;
  }

  lemma StrictBoundsAlgebra(rate: real, pv: real, pay: real, p1: real, p: real)
    requires rate > 0.0 && pv > 0.0 && p1 > 1.0 && p == (1.0 + rate) * p1
    requires pay * (p - 1.0) == rate * pv * p
    ensures pv * (1.0 + rate) - pay > 0.0
  {
    MulPositive(rate, p1 - 1.0);
    assert p - 1.0 - rate == p1 - 1.0 + rate * (p1 - 1.0);
    MulPositive(pv, p - 1.0 - rate);
    assert (pv * (1.0 + rate) - pay) * (p - 1.0) == pv * (p - 1.0 - rate);
    if pv * (1.0 + rate) - pay <= 0.0 {
      MulNonNegative(pay - pv * (1.0 + rate), p - 1.0);
    }
  }
}
