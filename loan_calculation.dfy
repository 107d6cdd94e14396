// Loan amortization: the fixed-payment (annuity) calculation and the
// period-by-period schedule it produces. Amounts are exact reals standing in
// for the double-precision numbers of the original.

module LoanCalculation {

  /** One row of the amortization schedule. */
  datatype AmortizationEntry = AmortizationEntry(
    paymentNumber: nat,
    paymentAmount: real,
    principalPaid: real,
    interestPaid: real,
    remainingBalance: real)

  datatype LoanResult = LoanResult(
    monthlyPayment: real,
    totalPayment: real,
    totalInterest: real,
    amortizationSchedule: seq<AmortizationEntry>)

  // ---------------------------------------------------------------------------
  // Specification functions

  /** `Math.pow` for a natural exponent. */
  function Pow(x: real, n: nat): real
  {
    if n == 0 then 1.0 else x * Pow(x, n - 1)
  }

  /** The annual percentage rate turned into a monthly fraction. */
  function MonthlyRate(interestRate: real): real
  {
    interestRate / 12.0 / 100.0
  }

  /** The divisor of the annuity formula, `(1 + r)^n - 1`, is not zero. The
    * original has no branch for the case where it is. */
  predicate PaymentDefined(interestRate: real, loanTerm: nat)
  {
    Pow(1.0 + MonthlyRate(interestRate), loanTerm) != 1.0
  }

  /** The closed-form annuity payment. */
  function MonthlyPayment(principal: real, monthlyRate: real, loanTerm: nat): real
    requires Pow(1.0 + monthlyRate, loanTerm) != 1.0
  {
    principal * monthlyRate * Pow(1.0 + monthlyRate, loanTerm)
      / (Pow(1.0 + monthlyRate, loanTerm) - 1.0)
  }

  /** The equation the annuity payment solves, free of division:
    * payment * ((1+r)^n - 1) == P * r * (1+r)^n. */
  predicate AnnuityEquation(principal: real, monthlyRate: real, payment: real, loanTerm: nat)
  {
    payment * (Pow(1.0 + monthlyRate, loanTerm) - 1.0)
      == principal * monthlyRate * Pow(1.0 + monthlyRate, loanTerm)
  }

  /** The running (unclamped) balance after k periods, each of which charges
    * interest on the balance and pays the rest of `payment` off the principal. */
  function Balance(principal: real, monthlyRate: real, payment: real, k: nat): real
  {
    if k == 0 then principal
    else
      var before := Balance(principal, monthlyRate, payment, k - 1);
      var interestPaid := before * monthlyRate;
      before - (payment - interestPaid)
  }

  /** `Math.max` of two numbers. */
  function Max(a: real, b: real): real
  {
    if a >= b then a else b
  }

  /** The schedule entry of the (0-based) period k. */
  function EntryAt(principal: real, monthlyRate: real, payment: real, k: nat): AmortizationEntry
  {
    var interestPaid := Balance(principal, monthlyRate, payment, k) * monthlyRate;
    AmortizationEntry(
      k + 1,
      payment,
      payment - interestPaid,
      interestPaid,
      Max(0.0, Balance(principal, monthlyRate, payment, k + 1)))
  }

  /** The first k entries of the schedule, in period order. */
  function Schedule(principal: real, monthlyRate: real, payment: real, k: nat): seq<AmortizationEntry>
  {
    if k == 0 then []
    else Schedule(principal, monthlyRate, payment, k - 1) + [EntryAt(principal, monthlyRate, payment, k - 1)]
  }

  /** The sum of the principal portions of a sequence of entries. */
  function SumPrincipalPaid(s: seq<AmortizationEntry>): real
  {
    if s == [] then 0.0 else SumPrincipalPaid(s[..|s| - 1]) + s[|s| - 1].principalPaid
  }

  /** The sum of the interest portions of a sequence of entries. */
  function SumInterestPaid(s: seq<AmortizationEntry>): real
  {
    if s == [] then 0.0 else SumInterestPaid(s[..|s| - 1]) + s[|s| - 1].interestPaid
  }

  // ---------------------------------------------------------------------------
  // Lemmas about the specification

  lemma {:induction false} PowOne(n: nat)
    ensures Pow(1.0, n) == 1.0
  {
    if n > 0 { PowOne(n - 1); }
  }

  lemma {:induction false} PowAboveOne(x: real, n: nat)
    requires x > 1.0 && n >= 1
    ensures Pow(x, n) > 1.0
  {
    if n > 1 {
      PowAboveOne(x, n - 1);
      assert Pow(x, n) == x * Pow(x, n - 1);
    }
  }

  lemma {:induction false} PowMonotone(x: real, i: nat, j: nat)
    requires x >= 1.0 && i <= j
    ensures 1.0 <= Pow(x, i) <= Pow(x, j)
  {
    if i < j {
      PowMonotone(x, i, j - 1);
      assert Pow(x, j) == x * Pow(x, j - 1);
    } else if i > 0 {
      PowMonotone(x, 0, i);
    }
  }

  /** A positive rate over at least one period always gives a well-defined
    * payment. */
  lemma PositiveRateDefined(interestRate: real, loanTerm: nat)
    requires interestRate > 0.0 && loanTerm >= 1
    ensures PaymentDefined(interestRate, loanTerm)
  {
    PowAboveOne(1.0 + MonthlyRate(interestRate), loanTerm);
  }

  /** At a zero rate the divisor of the annuity formula is zero: the original
    * has no interest-free branch. */
  lemma ZeroRateUndefined(loanTerm: nat)
    ensures !PaymentDefined(0.0, loanTerm)
  {
    PowOne(loanTerm);
  }

  /** Each period: interest is charged on the balance before it, and the rest
    * of the payment reduces the balance. */
  lemma EntryAtParts(principal: real, monthlyRate: real, payment: real, k: nat)
    ensures var e := EntryAt(principal, monthlyRate, payment, k);
      && e.paymentNumber == k + 1
      && e.paymentAmount == payment
      && e.principalPaid + e.interestPaid == e.paymentAmount
      && e.interestPaid == Balance(principal, monthlyRate, payment, k) * monthlyRate
      && Balance(principal, monthlyRate, payment, k + 1)
         == Balance(principal, monthlyRate, payment, k) - e.principalPaid
      && e.remainingBalance >= 0.0
      && (Balance(principal, monthlyRate, payment, k + 1) >= 0.0 ==>
            e.remainingBalance == Balance(principal, monthlyRate, payment, k + 1))
      && (Balance(principal, monthlyRate, payment, k + 1) < 0.0 ==> e.remainingBalance == 0.0)
  {
  }

  /** The k-th entry of an n-period schedule is the entry of period k. */
  lemma {:induction false} ScheduleAt(principal: real, monthlyRate: real, payment: real, n: nat, k: nat)
    requires k < n
    ensures |Schedule(principal, monthlyRate, payment, n)| == n
    ensures Schedule(principal, monthlyRate, payment, n)[k] == EntryAt(principal, monthlyRate, payment, k)
  {
    ScheduleLength(principal, monthlyRate, payment, n - 1);
    if k < n - 1 {
      ScheduleAt(principal, monthlyRate, payment, n - 1, k);
    }
  }

  /** An n-period schedule has n entries. */
  lemma {:induction false} ScheduleLength(principal: real, monthlyRate: real, payment: real, n: nat)
    ensures |Schedule(principal, monthlyRate, payment, n)| == n
  {
    if n > 0 { ScheduleLength(principal, monthlyRate, payment, n - 1); }
  }

  /** Telescoping: the principal paid over the first k periods is exactly what
    * the running balance has dropped by. */
  lemma {:induction false} PrincipalPaidTelescopes(principal: real, monthlyRate: real, payment: real, k: nat)
    ensures SumPrincipalPaid(Schedule(principal, monthlyRate, payment, k))
            == principal - Balance(principal, monthlyRate, payment, k)
  {
    if k > 0 {
      var s := Schedule(principal, monthlyRate, payment, k);
      var e := EntryAt(principal, monthlyRate, payment, k - 1);
      ScheduleLength(principal, monthlyRate, payment, k - 1);
      assert s[..|s| - 1] == Schedule(principal, monthlyRate, payment, k - 1);
      PrincipalPaidTelescopes(principal, monthlyRate, payment, k - 1);
      EntryAtParts(principal, monthlyRate, payment, k - 1);
    }
  }

  /** Over the first k periods, interest and principal portions together add
    * up to k payments. */
  lemma {:induction false} PaymentsSplit(principal: real, monthlyRate: real, payment: real, k: nat)
    ensures SumInterestPaid(Schedule(principal, monthlyRate, payment, k))
            + SumPrincipalPaid(Schedule(principal, monthlyRate, payment, k))
            == payment * k as real
  {
    if k > 0 {
      var s := Schedule(principal, monthlyRate, payment, k);
      var e := EntryAt(principal, monthlyRate, payment, k - 1);
      ScheduleLength(principal, monthlyRate, payment, k - 1);
      assert s[..|s| - 1] == Schedule(principal, monthlyRate, payment, k - 1);
      assert s[|s| - 1] == e;
      PaymentsSplit(principal, monthlyRate, payment, k - 1);
      assert e.interestPaid + e.principalPaid == payment;
      assert payment * k as real == payment * (k - 1) as real + payment;
    }
  }

  /** One period of the closed form, as pure algebra: b and p are the balance
    * and the power (1+r)^k before the period, bNext and pNext after it. */
  lemma ClosedFormStep(principal: real, r: real, payment: real, b: real, p: real, bNext: real, pNext: real)
    requires b * r == principal * r * p - payment * (p - 1.0)
    requires bNext == b * (1.0 + r) - payment && pNext == (1.0 + r) * p
    ensures bNext * r == principal * r * pNext - payment * (pNext - 1.0)
  {
    assert bNext * r == b * r + r * (b * r) - payment * r;
    assert r * (b * r) == r * (principal * r * p) - r * (payment * (p - 1.0));
  }

  /** The running balance in closed form, scaled by the rate:
    * B(k) * r == P * r * (1+r)^k - payment * ((1+r)^k - 1). */
  lemma {:induction false} BalanceClosedForm(principal: real, monthlyRate: real, payment: real, k: nat)
    ensures Balance(principal, monthlyRate, payment, k) * monthlyRate
            == principal * monthlyRate * Pow(1.0 + monthlyRate, k)
               - payment * (Pow(1.0 + monthlyRate, k) - 1.0)
  {
    if k > 0 {
      BalanceClosedForm(principal, monthlyRate, payment, k - 1);
      BalanceStep(principal, monthlyRate, payment, k - 1);
      ClosedFormStep(principal, monthlyRate, payment,
        Balance(principal, monthlyRate, payment, k - 1), Pow(1.0 + monthlyRate, k - 1),
        Balance(principal, monthlyRate, payment, k), Pow(1.0 + monthlyRate, k));
    }
  }

  /** One period multiplies the balance by (1 + r) and takes off the payment. */
  lemma BalanceStep(principal: real, monthlyRate: real, payment: real, k: nat)
    ensures Balance(principal, monthlyRate, payment, k + 1)
            == Balance(principal, monthlyRate, payment, k) * (1.0 + monthlyRate) - payment
  {
  }

  /** The closed-form payment solves the annuity equation. */
  lemma PaymentSolvesAnnuity(principal: real, monthlyRate: real, loanTerm: nat)
    requires Pow(1.0 + monthlyRate, loanTerm) != 1.0
    ensures AnnuityEquation(principal, monthlyRate, MonthlyPayment(principal, monthlyRate, loanTerm), loanTerm)
  {
  }

  /** Over exact reals, a payment that solves the annuity equation drives the
    * running balance to exactly zero after the last period. */
  lemma PaidOffAtTerm(principal: real, monthlyRate: real, payment: real, loanTerm: nat)
    requires Pow(1.0 + monthlyRate, loanTerm) != 1.0
    requires AnnuityEquation(principal, monthlyRate, payment, loanTerm)
    ensures Balance(principal, monthlyRate, payment, loanTerm) == 0.0
  {
    BalanceClosedForm(principal, monthlyRate, payment, loanTerm);
    if monthlyRate == 0.0 {
      PowOne(loanTerm);
      assert false;
    }
  }

  /** The algebra behind BalanceWithinPrincipal: qn and qk stand for
    * (1+r)^n and (1+r)^k, m for the annuity payment, b for B(k). */
  lemma BalanceBoundAlgebra(principal: real, r: real, m: real, qn: real, qk: real, b: real)
    requires principal > 0.0 && r > 0.0 && 1.0 <= qk <= qn && qn > 1.0
    requires m * (qn - 1.0) == principal * r * qn
    requires b * r == principal * r * qk - m * (qk - 1.0)
    ensures 0.0 <= b <= principal
  {
    assert (b * r) * (qn - 1.0) == principal * r * qk * (qn - 1.0) - (m * (qn - 1.0)) * (qk - 1.0);
    assert (b * r) * (qn - 1.0) == principal * r * qk * (qn - 1.0) - principal * r * qn * (qk - 1.0);
    assert (b * (qn - 1.0)) * r == (principal * (qn - qk)) * r;
    assert b * (qn - 1.0) == principal * (qn - qk);
    assert 0.0 <= principal * (qn - qk) <= principal * (qn - 1.0);
    NonNegativeFactor(b, qn - 1.0);
    assert (principal - b) * (qn - 1.0) == principal * (qn - 1.0) - principal * (qn - qk);
    NonNegativeFactor(principal - b, qn - 1.0);
  }

  lemma NonNegativeFactor(x: real, d: real)
    requires d > 0.0 && x * d >= 0.0
    ensures x >= 0.0
  {
    assert x == (x * d) / d;
  }

  /** With a positive principal and rate, the running balance under the
    * annuity payment stays between zero and the principal up to the last
    * period, so over exact reals the clamp of the reported balance changes
    * nothing. */
  lemma BalanceWithinPrincipal(principal: real, monthlyRate: real, payment: real, loanTerm: nat, k: nat)
    requires principal > 0.0 && monthlyRate > 0.0 && loanTerm >= 1 && k <= loanTerm
    requires AnnuityEquation(principal, monthlyRate, payment, loanTerm)
    ensures 0.0 <= Balance(principal, monthlyRate, payment, k) <= principal
  {
    PowAboveOne(1.0 + monthlyRate, loanTerm);
    PowMonotone(1.0 + monthlyRate, k, loanTerm);
    BalanceClosedForm(principal, monthlyRate, payment, k);
    BalanceBoundAlgebra(principal, monthlyRate, payment,
      Pow(1.0 + monthlyRate, loanTerm), Pow(1.0 + monthlyRate, k),
      Balance(principal, monthlyRate, payment, k));
  }

  /** What every entry of an n-period schedule holds. */
  lemma ScheduleEntries(principal: real, monthlyRate: real, payment: real, n: nat)
    ensures var s := Schedule(principal, monthlyRate, payment, n);
      && |s| == n
      && forall k :: 0 <= k < n ==>
        && s[k].paymentNumber == k + 1
        && s[k].paymentAmount == payment
        && s[k].principalPaid + s[k].interestPaid == s[k].paymentAmount
        && s[k].remainingBalance >= 0.0
  {
    ScheduleLength(principal, monthlyRate, payment, n);
    forall k | 0 <= k < n
      ensures Schedule(principal, monthlyRate, payment, n)[k] == EntryAt(principal, monthlyRate, payment, k)
    {
      ScheduleAt(principal, monthlyRate, payment, n, k);
    }
  }

  /** The schedule of the annuity payment: the first period's interest is
    * charged on the whole principal, the last entry reports a zero balance,
    * and the principal portions add up to the principal. */
  lemma AnnuitySchedule(principal: real, monthlyRate: real, loanTerm: nat)
    requires Pow(1.0 + monthlyRate, loanTerm) != 1.0
    ensures loanTerm >= 1
    ensures var s := Schedule(principal, monthlyRate, MonthlyPayment(principal, monthlyRate, loanTerm), loanTerm);
      && |s| == loanTerm
      && s[0].interestPaid == principal * monthlyRate
      && s[loanTerm - 1].remainingBalance == 0.0
      && SumPrincipalPaid(s) == principal
  {
    var m := MonthlyPayment(principal, monthlyRate, loanTerm);
    ScheduleAt(principal, monthlyRate, m, loanTerm, 0);
    ScheduleAt(principal, monthlyRate, m, loanTerm, loanTerm - 1);
    PaymentSolvesAnnuity(principal, monthlyRate, loanTerm);
    PaidOffAtTerm(principal, monthlyRate, m, loanTerm);
    PrincipalPaidTelescopes(principal, monthlyRate, m, loanTerm);
  }

  /** The total interest reported, total payment minus principal, is the
    * interest charged over the schedule of the annuity payment. */
  lemma TotalInterestIsScheduleInterest(principal: real, monthlyRate: real, loanTerm: nat)
    requires Pow(1.0 + monthlyRate, loanTerm) != 1.0
    ensures var m := MonthlyPayment(principal, monthlyRate, loanTerm);
      SumInterestPaid(Schedule(principal, monthlyRate, m, loanTerm))
      == m * loanTerm as real - principal
  {
    var m := MonthlyPayment(principal, monthlyRate, loanTerm);
    PaymentsSplit(principal, monthlyRate, m, loanTerm);
    PrincipalPaidTelescopes(principal, monthlyRate, m, loanTerm);
    PaymentSolvesAnnuity(principal, monthlyRate, loanTerm);
    PaidOffAtTerm(principal, monthlyRate, m, loanTerm);
  }

  // ---------------------------------------------------------------------------
  // The calculation

  /** The schedule loop of `calculateLoan`: a forward loop over a running
    * balance that is never clamped, pushing one entry per period; only the
    * balance reported in each entry is floored at zero. */
  method BuildSchedule(principal: real, monthlyRate: real, monthlyPayment: real, loanTerm: nat)
    returns (amortizationSchedule: seq<AmortizationEntry>)
    ensures amortizationSchedule == Schedule(principal, monthlyRate, monthlyPayment, loanTerm)
    ensures |amortizationSchedule| == loanTerm
  {
    amortizationSchedule := [];
    var remainingBalance := principal;
    var i := 1;
    while i <= loanTerm
      invariant 1 <= i <= loanTerm + 1
      invariant |amortizationSchedule| == i - 1
      invariant remainingBalance == Balance(principal, monthlyRate, monthlyPayment, i - 1)
      invariant amortizationSchedule == Schedule(principal, monthlyRate, monthlyPayment, i - 1)
    {
      var interestPaid := remainingBalance * monthlyRate;
      var principalPaid := monthlyPayment - interestPaid;
      remainingBalance := remainingBalance - principalPaid;
      amortizationSchedule := amortizationSchedule + [AmortizationEntry(
        i, monthlyPayment, principalPaid, interestPaid, Max(0.0, remainingBalance))];
      i := i + 1;
    }
  }

  /** `calculateLoan`: the annuity payment, the totals, and the schedule. */
  method CalculateLoan(principal: real, interestRate: real, loanTerm: nat) returns (result: LoanResult)
    requires PaymentDefined(interestRate, loanTerm)
    ensures result.monthlyPayment == MonthlyPayment(principal, MonthlyRate(interestRate), loanTerm)
    ensures result.totalPayment == result.monthlyPayment * loanTerm as real
    ensures result.totalInterest == result.totalPayment - principal
    ensures result.amortizationSchedule == Schedule(principal, MonthlyRate(interestRate), result.monthlyPayment, loanTerm)
  {
    var monthlyRate := MonthlyRate(interestRate);
    var monthlyPayment := MonthlyPayment(principal, monthlyRate, loanTerm);
    var totalPayment := monthlyPayment * loanTerm as real;
    var totalInterest := totalPayment - principal;
    var amortizationSchedule := BuildSchedule(principal, monthlyRate, monthlyPayment, loanTerm);
    result := LoanResult(monthlyPayment, totalPayment, totalInterest, amortizationSchedule);
  }
}
