# Loan and currency calculations, modelled in Dafny

This project models the computational core of a personal-finance web app. The
app has a loan calculator and a currency converter.

- **Loan calculation** (`calculateLoan`): from a principal, an annual
  percentage rate and a term in months, it computes the fixed monthly annuity
  payment, the total paid, the total interest and a month-by-month
  amortization schedule. The schedule is produced by a loop over a running
  balance. Each entry splits the payment into interest on the balance before
  the month and principal. The balance the entry reports is floored at zero;
  the running balance itself is never clamped.
- **Amount conversion** (`convertAmount` of the currency context): with no
  rate table loaded the result is 0. Otherwise the amount is multiplied by
  the ratio of the target's rate to the source's rate. All rates in the table
  are quoted against one anchor currency, the currency the table was fetched
  for.
- **Converter effect** (`useCurrencyConverter`): when the amount is positive
  and a table is loaded, it builds a result record. The record holds the
  converted amount, the two currency codes and a display rate. The display
  rate is computed through three branches that assume a USD-anchored table.

Amounts are Dafny `real`s: exact rationals that stand in for the original's
double-precision numbers. `Math.pow` with a natural exponent is the recursive
`LoanCalculation.Pow`. A rate table is a `map<string, real>`, and "not loaded
yet" is `None` of an `Option`.

Files:
- `option.dfy` — the `Option` datatype.
- `loan_calculation.dfy` — module `LoanCalculation`: the specification
  functions (`MonthlyPayment`, `Balance`, `EntryAt`, `Schedule`), the lemmas
  about them, and the methods `BuildSchedule` and `CalculateLoan`.
- `currency_context.dfy` — module `CurrencyContext`: `ConvertAmount` and its
  algebra.
- `currency_converter.dfy` — module `CurrencyConverter`: the effect as a
  function from its inputs to an optional result record, plus the display
  rate discrepancy and its correction.

## Model

| member | source | states |
|---|---|---|
| LoanCalculation.CalculateLoan | src/hooks/useLoanCalculation.js:8-50 | The payment is the closed-form annuity payment at the monthly rate `interestRate/12/100`. The total is payment × term, the interest is total − principal, and the schedule is the period-by-period schedule of that payment. Besides the term being a natural number of months, the only precondition is that the formula's divisor `(1+r)^n − 1` is nonzero. |
| LoanCalculation.BuildSchedule | src/hooks/useLoanCalculation.js:23-38 | The loop over the unclamped running balance pushes exactly `loanTerm` entries, and the result equals the specification `Schedule` of the given payment. |
| LoanCalculation.EntryAtParts | src/hooks/useLoanCalculation.js:26-37 | In every period the entry number is k+1 and the amount is the payment. Interest is charged on the balance before the period, principal plus interest equals the payment, and the balance drops by the principal portion. The reported balance is never negative: it equals the running balance when that is non-negative and is 0 otherwise. |
| LoanCalculation.ScheduleAt | src/hooks/useLoanCalculation.js:26-37 | The k-th entry of an n-period schedule is the entry of period k, and the schedule has n entries. |
| LoanCalculation.ScheduleLength | src/hooks/useLoanCalculation.js:26 | An n-period schedule has n entries. |
| LoanCalculation.ScheduleEntries | src/hooks/useLoanCalculation.js:26-37 | For any payment, every entry of the schedule is numbered from 1 in order, carries the payment, splits it exactly into principal and interest, and reports a balance ≥ 0. |
| LoanCalculation.PrincipalPaidTelescopes | src/hooks/useLoanCalculation.js:24-29 | After k periods, the principal portions of the first k entries add up to exactly principal − running balance. This is the loop's invariant, for any payment. |
| LoanCalculation.PaymentsSplit | src/hooks/useLoanCalculation.js:26-33 | Over the first k periods, the interest and principal portions together add up to exactly k payments, for any payment. |
| LoanCalculation.TotalInterestIsScheduleInterest | src/hooks/useLoanCalculation.js:20-38 | Under the annuity payment, the reported total interest (payment × term − principal) equals the sum of the schedule's interest portions. |
| LoanCalculation.BalanceStep | src/hooks/useLoanCalculation.js:27-29 | One period turns the balance B into B·(1+r) − payment. |
| LoanCalculation.BalanceClosedForm | src/hooks/useLoanCalculation.js:24-29 | Closed form of the running balance: B(k)·r = P·r·(1+r)^k − payment·((1+r)^k − 1). |
| LoanCalculation.PaymentSolvesAnnuity | src/hooks/useLoanCalculation.js:14-18 | The computed payment m satisfies the annuity equation m·((1+r)^n − 1) = P·r·(1+r)^n. |
| LoanCalculation.PaidOffAtTerm | src/hooks/useLoanCalculation.js:14-29 | Any payment that solves the annuity equation brings the running balance to exactly 0 after the last period. |
| LoanCalculation.AnnuitySchedule | src/hooks/useLoanCalculation.js:14-38 | For the computed payment, the schedule has `loanTerm ≥ 1` entries. The first period's interest is principal × rate, the last entry reports a balance of 0, and the principal portions add up to the principal. |
| LoanCalculation.BalanceWithinPrincipal | src/hooks/useLoanCalculation.js:24-36 | With a positive principal and rate, the running balance under the annuity payment stays within [0, principal] in every period up to the term. So with exact arithmetic the `Math.max(0, …)` clamp never changes a reported balance. |
| LoanCalculation.PositiveRateDefined | src/hooks/useLoanCalculation.js:12-18 | A positive annual rate over at least one month always gives a well-defined payment. |
| LoanCalculation.ZeroRateUndefined | src/hooks/useLoanCalculation.js:12-18 | At a zero rate the divisor of the formula is 0 for every term, because the code has no interest-free branch. |
| LoanCalculation.PowAboveOne | src/hooks/useLoanCalculation.js:17-18 | `Math.pow(x, n)` exceeds 1 when x > 1 and n ≥ 1. |
| LoanCalculation.PowMonotone | src/hooks/useLoanCalculation.js:17-18 | `Math.pow(x, ·)` is at least 1 and does not decrease in the exponent when x ≥ 1. |
| LoanCalculation.PowOne | src/hooks/useLoanCalculation.js:17-18 | `Math.pow(1, n)` is 1. |
| CurrencyContext.ConvertAmount | src/contexts/CurrencyContext.jsx:81-86 | With no table the result is 0. Otherwise the result is worth the same in anchor units as the amount: result / rate(to) = amount / rate(from). |
| CurrencyContext.ConvertIdentity | src/contexts/CurrencyContext.jsx:83-85 | Converting a currency to itself returns the amount. |
| CurrencyContext.ConvertRoundTrip | src/contexts/CurrencyContext.jsx:83-85 | Converting A to B and back to A returns the original amount. |
| CurrencyContext.ConvertCompose | src/contexts/CurrencyContext.jsx:83-85 | Converting A→B and then B→C equals converting A→C. |
| CurrencyContext.ConvertAnchorIndependent | src/contexts/CurrencyContext.jsx:81-86 | Re-quoting the table against another base currency (every rate scaled by one positive factor, built by the helper `Rescale`) changes no conversion. So a table fetched for a new base (src/contexts/CurrencyContext.jsx:59) that quotes the same cross rates gives the same conversions. |
| CurrencyConverter.DisplayRate | src/hooks/useCurrencyConverter.js:28-39 | A USD base shows the target's rate. A USD target shows the reciprocal of the base's rate. Any other pair shows target rate / base rate, which is 1 for a currency against itself. |
| CurrencyConverter.ConvertEffect | src/hooks/useCurrencyConverter.js:18-53 | A result exists exactly when the amount is positive and a table is loaded. The result records the base and target codes, the amount converted by `convertAmount` and the display rate. |
| CurrencyConverter.CrossRateAgrees | src/hooks/useCurrencyConverter.js:35-46 | For two non-USD currencies, the converted amount is amount × display rate whatever the table's anchor. |
| CurrencyConverter.UsdAnchoredRateAgrees | src/hooks/useCurrencyConverter.js:30-46 | On a table whose USD rate is 1, the converted amount is amount × display rate in all three branches. |
| CurrencyConverter.UsdTargetRateIgnoresTable | src/hooks/useCurrencyConverter.js:33-34 | With a non-USD base, a USD target and a table quoting the base at 1 (as the table fetched for the base does once it has loaded), the display rate is 1 while the converted amount is amount × the table's USD rate. |
| CurrencyConverter.UsdTargetRateCounterexample | src/hooks/useCurrencyConverter.js:33-34 | 100 EUR against the table {EUR: 1, USD: 1.08} is shown as 108 USD at a rate of 1, so converted ≠ amount × rate. |
| CurrencyConverter.UnifiedRate | src/hooks/useCurrencyConverter.js:28-39 | The corrected rate is positive and equals the conversion of one unit of the base into the target. |
| CurrencyConverter.ConvertEffectUnified | src/hooks/useCurrencyConverter.js:18-53 | The corrected effect keeps the original's result condition, codes and converted amount, and its converted amount is always amount × rate. |
| CurrencyConverter.UnifiedRateMatchesDisplay | src/hooks/useCurrencyConverter.js:30-39 | On a USD-anchored table the corrected rate equals the original display rate, and it is 1 for a currency against itself. |

## Left out

- React state, `useCallback` and `useEffect` wiring, the `isCalculating` and `isConverting` flags, `setTimeout`, and the `try`/`catch` that logs and rethrows: none of these affect the computed values.
- Fetching the rate table over the network, the hourly refresh, the API key and the success check: the table is an input, `None` until loaded.
- Currency names and symbols, and `Intl` formatting: not part of any calculation.
- Floating point: all amounts are exact reals. Rounding, `NaN` and `Infinity` are not modelled. That includes a `loanTerm` of 0, and a zero rate, where the original divides by zero.
- LoanCalculation.CalculateLoan: takes the three fields of the `loanDetails` object as parameters. The term is a natural number of months; fractional and negative terms, which the original accepts, are not modelled. It requires the annuity divisor `(1+r)^n − 1` to be nonzero, because the original has no guard and no input validation. With a zero divisor the original returns ±`Infinity`, or `NaN` when the numerator is 0 too. The divisor is zero at a zero rate (`ZeroRateUndefined`), at a term of 0, and at a monthly rate of −2 with an even term.
- LoanCalculation.CalculateLoan: the schedule loop is modelled in its own method, `BuildSchedule`, which `CalculateLoan` calls.
- CurrencyContext.ConvertAmount: requires both codes to be in the table with positive rates when a table is loaded. This excludes the cases where the original produces `NaN` or `Infinity`: a missing rate and a zero source rate. It also excludes cases with a finite result: a zero target rate, where the original returns 0, and negative rates, which a fetched table does not hold but the original would still convert through.
- CurrencyConverter.ConvertEffect: requires both codes to have positive rates when a conversion happens, and so excludes the same cases. A `NaN`, missing or empty amount, which `!amount` rejects, is not modelled. Neither is a non-numeric string, which passes the guard and gives a `NaN` converted amount.
- The model follows the code, including in three places where one might expect otherwise:
  - `convertAmount` returns 0 when no table is loaded; it does not signal an error;
  - a non-positive amount gives no result at all, not a zero result;
  - a USD→USD display rate is the table's USD rate, which is 1 only on a USD-anchored table.

## Findings

| source | as written | input that shows it | evidently intended | confidence | as-written member | corrected member |
|---|---|---|---|---|---|---|
| src/hooks/useCurrencyConverter.js:33-34 | With a non-USD base and a USD target, the display rate is `1 / rates[base]`. Once the table fetched for the base (src/contexts/CurrencyContext.jsx:58-62) has loaded, and the rate API quotes the base at 1, that rate is 1. While an older table anchored at another currency is still in place (the context does not clear it before refetching, and a failed fetch keeps it), the rate shown differs from 1. On such a stale table the USD-base branch disagrees too: switching the base from EUR to USD while {EUR: 1, USD: 1.08, JPY: 162} is still loaded shows USD→JPY at 162 but converts 100 USD to 15000 JPY. | Base EUR, target USD, table {EUR: 1, USD: 1.08}, amount 100: converted amount 108, rate shown 1 | The displayed rate is what one unit of the base buys of the target, i.e. converted amount = amount × rate | not executed | CurrencyConverter.UsdTargetRateCounterexample | CurrencyConverter.ConvertEffectUnified |
