# Family finance projection engine, in Dafny

This project models the engine of a household finance dashboard:

- `pmt`, the annuity payment calculator;
- `simulate_months`, the loop that projects a household's finances month by month.

Each month of the projection does the following:

- labels the record with a calendar year and month;
- grows income and expense once per completed year;
- pays two fixed-payment mortgages;
- pays a credit loan, whose payment is re-amortised every month over its remaining term;
- invests the automatic saving, any positive net saving and an extra amount into the financial assets, which also earn a return;
- grows real estate;
- floors every loan balance at zero;
- emits a record with totals, net worth and the savings rate.

Money and rates are exact reals. `(1 + r) ** (-n)` is written `1 / Pow(1 + r, n)`.

The project has two modules.

- `Amortization` (`amortization.dfy`):
  - `Pmt`, with its sign and the annuity equation it solves;
  - two loan schedules: `Owed` (unfloored) and `Balance` (floored at zero, as the engine keeps it);
  - proofs that a level payment retires its loan exactly at the end of the term and never lets the balance grow;
  - a proof that re-amortising the remaining balance over the remaining term asks for the same payment again.
- `Simulation` (`simulation.dfy`):
  - `Params`, the inputs;
  - `MonthFigures`, one month's unrounded figures as a function of the balances carried in;
  - `StateAt`, the balances after k months;
  - `Simulate`, the list of records;
  - the imperative `SimulateMonths`, which carries five balances through a `while` loop and appends one record per month. It is proved to return `Simulate`.

  Its lemmas cover the calendar, stepped growth, the per-record identities and floors, investment, and the three loans.

`_pmt` (simulation.py:28-29) only forwards its arguments, so the model calls `Pmt` directly. `SimulateMonths` keeps the source's default arguments: 60 months from November 2025.

A mortgage's level payment is charged every month of the projection, also after that mortgage has been paid off: the balance is floored at zero, but `pay_m1` and `pay_m3` stay in the month's loan outflow, so the investment stays reduced for the rest of the horizon. The model reproduces this (`MortgagesAlwaysCharged`, `PaidOffMortgageStillCharged`).

One might expect the re-amortised credit payment to change from month to month. With exact arithmetic it does not: at a non-negative credit rate, `CreditPaymentConstant` proves that every month of the credit term asks for the payment that amortises the original loan over the full term. Any month-to-month change in the source's output comes from floating-point rounding.

## Model

| member | source | states |
|---|---|---|
| Amortization.Pmt | simulation.py:4-8 | Defines the payment: -(pv / nper) at rate 0, otherwise -(rate·pv) / (1 − 1/(1+rate)^nper). Its properties are in the lemmas below. |
| Amortization.Max | simulation.py:64 | The larger of two amounts: at least both, and equal to one of them. |
| Amortization.PmtIsOutflow | simulation.py:4-8 | The payment has the sign of an outflow: negative for a positive loan, zero for none, positive for a negative one. |
| Amortization.PmtIsAnnuityPayment | simulation.py:4-8 | `-Pmt` solves the annuity equation. At rate 0, n payments sum to the principal. Otherwise pay·((1+r)^n − 1) = r·pv·(1+r)^n, with (1+r)^n ≠ 1. |
| Amortization.AmortizingPaymentIsPmt | simulation.py:4-8 | Conversely, a payment that leaves exactly zero owed after `nper` periods is `-Pmt`, so `-Pmt` is the only level payment that retires the loan. |
| Amortization.PmtAmortizes | simulation.py:4-8 | Paying `-Pmt` for `nper` periods, with interest accruing first, leaves exactly zero owed. |
| Amortization.PmtLastPeriod | simulation.py:4-8 | With one period left, the payment is the balance plus one period's interest. |
| Amortization.PmtBounds | simulation.py:4-8 | At a non-negative rate on a non-negative loan, the payment covers at least the period's interest and at most the balance plus interest. |
| Amortization.PmtLeavesBalance | simulation.py:4-8 | With two or more periods to go at a non-negative rate, one payment leaves part of a positive loan owing. |
| Amortization.ReamortizedPayment | simulation.py:4-8 | Re-amortising the balance left after one payment over one period fewer gives the same payment. |
| Amortization.ZeroRateLoanExample | simulation.py:6-7 | `Pmt(0, 12, 1200) = -100`, and a 1200 loan paying 100 a month at rate 0 is at exactly 0 after 12 months. |
| Amortization.OwedClosedForm | simulation.py:4-8 | After k payments, the unfloored balance times the rate equals pv·r·(1+r)^k − pay·((1+r)^k − 1). |
| Amortization.OwedWithoutInterest | simulation.py:6-7 | Without interest, each payment comes straight off the balance: pv − k·pay. |
| Amortization.LevelPaymentAmortizes | simulation.py:4-8 | Any payment that solves the annuity equation retires the loan at exactly period `nper`. |
| Amortization.LevelPaymentBounds | simulation.py:4-8 | Any payment that solves the annuity equation at a non-negative rate lies between the interest and the balance plus interest. |
| Amortization.LevelPaymentRollsForward | simulation.py:4-8 | After one payment, the same payment solves the annuity equation for the remaining balance over one period fewer. |
| Amortization.AnnuityPaymentUnique | simulation.py:4-8 | For a given rate, term and principal, at most one payment solves the annuity equation. |
| Amortization.OwedDecreasing | simulation.py:69-71 | While the payment covers the interest on the principal, the unfloored balance never rises and stays at most the principal. |
| Amortization.OwedChain | simulation.py:69-71 | Under the same condition, the balance at a later period is at most the balance at an earlier one. |
| Amortization.Accrue | simulation.py:69-71 | Defines one unfloored loan period: interest accrues on the balance, then the payment comes off. Its schedule is `Owed`; see OwedClosedForm. |
| Amortization.Settle | simulation.py:69-71 | One floored loan period is non-negative, at least the unfloored balance, and equals either 0 or the unfloored balance. |
| Amortization.Balance | simulation.py:69-71 | The floored balance after k periods is never negative. |
| Amortization.LevelPaymentSchedule | simulation.py:69-71 | On a level payment's schedule, the floor never applies before the term ends and the balance is 0 after it. |
| Amortization.LevelPaymentPaidOff | simulation.py:69-71 | A loan on a level payment never grows, and is 0 from the end of its term on. |
| Amortization.FixedLoanPaidOff | simulation.py:31-32 | A loan paying its own `-Pmt` every period never grows, and is 0 from period `nper` on. |
| Simulation.Monthly | simulation.py:22-26 | Defines the monthly rate of an annual percentage, x / 100 / 12. |
| Simulation.Prepared | simulation.py:22-35 | Defines what the loop uses unchanged: the five monthly rates, the two mortgages' `Pmt` values and the credit term. |
| Simulation.Prepare | simulation.py:22-35 | The set-up before the loop computes exactly `Prepared(p)`. |
| Simulation.Mort1Payment | simulation.py:31 | Defines the first mortgage's level payment, `-Pmt` of its monthly rate, term and principal. FixedLoanPaidOff and MortgagesPaidOff state what it does. |
| Simulation.Mort3Payment | simulation.py:32 | Defines the second mortgage's level payment the same way. |
| Simulation.CalendarYear | simulation.py:45 | Defines a record's year; CalendarIndex states its meaning. |
| Simulation.CalendarMonth | simulation.py:46 | Defines a record's month; CalendarIndex states its meaning. |
| Simulation.Grown | simulation.py:48-50 | Defines an amount grown for whole years at an annual percentage; SteppedGrowth and SteppedGrowthMonotone state its properties. |
| Simulation.CreditPayment | simulation.py:56-59 | Defines the month's credit payment: `-Pmt` over the remaining term on a positive balance, otherwise 0. CreditPaymentConstant states its value. |
| Simulation.Compound | simulation.py:66-67 | Defines one month of growth at a monthly rate. |
| Simulation.Compounded | simulation.py:67 | Defines a value after n months of compounding; RealEstateValue ties real estate to it. |
| Simulation.MonthFigures | simulation.py:48-76 | Defines one month's unrounded figures from the balances carried in. MonthConsistent, MonthInvestment and the credit lemmas state what they satisfy. |
| Simulation.Initial | simulation.py:37-42 | Defines the balances carried into the first month. |
| Simulation.Carried | simulation.py:96-97 | Defines the balances a month carries into the next. |
| Simulation.StateAt | simulation.py:37-97 | Defines the balances after k months; the loop invariant of SimulateMonths ties it to the loop. |
| Simulation.RecordAt | simulation.py:78-94 | Defines month i's record: its calendar month and its figures. |
| Simulation.Simulate | simulation.py:44-99 | Defines the projection as the records of months 0 to n − 1; SimulateShape states its shape. |
| Simulation.Consistent | simulation.py:73-76 | Defines the identities and bounds every month satisfies; see MonthConsistent. |
| Simulation.CreditTerm | simulation.py:35 | The credit term is `credit_months` when that is at least 1, and 1 otherwise. |
| Simulation.Remaining | simulation.py:58 | The remaining credit term is at least 1 and at least term − i, and it is either 1 or term − i. It is exactly 1 if and only if i ≥ term − 1. |
| Simulation.SimulateShape | simulation.py:44-99 | A projection over n months has max(n, 0) records, and record i is month i's record. |
| Simulation.MonthStep | simulation.py:45-76 | One pass of the loop body computes exactly the month's figures from the balances carried in. |
| Simulation.SimulateMonths | simulation.py:10-99 | The loop, with the source's defaults of 60 months from 2025-11, returns exactly `Simulate(p, start_year, start_month, months)`, with max(months, 0) records. |
| Simulation.CalendarIndex | simulation.py:45-46 | The month is in 1..12, and year·12 + month − 1 = start_year·12 + start_month − 1 + i. |
| Simulation.RecordCalendar | simulation.py:45-46 | Every record's month is in 1..12 and is the i-th month after the start. |
| Simulation.ConsecutiveRecords | simulation.py:45-46 | Consecutive records are one calendar month apart: either the same year with the next month, or December followed by January of the next year. |
| Simulation.SteppedGrowth | simulation.py:48-50 | Months in the same year have the same grown amount. Twelve months later the amount has grown by one annual factor. |
| Simulation.SteppedGrowthMonotone | simulation.py:48-50 | With a non-negative base and growth rate, the grown amount never falls. |
| Simulation.RecordIncome | simulation.py:48-50 | Record k's income and expense are their base amounts times (1 + g/100)^(k div 12). |
| Simulation.MonthConsistent | simulation.py:63-76 | Every month satisfies the identities: total assets = financial + real estate; total debt = sum of the three loans; net worth = assets − debt. All three loan balances are ≥ 0. The investment is at least auto-save plus extra. If income > 0, savings rate × income = 100 × investment; otherwise the savings rate is 0. |
| Simulation.RecordsConsistent | simulation.py:63-94 | Every record of a projection satisfies those identities and bounds. |
| Simulation.NoIncomeNoSavingsRate | simulation.py:76 | With zero base income, every record's savings rate is 0. |
| Simulation.MonthInvestment | simulation.py:63-66 | The investment equals auto-save plus extra if and only if the net saving is not positive. The financial assets end at least at the grown previous assets plus auto-save and extra. |
| Simulation.MonthFinancialGrows | simulation.py:63-66 | With a non-negative return and contributions, a month never reduces non-negative financial assets. |
| Simulation.FinancialNonDecreasing | simulation.py:63-97 | Under the same conditions, and from non-negative starting assets, the financial assets are non-negative and never fall from month to month. |
| Simulation.MortgageSchedules | simulation.py:54-70 | Each mortgage balance after k months is the floored schedule `Balance` of its own level payment. |
| Simulation.MortgagesPaidOff | simulation.py:54-70 | At non-negative rates and principals, neither mortgage ever grows, and each is 0 once its term has run. |
| Simulation.MortgagesAlwaysCharged | simulation.py:54-61 | Whatever balances are carried in, the month's loan outflow is at least the two mortgage payments. |
| Simulation.PaidOffMortgageStillCharged | simulation.py:54-70 | Once its term has run, a positive first mortgage has balance 0, yet its positive payment is still part of the month's loan outflow. |
| Simulation.RealEstateValue | simulation.py:67 | Real estate after k months is its starting value times (1 + monthly rate)^k. |
| Simulation.CreditPaidOffMonth | simulation.py:56-71 | On a credit balance ≤ 0 the credit payment is 0, the balance after the month is 0, and the month pays only the two mortgages. |
| Simulation.CreditLastMonth | simulation.py:57-71 | From month `max(1, credit_months) − 1` on, the credit balance after the month is 0, whatever it was before. |
| Simulation.CreditNeverGrows | simulation.py:56-71 | At a non-negative rate, a non-negative credit balance never grows in a month. |
| Simulation.CreditStaysPaidOff | simulation.py:56-71 | Once the credit balance is 0, it stays 0 in every later month. |
| Simulation.CreditClearedByTerm | simulation.py:35-71 | After `max(1, credit_months)` months or more, the credit balance is 0. |
| Simulation.CreditNonIncreasing | simulation.py:56-71 | From a non-negative principal at a non-negative rate, the credit balance is ≥ 0 and never grows from month to month. |
| Simulation.CreditPaymentLevel | simulation.py:57-71 | Before the last month of the term, a positive credit balance stays positive, and next month's re-amortised payment equals this month's. |
| Simulation.CreditPaymentConstant | simulation.py:34-71 | For a positive credit loan, every month of its term asks for the payment that amortises the whole loan over the whole term. |

## Left out

- The dashboard UI (app.py) is not part of this model. That covers the input widgets, metrics, charts, the template download, and the CSV upload with its gap analysis. None of it contains engine logic.
- `round(..., 1)` on every output field (simulation.py:80-93) is presentation only. The records hold the unrounded values, and the savings rate is stored as the unrounded percentage.
- The label string `f"{year}-{month:02d}"` is modelled as the integer pair (year, month).
- Floating-point behaviour is not modelled; all arithmetic is exact.
- The pandas DataFrame becomes a sequence of records.
- Simulation.WellFormed: requires mortgage terms of at least 1 month and monthly loan rates above -100%. That includes the credit rate, even when the credit balance never triggers a payment. The source has no such guard. At a monthly rate of exactly -100% it divides by zero. Below -100% it still returns a payment, and divides by zero only at a monthly rate of -200% with an even term. A mortgage term of 0 divides by zero too, while a negative term still gives a value. The model leaves rates at or below -100% and negative terms out by choice; the input form only offers non-negative rates.
- The numeric input bounds (non-negative amounts and rates, upper limits on terms, start month in 1..12) are not preconditions. They appear only as hypotheses of the lemmas that need them. The calendar lemmas hold for any start month.
