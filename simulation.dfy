/** The month-by-month projection of a household's finances: income and
    expense growing once a year, two fixed-payment mortgages, a credit loan
    whose payment is re-amortised each month over the remaining term, a
    financial portfolio that receives the month's investment, and real
    estate that grows on its own.

    Simulate is the specification: the records as a function of the inputs.
    SimulateMonths is the loop that carries the previous month's balances
    forward and appends one record per month, proved to produce Simulate. */
module Simulation {
  import opened Amortization

  /** The inputs. Rates and growth figures are annual percentages; the
      terms are counts of months. */
  datatype Params = Params(
    income0: real, incomeGrowth: real,
    expense0: real, expenseGrowth: real,
    autoSave: real, extraInvest: real,
    investReturn: real,
    realEstate0: real, realEstateGrowth: real,
    mort1Pv: real, mort1Rate: real, mort1N: int,
    mort3Pv: real, mort3Rate: real, mort3N: int,
    creditPv: real, creditRate: real, creditMonths: int,
    financial0: real)

  /** What the engine needs to compute a payment: mortgage terms of at least
      one month and loan rates above -100% a month. */
  predicate WellFormed(p: Params)
  {
    p.mort1N >= 1 && p.mort3N >= 1 &&
    Monthly(p.mort1Rate) > -1.0 && Monthly(p.mort3Rate) > -1.0 && Monthly(p.creditRate) > -1.0
  }

  /** The balances carried from one month to the next. */
  datatype Carry = Carry(fin: real, re: real, m1: real, m3: real, cl: real)

  /** The unrounded figures of one month. savingsRate is a percentage. */
  datatype Figures = Figures(
    income: real, expense: real, autoSave: real, loanOut: real, investIn: real,
    financial: real, realEstate: real,
    mort1: real, mort3: real, credit: real,
    totalAssets: real, totalDebt: real, netWorth: real,
    savingsRate: real)

  /** One output row: the calendar month it stands for and its figures. */
  datatype Record = Record(year: int, month: int, figures: Figures)

  /** An annual percentage as a monthly rate. */
  function Monthly(annualPercent: real): real
  {
    annualPercent / 100.0 / 12.0
  }

  function CalendarYear(startYear: int, startMonth: int, i: int): int
  {
    startYear + (startMonth - 1 + i) / 12
  }

  function CalendarMonth(startYear: int, startMonth: int, i: int): int
  {
    (startMonth - 1 + i) % 12 + 1
  }

  /** The number of months since year 0, January, of a record. */
  function MonthIndex(r: Record): int
  {
    r.year * 12 + r.month - 1
  }

  /** A base amount after the given number of years of growth at an annual
      percentage. */
  function Grown(base: real, growthPercent: real, years: nat): real
  {
    base * Pow(1.0 + growthPercent / 100.0, years)
  }

  /** A balance after one period of growth at the given rate. */
  function Compound(b: real, rate: real): real
  {
    b * (1.0 + rate)
  }

  /** The level monthly payments of the two mortgages, as positive amounts. */
  function Mort1Payment(p: Params): real
    requires WellFormed(p)
  {
    -Pmt(Monthly(p.mort1Rate), p.mort1N, p.mort1Pv)
  }

  function Mort3Payment(p: Params): real
    requires WellFormed(p)
  {
    -Pmt(Monthly(p.mort3Rate), p.mort3N, p.mort3Pv)
  }

  /** The credit loan's term, at least one month. */
  function CreditTerm(p: Params): (n: int)
    ensures n >= 1 && n >= p.creditMonths && (n == 1 || n == p.creditMonths)
  {
    if p.creditMonths >= 1 then p.creditMonths else 1
  }

  /** The months left on the credit loan in month i: never below one, and
      exactly one from month CreditTerm(p) - 1 onwards. */
  function Remaining(p: Params, i: int): (r: int)
    ensures r >= 1 && r >= CreditTerm(p) - i
    ensures r == 1 <==> i >= CreditTerm(p) - 1
    ensures r == 1 || r == CreditTerm(p) - i
  {
    if CreditTerm(p) - i >= 1 then CreditTerm(p) - i else 1
  }

  /** The credit payment of month i, re-amortising the previous balance over
      the remaining term; nothing is paid on a balance that is not positive. */
  function CreditPayment(p: Params, i: int, clPrev: real): real
    requires WellFormed(p)
  {
    if clPrev > 0.0 then -Pmt(Monthly(p.creditRate), Remaining(p, i), clPrev) else 0.0
  }

  /** The figures of month i, given the balances carried from month i - 1. */
  function MonthFigures(p: Params, i: nat, prev: Carry): Figures
    requires WellFormed(p)
  {
    var income := Grown(p.income0, p.incomeGrowth, i / 12);
    var expense := Grown(p.expense0, p.expenseGrowth, i / 12);
    var payM1 := Mort1Payment(p);
    var payM3 := Mort3Payment(p);
    var payCl := CreditPayment(p, i, prev.cl);
    var loanOut := payM1 + payM3 + payCl;
    var netSave := income - expense - p.autoSave - loanOut;
    var investIn := p.autoSave + Max(netSave, 0.0) + p.extraInvest;
    var fin := Compound(prev.fin, Monthly(p.investReturn)) + investIn;
    var re := Compound(prev.re, Monthly(p.realEstateGrowth));
    var m1 := Settle(prev.m1, Monthly(p.mort1Rate), payM1);
    var m3 := Settle(prev.m3, Monthly(p.mort3Rate), payM3);
    var cl := Settle(prev.cl, Monthly(p.creditRate), payCl);
    var saveRate := if income > 0.0 then investIn / income else 0.0;
    Figures(income, expense, p.autoSave, loanOut, investIn, fin, re, m1, m3, cl,
            fin + re, m1 + m3 + cl, (fin + re) - (m1 + m3 + cl), saveRate * 100.0)
  }

  function Initial(p: Params): Carry
  {
    Carry(p.financial0, p.realEstate0, p.mort1Pv, p.mort3Pv, p.creditPv)
  }

  function Carried(f: Figures): Carry
  {
    Carry(f.financial, f.realEstate, f.mort1, f.mort3, f.credit)
  }

  /** The balances after k months. */
  function StateAt(p: Params, k: nat): Carry
    requires WellFormed(p)
  {
    if k == 0 then Initial(p) else Carried(MonthFigures(p, k - 1, StateAt(p, k - 1)))
  }

  /** The record of month i. */
  function RecordAt(p: Params, startYear: int, startMonth: int, i: nat): Record
    requires WellFormed(p)
  {
    Record(CalendarYear(startYear, startMonth, i), CalendarMonth(startYear, startMonth, i),
           MonthFigures(p, i, StateAt(p, i)))
  }

  /** The list f(0), ..., f(n - 1). */
  function Tabulate<T>(f: nat -> T, n: int): seq<T>
    decreases n
  {
    if n <= 0 then [] else Tabulate(f, n - 1) + [f(n - 1)]
  }

  lemma {:induction false} TabulateShape<T>(f: nat -> T, n: int)
    ensures |Tabulate(f, n)| == if n > 0 then n else 0
    ensures forall i :: 0 <= i < |Tabulate(f, n)| ==> Tabulate(f, n)[i] == f(i)
    decreases n
  {
    if n > 0 {
      TabulateShape(f, n - 1);
    }
  }

  /** The records of the first n months, in order. */
  function Simulate(p: Params, startYear: int, startMonth: int, n: int): seq<Record>
    requires WellFormed(p)
  {
    Tabulate((i: nat) => RecordAt(p, startYear, startMonth, i), n)
  }

  /** One record per month, in month order. */
  lemma SimulateShape(p: Params, startYear: int, startMonth: int, n: int)
    requires WellFormed(p)
    ensures |Simulate(p, startYear, startMonth, n)| == if n > 0 then n else 0
    ensures forall i :: 0 <= i < |Simulate(p, startYear, startMonth, n)| ==>
      Simulate(p, startYear, startMonth, n)[i] == RecordAt(p, startYear, startMonth, i)
  {
    TabulateShape((i: nat) => RecordAt(p, startYear, startMonth, i), n);
  }

  /** Appending month i's record to the first i records gives the first
      i + 1, and the balances it carries out are those after i + 1 months. */
  lemma AppendMonth(p: Params, startYear: int, startMonth: int, i: nat, figures: Figures)
    requires WellFormed(p) && figures == MonthFigures(p, i, StateAt(p, i))
    ensures Simulate(p, startYear, startMonth, i) + [Record(CalendarYear(startYear, startMonth, i), CalendarMonth(startYear, startMonth, i), figures)]
            == Simulate(p, startYear, startMonth, i + 1)
    ensures Carried(figures) == StateAt(p, i + 1)
  {
  }

  /** The balances after k + 1 months are those carried out of month k. */
  lemma StateStep(p: Params, k: nat)
    requires WellFormed(p)
    ensures StateAt(p, k + 1) == Carried(MonthFigures(p, k, StateAt(p, k)))
  {
  }

  /** What the projection loop uses unchanged every month: the five monthly
      rates, the two mortgages' Pmt values and the credit term. */
  datatype Setup = Setup(rInv: real, rRe: real, rM1: real, rM3: real, rCl: real,
                         pmtM1: real, pmtM3: real, creditN: int)

  function Prepared(p: Params): Setup
    requires WellFormed(p)
  {
    Setup(Monthly(p.investReturn), Monthly(p.realEstateGrowth),
          Monthly(p.mort1Rate), Monthly(p.mort3Rate), Monthly(p.creditRate),
          -Mort1Payment(p), -Mort3Payment(p), CreditTerm(p))
  }

  /** The set-up before the projection loop: the monthly rates, the two
      mortgages' level payments and the credit term. */
  method Prepare(p: Params) returns (s: Setup)
    requires WellFormed(p)
    ensures s == Prepared(p)
  {
    var rInv := Monthly(p.investReturn);
    var rRe := Monthly(p.realEstateGrowth);
    var rM1 := Monthly(p.mort1Rate);
    var rM3 := Monthly(p.mort3Rate);
    var rCl := Monthly(p.creditRate);
    var pmtM1 := Pmt(rM1, p.mort1N, p.mort1Pv);
    var pmtM3 := Pmt(rM3, p.mort3N, p.mort3Pv);
    var creditN := if p.creditMonths >= 1 then p.creditMonths else 1;
    s := Setup(rInv, rRe, rM1, rM3, rCl, pmtM1, pmtM3, creditN);
  }

  /** One pass of the projection loop's body: the figures of month i from
      the balances carried out of month i - 1. */
  method MonthStep(p: Params, s: Setup, i: nat, finPrev: real, rePrev: real, m1Prev: real, m3Prev: real, clPrev: real)
    returns (figures: Figures)
    requires WellFormed(p) && s == Prepared(p)
    ensures figures == MonthFigures(p, i, Carry(finPrev, rePrev, m1Prev, m3Prev, clPrev))
  {
    var yearOffset := i / 12;
    var income := Grown(p.income0, p.incomeGrowth, yearOffset);
    var expense := Grown(p.expense0, p.expenseGrowth, yearOffset);
    var autoSave := p.autoSave;
    var extraInvest := p.extraInvest;

    var payM1 := -s.pmtM1;
    var payM3 := -s.pmtM3;
    var payCl := 0.0;
    if clPrev > 0.0 {
      var remain := if s.creditN - i >= 1 then s.creditN - i else 1;
      assert remain == Remaining(p, i);
      payCl := -Pmt(s.rCl, remain, clPrev);
    }

    var loanOut := payM1 + payM3 + payCl;

    var netSave := income - expense - autoSave - loanOut;
    var investIn := autoSave + Max(netSave, 0.0) + extraInvest;

    var finNow := Compound(finPrev, s.rInv) + investIn;
    var reNow := Compound(rePrev, s.rRe);

    var m1Now := Settle(m1Prev, s.rM1, payM1);
    var m3Now := Settle(m3Prev, s.rM3, payM3);
    var clNow := Settle(clPrev, s.rCl, payCl);

    var totalAssets := finNow + reNow;
    var totalDebt := m1Now + m3Now + clNow;
    var netWorth := totalAssets - totalDebt;
    var saveRate := if income > 0.0 then investIn / income else 0.0;

    figures := Figures(income, expense, autoSave, loanOut, investIn, finNow, reNow,
                       m1Now, m3Now, clNow, totalAssets, totalDebt, netWorth, saveRate * 100.0);
  }

  /** The projection loop: the rates and fixed payments are worked out once,
      the previous month's balances are carried in five variables, and one
      record is appended per month. */
  method SimulateMonths(p: Params, months: int := 60, startYear: int := 2025, startMonth: int := 11)
    returns (rows: seq<Record>)
    requires WellFormed(p)
    ensures rows == Simulate(p, startYear, startMonth, months)
    ensures |rows| == if months > 0 then months else 0
  {
    var s := Prepare(p);

    rows := [];
    var finPrev, rePrev, m1Prev, m3Prev, clPrev := p.financial0, p.realEstate0, p.mort1Pv, p.mort3Pv, p.creditPv;

    var i := 0;
    while i < months
      invariant 0 <= i && (i <= months || i == 0)
      invariant s == Prepared(p)
      invariant rows == Simulate(p, startYear, startMonth, i)
      invariant Carry(finPrev, rePrev, m1Prev, m3Prev, clPrev) == StateAt(p, i)
    {
      var year := CalendarYear(startYear, startMonth, i);
      var month := CalendarMonth(startYear, startMonth, i);

      var figures := MonthStep(p, s, i, finPrev, rePrev, m1Prev, m3Prev, clPrev);
      AppendMonth(p, startYear, startMonth, i, figures);
      rows := rows + [Record(year, month, figures)];

      finPrev, rePrev := figures.financial, figures.realEstate;
      m1Prev, m3Prev, clPrev := figures.mort1, figures.mort3, figures.credit;
      i := i + 1;
    }
    SimulateShape(p, startYear, startMonth, months);
  }

  // ---------------------------------------------------------------------
  // The calendar.

  /** Month i after the start lies in 1..12 and counts i months on from the
      start month. */
  lemma CalendarIndex(startYear: int, startMonth: int, i: int)
    ensures 1 <= CalendarMonth(startYear, startMonth, i) <= 12
    ensures CalendarYear(startYear, startMonth, i) * 12 + CalendarMonth(startYear, startMonth, i) - 1
            == startYear * 12 + startMonth - 1 + i
  {
  }

  /** Record k of a projection stands for the k-th month after the start. */
  lemma RecordCalendar(p: Params, startYear: int, startMonth: int, n: int, k: int)
    requires WellFormed(p) && 0 <= k < |Simulate(p, startYear, startMonth, n)|
    ensures 1 <= Simulate(p, startYear, startMonth, n)[k].month <= 12
    ensures MonthIndex(Simulate(p, startYear, startMonth, n)[k]) == startYear * 12 + startMonth - 1 + k
  {
    SimulateShape(p, startYear, startMonth, n);
    CalendarIndex(startYear, startMonth, k);
  }

  /** Consecutive records are consecutive calendar months: the month goes up
      by one within a year, and December is followed by January of the next
      year. */
  lemma ConsecutiveRecords(p: Params, startYear: int, startMonth: int, n: int, k: int)
    requires WellFormed(p) && 0 <= k && k + 1 < |Simulate(p, startYear, startMonth, n)|
    ensures MonthIndex(Simulate(p, startYear, startMonth, n)[k + 1]) == MonthIndex(Simulate(p, startYear, startMonth, n)[k]) + 1
    ensures var r, r' := Simulate(p, startYear, startMonth, n)[k], Simulate(p, startYear, startMonth, n)[k + 1];
      (r.month < 12 && r'.year == r.year && r'.month == r.month + 1) ||
      (r.month == 12 && r'.year == r.year + 1 && r'.month == 1)
  {
    RecordCalendar(p, startYear, startMonth, n, k);
    RecordCalendar(p, startYear, startMonth, n, k + 1);
  }

  // ---------------------------------------------------------------------
  // Income and expense.

  /** Growth steps once per completed year: months in the same year agree,
      and twelve months on the amount has grown by one annual step. */
  lemma SteppedGrowth(base: real, growthPercent: real, i: nat, j: nat)
    ensures i / 12 == j / 12 ==> Grown(base, growthPercent, i / 12) == Grown(base, growthPercent, j / 12)
    ensures j == i + 12 ==>
      Grown(base, growthPercent, j / 12) == Grown(base, growthPercent, i / 12) * (1.0 + growthPercent / 100.0)
  {
    if j == i + 12 {
      assert j / 12 == i / 12 + 1;
      MulCommutes(base, Pow(1.0 + growthPercent / 100.0, i / 12), 1.0 + growthPercent / 100.0);
    }
  }

  lemma MulCommutes(a: real, b: real, c: real)
    ensures a * (c * b) == (a * b) * c
  {
  }

  /** With a non-negative base and growth, the amount never falls. */
  lemma SteppedGrowthMonotone(base: real, growthPercent: real, i: nat, j: nat)
    requires base >= 0.0 && growthPercent >= 0.0 && i <= j
    ensures Grown(base, growthPercent, i / 12) <= Grown(base, growthPercent, j / 12)
  {
    PowMonotone(1.0 + growthPercent / 100.0, i / 12, j / 12);
    MulMonotone(base, Pow(1.0 + growthPercent / 100.0, j / 12), Pow(1.0 + growthPercent / 100.0, i / 12));
  }

  /** Record k's income and expense are the base amounts grown for k / 12
      completed years, so SteppedGrowth and SteppedGrowthMonotone apply to
      them. */
  lemma RecordIncome(p: Params, startYear: int, startMonth: int, n: int, k: int)
    requires WellFormed(p) && 0 <= k < |Simulate(p, startYear, startMonth, n)|
    ensures Simulate(p, startYear, startMonth, n)[k].figures.income == Grown(p.income0, p.incomeGrowth, k / 12)
    ensures Simulate(p, startYear, startMonth, n)[k].figures.expense == Grown(p.expense0, p.expenseGrowth, k / 12)
  {
    SimulateShape(p, startYear, startMonth, n);
  }

  // ---------------------------------------------------------------------
  // What holds of every month's figures.

  /** The identities and bounds every month's figures satisfy. */
  predicate Consistent(p: Params, f: Figures)
  {
    f.totalAssets == f.financial + f.realEstate &&
    f.totalDebt == f.mort1 + f.mort3 + f.credit &&
    f.netWorth == f.totalAssets - f.totalDebt &&
    f.mort1 >= 0.0 && f.mort3 >= 0.0 && f.credit >= 0.0 &&
    f.investIn >= p.autoSave + p.extraInvest &&
    (f.income > 0.0 ==> f.savingsRate * f.income == 100.0 * f.investIn) &&
    (f.income <= 0.0 ==> f.savingsRate == 0.0)
  }

  lemma MonthConsistent(p: Params, i: nat, prev: Carry)
    requires WellFormed(p)
    ensures Consistent(p, MonthFigures(p, i, prev))
  {
    var f := MonthFigures(p, i, prev);
    if f.income > 0.0 {
      RatioTimesDivisor(f.investIn, f.income);
    }
  }

  lemma RatioTimesDivisor(a: real, b: real)
    requires b > 0.0
    ensures (a / b * 100.0) * b == 100.0 * a
  {
  }

  /** Every record of a projection is consistent. */
  lemma RecordsConsistent(p: Params, startYear: int, startMonth: int, n: int)
    requires WellFormed(p)
    ensures forall r :: r in Simulate(p, startYear, startMonth, n) ==> Consistent(p, r.figures)
  {
    var rows := Simulate(p, startYear, startMonth, n);
    SimulateShape(p, startYear, startMonth, n);
    forall r | r in rows
      ensures Consistent(p, r.figures)
    {
      var k :| 0 <= k < |rows| && rows[k] == r;
      MonthConsistent(p, k, StateAt(p, k));
    }
  }

  /** With no income at all, every record's savings rate is zero. */
  lemma NoIncomeNoSavingsRate(p: Params, startYear: int, startMonth: int, n: int)
    requires WellFormed(p) && p.income0 == 0.0
    ensures forall r :: r in Simulate(p, startYear, startMonth, n) ==> r.figures.savingsRate == 0.0
  {
    var rows := Simulate(p, startYear, startMonth, n);
    SimulateShape(p, startYear, startMonth, n);
    forall r | r in rows
      ensures r.figures.savingsRate == 0.0
    {
      var k :| 0 <= k < |rows| && rows[k] == r;
      MonthConsistent(p, k, StateAt(p, k));
    }
  }

  // ---------------------------------------------------------------------
  // Investment and the financial assets.

  /** The month's investment is the contributions plus any positive net
      saving: a shortfall adds nothing and takes nothing from the assets
      carried in. */
  lemma MonthInvestment(p: Params, i: nat, prev: Carry)
    requires WellFormed(p)
    ensures var f := MonthFigures(p, i, prev);
      var netSave := f.income - f.expense - p.autoSave - f.loanOut;
      (f.investIn == p.autoSave + p.extraInvest <==> netSave <= 0.0) &&
      f.financial >= Compound(prev.fin, Monthly(p.investReturn)) + p.autoSave + p.extraInvest
  {
  }

  /** With a non-negative return and contributions, a month never reduces
      non-negative financial assets. */
  lemma MonthFinancialGrows(p: Params, i: nat, prev: Carry)
    requires WellFormed(p)
    requires p.investReturn >= 0.0 && p.autoSave >= 0.0 && p.extraInvest >= 0.0 && prev.fin >= 0.0
    ensures prev.fin <= MonthFigures(p, i, prev).financial
  {
    MonthInvestment(p, i, prev);
    MulNonNegative(prev.fin, Monthly(p.investReturn));
  }

  /** With non-negative returns, contributions and starting assets, the
      financial assets never fall from one month to the next. */
  lemma {:induction false} FinancialNonDecreasing(p: Params, k: nat)
    requires WellFormed(p)
    requires p.investReturn >= 0.0 && p.autoSave >= 0.0 && p.extraInvest >= 0.0 && p.financial0 >= 0.0
    ensures 0.0 <= StateAt(p, k).fin <= StateAt(p, k + 1).fin
  {
    if k > 0 {
      FinancialNonDecreasing(p, k - 1);
    }
    MonthFinancialGrows(p, k, StateAt(p, k));
    StateStep(p, k);
  }

  // ---------------------------------------------------------------------
  // The two fixed-payment mortgages.

  /** Each mortgage follows the floored schedule of its level payment. */
  lemma {:induction false} MortgageSchedules(p: Params, k: nat)
    requires WellFormed(p) && p.mort1Pv >= 0.0 && p.mort3Pv >= 0.0
    ensures StateAt(p, k).m1 == Balance(p.mort1Pv, Monthly(p.mort1Rate), Mort1Payment(p), k)
    ensures StateAt(p, k).m3 == Balance(p.mort3Pv, Monthly(p.mort3Rate), Mort3Payment(p), k)
  {
    if k > 0 {
      MortgageSchedules(p, k - 1);
      StateStep(p, k - 1);
    }
  }

  /** Neither mortgage ever grows, and each is paid off once its term has
      run. */
  lemma MortgagesPaidOff(p: Params, k: nat)
    requires WellFormed(p) && p.mort1Pv >= 0.0 && p.mort3Pv >= 0.0
    requires p.mort1Rate >= 0.0 && p.mort3Rate >= 0.0
    ensures StateAt(p, k + 1).m1 <= StateAt(p, k).m1 && StateAt(p, k + 1).m3 <= StateAt(p, k).m3
    ensures k >= p.mort1N ==> StateAt(p, k).m1 == 0.0
    ensures k >= p.mort3N ==> StateAt(p, k).m3 == 0.0
  {
    MortgageSchedules(p, k);
    MortgageSchedules(p, k + 1);
    FixedLoanPaidOff(Monthly(p.mort1Rate), p.mort1N, p.mort1Pv, k);
    FixedLoanPaidOff(Monthly(p.mort3Rate), p.mort3N, p.mort3Pv, k);
  }

  /** Both mortgage payments are charged every month, whatever the balances
      carried in, since the credit payment is never negative. */
  lemma MortgagesAlwaysCharged(p: Params, i: nat, prev: Carry)
    requires WellFormed(p)
    ensures MonthFigures(p, i, prev).loanOut >= Mort1Payment(p) + Mort3Payment(p)
  {
    if prev.cl > 0.0 {
      PmtIsOutflow(Monthly(p.creditRate), Remaining(p, i), prev.cl);
    }
  }

  /** A paid-off first mortgage keeps being charged: once its term has run
      the balance is zero, yet its positive level payment is still part of
      every month's loan outflow. */
  lemma PaidOffMortgageStillCharged(p: Params, k: nat)
    requires WellFormed(p) && p.mort1Pv > 0.0 && p.mort3Pv >= 0.0
    requires p.mort1Rate >= 0.0 && p.mort3Rate >= 0.0 && k >= p.mort1N
    ensures StateAt(p, k).m1 == 0.0 && Mort1Payment(p) > 0.0
    ensures MonthFigures(p, k, StateAt(p, k)).loanOut >= Mort1Payment(p) + Mort3Payment(p)
  {
    MortgagesPaidOff(p, k);
    PmtIsOutflow(Monthly(p.mort1Rate), p.mort1N, p.mort1Pv);
    MortgagesAlwaysCharged(p, k, StateAt(p, k));
  }

  // ---------------------------------------------------------------------
  // Real estate.

  /** A starting value after n months of compounding at a monthly rate. */
  function Compounded(base: real, rate: real, n: nat): real
  {
    base * Pow(1.0 + rate, n)
  }

  /** Real estate compounds every month from its starting value. */
  lemma {:induction false} RealEstateValue(p: Params, k: nat)
    requires WellFormed(p)
    ensures StateAt(p, k).re == Compounded(p.realEstate0, Monthly(p.realEstateGrowth), k)
  {
    if k == 0 {
      CompoundedStep(p.realEstate0, Monthly(p.realEstateGrowth), 0, p.realEstate0);
    } else {
      RealEstateValue(p, k - 1);
      StateStep(p, k - 1);
      CompoundedStep(p.realEstate0, Monthly(p.realEstateGrowth), k - 1, StateAt(p, k - 1).re);
    }
  }

  lemma CompoundedStep(base: real, rate: real, n: nat, b: real)
    requires b == Compounded(base, rate, n)
    ensures Compounded(base, rate, 0) == base
    ensures Compound(b, rate) == Compounded(base, rate, n + 1)
  {
    MulCommutes(base, Pow(1.0 + rate, n), 1.0 + rate);
  }

  // ---------------------------------------------------------------------
  // The credit loan.

  /** Nothing is paid on a credit balance that is not positive, and the
      balance is then zero after the month. */
  lemma CreditPaidOffMonth(p: Params, i: nat, prev: Carry)
    requires WellFormed(p) && prev.cl <= 0.0
    ensures CreditPayment(p, i, prev.cl) == 0.0
    ensures MonthFigures(p, i, prev).credit == 0.0
    ensures MonthFigures(p, i, prev).loanOut == Mort1Payment(p) + Mort3Payment(p)
  {
    MulNonNegative(-prev.cl, 1.0 + Monthly(p.creditRate));
  }

  /** In the last month of its term the credit payment is the balance with
      its interest, so the balance is zero after it. */
  lemma CreditLastMonth(p: Params, i: nat, prev: Carry)
    requires WellFormed(p) && i >= CreditTerm(p) - 1
    ensures MonthFigures(p, i, prev).credit == 0.0
  {
    if prev.cl > 0.0 {
      PmtLastPeriod(Monthly(p.creditRate), prev.cl);
    } else {
      CreditPaidOffMonth(p, i, prev);
    }
  }

  /** The credit payment always covers the month's interest, so a balance
      never grows. */
  lemma CreditNeverGrows(p: Params, i: nat, prev: Carry)
    requires WellFormed(p) && p.creditRate >= 0.0 && prev.cl >= 0.0
    ensures MonthFigures(p, i, prev).credit <= prev.cl
  {
    if prev.cl > 0.0 {
      PmtBounds(Monthly(p.creditRate), Remaining(p, i), prev.cl);
    } else {
      CreditPaidOffMonth(p, i, prev);
    }
  }

  /** Paid off is absorbing: once the credit balance is zero it stays zero. */
  lemma {:induction false} CreditStaysPaidOff(p: Params, k: nat, k': nat)
    requires WellFormed(p) && k <= k' && StateAt(p, k).cl == 0.0
    ensures StateAt(p, k').cl == 0.0
  {
    if k' > k {
      CreditStaysPaidOff(p, k, k' - 1);
      CreditPaidOffMonth(p, k' - 1, StateAt(p, k' - 1));
      StateStep(p, k' - 1);
    }
  }

  /** From the end of its term on, the credit balance is zero. */
  lemma CreditClearedByTerm(p: Params, k: nat)
    requires WellFormed(p) && k >= CreditTerm(p)
    ensures StateAt(p, k).cl == 0.0
  {
    CreditLastMonth(p, k - 1, StateAt(p, k - 1));
    StateStep(p, k - 1);
  }

  /** Starting from a non-negative balance, the credit balance never grows. */
  lemma {:induction false} CreditNonIncreasing(p: Params, k: nat)
    requires WellFormed(p) && p.creditRate >= 0.0 && p.creditPv >= 0.0
    ensures 0.0 <= StateAt(p, k + 1).cl <= StateAt(p, k).cl
  {
    if k > 0 {
      CreditNonIncreasing(p, k - 1);
    }
    CreditNeverGrows(p, k, StateAt(p, k));
    StateStep(p, k);
  }

  /** Before the last month of the term, a positive credit balance stays
      positive, and re-amortising it next month asks for the same payment. */
  lemma CreditPaymentLevel(p: Params, i: nat, prev: Carry)
    requires WellFormed(p) && p.creditRate >= 0.0 && prev.cl > 0.0 && i < CreditTerm(p) - 1
    ensures MonthFigures(p, i, prev).credit > 0.0
    ensures CreditPayment(p, i + 1, MonthFigures(p, i, prev).credit) == CreditPayment(p, i, prev.cl)
  {
    var rate := Monthly(p.creditRate);
    PmtLeavesBalance(rate, Remaining(p, i), prev.cl);
    ReamortizedPayment(rate, Remaining(p, i), prev.cl);
    assert Remaining(p, i + 1) == Remaining(p, i) - 1;
  }

  /** A positive credit loan is paid in equal instalments: every month of its
      term asks for the payment that amortises the whole loan over the whole
      term. */
  lemma {:induction false} CreditPaymentConstant(p: Params, k: nat)
    requires WellFormed(p) && p.creditRate >= 0.0 && p.creditPv > 0.0 && k < CreditTerm(p)
    ensures StateAt(p, k).cl > 0.0
    ensures CreditPayment(p, k, StateAt(p, k).cl) == -Pmt(Monthly(p.creditRate), CreditTerm(p), p.creditPv)
  {
    if k > 0 {
      CreditPaymentConstant(p, k - 1);
      CreditPaymentLevel(p, k - 1, StateAt(p, k - 1));
      StateStep(p, k - 1);
    }
  }
}
