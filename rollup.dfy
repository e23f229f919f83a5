/** Employee monthly rollup: every metric's months are evaluated and their
    amounts and profits accumulated per month (the dashboard), the same
    evaluations are collected per month and metric (the report page), and
    a month's total is summed for the printable summary. */
module Rollup {
  import opened IncentiveModel
  import opened Aggregation
  import opened Rules

  datatype MonthTotals = MonthTotals(incentive: real, profit: real)

  const NoTotals := MonthTotals(0.0, 0.0)

  function AddTotals(a: MonthTotals, b: MonthTotals): MonthTotals {
    MonthTotals(a.incentive + b.incentive, a.profit + b.profit)
  }

  /** What one metric adds to one month: nothing without a result that
      month, otherwise its evaluated amount and profit. */
  function Contribution(m: Metric, month: string, salary: real): MonthTotals {
    var monthly := MonthlyTotals(m.history);
    if month in monthly then
      var out := Evaluate(m, monthly[month], salary);
      MonthTotals(out.amount, out.profit)
    else NoTotals
  }

  /** The totals of a month over a list of metrics: the sum of their contributions. */
  function TotalsFor(ms: seq<Metric>, month: string, salary: real): MonthTotals
    decreases |ms|
  {
    if ms == [] then NoTotals
    else AddTotals(TotalsFor(ms[..|ms| - 1], month, salary), Contribution(ms[|ms| - 1], month, salary))
  }

  /** The months of an employee: the union of the months of all metrics. */
  function EmployeeMonths(ms: seq<Metric>): set<string>
    decreases |ms|
  {
    if ms == [] then {}
    else EmployeeMonths(ms[..|ms| - 1]) + MonthsOf(ms[|ms| - 1].history)
  }

  lemma {:induction false} TotalsOutsideMonths(ms: seq<Metric>, month: string, salary: real)
    requires month !in EmployeeMonths(ms)
    ensures TotalsFor(ms, month, salary) == NoTotals
    decreases |ms|
  {
    if ms != [] {
      TotalsOutsideMonths(ms[..|ms| - 1], month, salary);
    }
  }

  function GetTotals(t: map<string, MonthTotals>, month: string): MonthTotals {
    if month in t then t[month] else NoTotals
  }

  /** One metric's pass of the dashboard rollup: its monthly aggregate is
      evaluated month by month and added into the running totals, creating
      a month at zero when it is new. */
  method AddMetricTotals(acc: map<string, MonthTotals>, metric: Metric, salary: real)
    returns (totals: map<string, MonthTotals>)
    ensures totals.Keys == acc.Keys + MonthsOf(metric.history)
    ensures forall month :: month in totals ==>
      totals[month] == AddTotals(GetTotals(acc, month), Contribution(metric, month, salary))
  {
    var monthly := AggregateMonthly(metric.history);
    totals := acc;
    var pending := monthly.Keys;
    while pending != {}
      invariant pending <= monthly.Keys
      invariant totals.Keys == acc.Keys + (monthly.Keys - pending)
      invariant forall month :: month in totals ==>
        totals[month] == AddTotals(GetTotals(acc, month),
                                   if month in pending then NoTotals else Contribution(metric, month, salary))
      decreases pending
    {
      var month :| month in pending;
      var out := EvaluateRule(metric, monthly[month], salary);
      var before := GetTotals(totals, month);
      totals := totals[month := MonthTotals(before.incentive + out.amount, before.profit + out.profit)];
      pending := pending - {month};
    }
  }

  lemma EmployeeMonthsStep(ms: seq<Metric>, i: nat)
    requires i < |ms|
    ensures EmployeeMonths(ms[..i + 1]) == EmployeeMonths(ms[..i]) + MonthsOf(ms[i].history)
  {
    assert ms[..i + 1][..i] == ms[..i];
  }

  /** After metric i's pass the running totals are those of the first i + 1 metrics. */
  lemma RollupStep(ms: seq<Metric>, i: nat, salary: real, before: map<string, MonthTotals>, after: map<string, MonthTotals>)
    requires i < |ms|
    requires before.Keys == EmployeeMonths(ms[..i])
    requires forall month :: month in before ==> before[month] == TotalsFor(ms[..i], month, salary)
    requires after.Keys == before.Keys + MonthsOf(ms[i].history)
    requires forall month :: month in after ==>
      after[month] == AddTotals(GetTotals(before, month), Contribution(ms[i], month, salary))
    ensures after.Keys == EmployeeMonths(ms[..i + 1])
    ensures forall month :: month in after ==> after[month] == TotalsFor(ms[..i + 1], month, salary)
  {
    EmployeeMonthsStep(ms, i);
    assert ms[..i + 1][..i] == ms[..i];
    forall month | month in after ensures after[month] == TotalsFor(ms[..i + 1], month, salary) {
      if month !in before {
        TotalsOutsideMonths(ms[..i], month, salary);
      }
    }
  }

  /** The dashboard rollup of one employee: month -> accumulated incentive
      and profit over all metrics. */
  method RollupEmployee(e: Employee) returns (totals: map<string, MonthTotals>)
    ensures totals.Keys == EmployeeMonths(e.metrics)
    ensures forall month :: month in totals ==> totals[month] == TotalsFor(e.metrics, month, e.salary)
  {
    totals := map[];
    for i := 0 to |e.metrics|
      invariant totals.Keys == EmployeeMonths(e.metrics[..i])
      invariant forall month :: month in totals ==> totals[month] == TotalsFor(e.metrics[..i], month, e.salary)
    {
      var next := AddMetricTotals(totals, e.metrics[i], e.salary);
      RollupStep(e.metrics, i, e.salary, totals, next);
      totals := next;
    }
    assert e.metrics[..|e.metrics|] == e.metrics;
  }

  /** Which months an employee has: exactly those in which some metric has
      some result. */
  lemma {:induction false} EmployeeMonthsAreResultMonths(ms: seq<Metric>, month: string)
    ensures month in EmployeeMonths(ms) <==>
      exists k, j :: 0 <= k < |ms| && 0 <= j < |ms[k].history| && MonthKey(ms[k].history[j].date) == month
    decreases |ms|
  {
    if ms != [] {
      var n := |ms|;
      var prefix := ms[..n - 1];
      EmployeeMonthsAreResultMonths(prefix, month);
      if month in MonthsOf(ms[n - 1].history) {
        var e :| e in ms[n - 1].history && MonthKey(e.date) == month;
        var j :| 0 <= j < |ms[n - 1].history| && ms[n - 1].history[j] == e;
        assert 0 <= n - 1 < |ms| && MonthKey(ms[n - 1].history[j].date) == month;
      }
      if exists k, j :: 0 <= k < |ms| && 0 <= j < |ms[k].history| && MonthKey(ms[k].history[j].date) == month {
        var k, j :| 0 <= k < |ms| && 0 <= j < |ms[k].history| && MonthKey(ms[k].history[j].date) == month;
        if k == n - 1 {
          assert ms[k].history[j] in ms[k].history;
        } else {
          assert prefix[k] == ms[k];
        }
      }
    }
  }

  /** With non-negative inputs a month's incentive and profit are non-negative. */
  lemma {:induction false} TotalsNonNegative(ms: seq<Metric>, month: string, salary: real)
    requires forall k :: 0 <= k < |ms| ==> WellFormedMetric(ms[k])
    requires salary >= 0.0
    ensures TotalsFor(ms, month, salary).incentive >= 0.0
    ensures TotalsFor(ms, month, salary).profit >= 0.0
    decreases |ms|
  {
    if ms != [] {
      var n := |ms|;
      var m := ms[n - 1];
      TotalsNonNegative(ms[..n - 1], month, salary);
      var monthly := MonthlyTotals(m.history);
      if month in monthly {
        SumMonthNonNegative(m.history, month);
        AmountNonNegative(m, monthly[month], salary);
      }
    }
  }

  // ---------------------------------------------------------------------
  // The report page: the evaluation of each metric, per month
  // ---------------------------------------------------------------------

  /** The per-metric record the report page keeps for a month. */
  datatype KpiDetail = KpiDetail(kpi: string, outcome: Outcome, value: real)

  /** What one metric adds to a month's details: one record when it has
      results that month, none otherwise. */
  function MetricDetail(m: Metric, month: string, salary: real): seq<KpiDetail> {
    var monthly := MonthlyTotals(m.history);
    if month in monthly then [KpiDetail(m.name, Evaluate(m, monthly[month], salary), monthly[month])]
    else []
  }

  /** The details of a month, one per metric with results that month, in metric order. */
  function DetailsFor(ms: seq<Metric>, month: string, salary: real): seq<KpiDetail>
    decreases |ms|
  {
    if ms == [] then []
    else DetailsFor(ms[..|ms| - 1], month, salary) + MetricDetail(ms[|ms| - 1], month, salary)
  }

  function GetDetails(r: map<string, seq<KpiDetail>>, month: string): seq<KpiDetail> {
    if month in r then r[month] else []
  }

  /** Where the report page's pass over one metric stands once the months
      outside `pending` are done. */
  ghost predicate DetailsPassDone(report: map<string, seq<KpiDetail>>, acc: map<string, seq<KpiDetail>>,
                                  metric: Metric, salary: real, pending: set<string>)
  {
    && report.Keys == acc.Keys + (MonthsOf(metric.history) - pending)
    && forall month :: month in report ==>
         report[month] == if month in pending then GetDetails(acc, month)
                          else GetDetails(acc, month) + MetricDetail(metric, month, salary)
  }

  lemma DetailsPassStep(report: map<string, seq<KpiDetail>>, acc: map<string, seq<KpiDetail>>,
                        metric: Metric, salary: real, pending: set<string>, month: string, value: real, out: Outcome)
    requires DetailsPassDone(report, acc, metric, salary, pending)
    requires month in pending && pending <= MonthsOf(metric.history)
    requires MonthlyTotals(metric.history)[month] == value
    requires out == Evaluate(metric, value, salary)
    ensures DetailsPassDone(report[month := GetDetails(report, month) + [KpiDetail(metric.name, out, value)]],
                            acc, metric, salary, pending - {month})
  {
    var d := [KpiDetail(metric.name, out, value)];
    assert MetricDetail(metric, month, salary) == d;
    assert GetDetails(report, month) == GetDetails(acc, month);
    var after := report[month := GetDetails(report, month) + d];
    var rest := pending - {month};
    assert after.Keys == acc.Keys + (MonthsOf(metric.history) - rest);
    forall mo | mo in after
      ensures after[mo] == if mo in rest then GetDetails(acc, mo)
                           else GetDetails(acc, mo) + MetricDetail(metric, mo, salary)
    {
      if mo != month {
        assert after[mo] == report[mo];
      }
    }
  }

  /** One metric's pass of the report page's calculation: each month's
      evaluation is recorded under that month. */
  method AddMetricDetails(acc: map<string, seq<KpiDetail>>, metric: Metric, salary: real)
    returns (report: map<string, seq<KpiDetail>>)
    ensures report.Keys == acc.Keys + MonthsOf(metric.history)
    ensures forall month :: month in report ==>
      report[month] == GetDetails(acc, month) + MetricDetail(metric, month, salary)
  {
    var monthly := AggregateMonthly(metric.history);
    report := acc;
    var pending := monthly.Keys;
    while pending != {}
      invariant pending <= monthly.Keys
      invariant DetailsPassDone(report, acc, metric, salary, pending)
      decreases pending
    {
      var month :| month in pending;
      var out := EvaluateRule(metric, monthly[month], salary);
      DetailsPassStep(report, acc, metric, salary, pending, month, monthly[month], out);
      report := report[month := GetDetails(report, month) + [KpiDetail(metric.name, out, monthly[month])]];
      pending := pending - {month};
    }
  }

  lemma {:induction false} DetailsOutsideMonths(ms: seq<Metric>, month: string, salary: real)
    requires month !in EmployeeMonths(ms)
    ensures DetailsFor(ms, month, salary) == []
    decreases |ms|
  {
    if ms != [] {
      DetailsOutsideMonths(ms[..|ms| - 1], month, salary);
    }
  }

  /** After metric i's pass the report holds the details of the first i + 1 metrics. */
  lemma DetailsStep(ms: seq<Metric>, i: nat, salary: real, before: map<string, seq<KpiDetail>>, after: map<string, seq<KpiDetail>>)
    requires i < |ms|
    requires before.Keys == EmployeeMonths(ms[..i])
    requires forall month :: month in before ==> before[month] == DetailsFor(ms[..i], month, salary)
    requires after.Keys == before.Keys + MonthsOf(ms[i].history)
    requires forall month :: month in after ==>
      after[month] == GetDetails(before, month) + MetricDetail(ms[i], month, salary)
    ensures after.Keys == EmployeeMonths(ms[..i + 1])
    ensures forall month :: month in after ==> after[month] == DetailsFor(ms[..i + 1], month, salary)
  {
    EmployeeMonthsStep(ms, i);
    assert ms[..i + 1][..i] == ms[..i];
    forall month | month in after ensures after[month] == DetailsFor(ms[..i + 1], month, salary) {
      if month !in before {
        DetailsOutsideMonths(ms[..i], month, salary);
      }
    }
  }

  /** The report page's calculation: month -> details of every metric. */
  method MonthlyDetails(e: Employee) returns (report: map<string, seq<KpiDetail>>)
    ensures report.Keys == EmployeeMonths(e.metrics)
    ensures forall month :: month in report ==> report[month] == DetailsFor(e.metrics, month, e.salary)
  {
    report := map[];
    for i := 0 to |e.metrics|
      invariant report.Keys == EmployeeMonths(e.metrics[..i])
      invariant forall month :: month in report ==> report[month] == DetailsFor(e.metrics[..i], month, e.salary)
    {
      var next := AddMetricDetails(report, e.metrics[i], e.salary);
      DetailsStep(e.metrics, i, e.salary, report, next);
      report := next;
    }
    assert e.metrics[..|e.metrics|] == e.metrics;
  }

  /** The sum of the amounts of a month's details. */
  function SumAmounts(details: seq<KpiDetail>): real
    decreases |details|
  {
    if details == [] then 0.0
    else SumAmounts(details[..|details| - 1]) + details[|details| - 1].outcome.amount
  }

  lemma SumAmountsSnoc(details: seq<KpiDetail>, d: KpiDetail)
    ensures SumAmounts(details + [d]) == SumAmounts(details) + d.outcome.amount
  {
    assert (details + [d])[..|details|] == details;
  }

  /** A metric's detail carries exactly the amount it contributes to the dashboard. */
  lemma DetailMatchesContribution(ds: seq<KpiDetail>, m: Metric, month: string, salary: real)
    ensures SumAmounts(ds + MetricDetail(m, month, salary)) == SumAmounts(ds) + Contribution(m, month, salary).incentive
  {
    var monthly := MonthlyTotals(m.history);
    if month in monthly {
      SumAmountsSnoc(ds, KpiDetail(m.name, Evaluate(m, monthly[month], salary), monthly[month]));
    } else {
      assert ds + MetricDetail(m, month, salary) == ds;
    }
  }

  /** The report page and the dashboard agree: the amounts of a month's
      details add up to the dashboard's incentive for that month. */
  lemma {:induction false} ReportAgreesWithDashboard(ms: seq<Metric>, month: string, salary: real)
    ensures SumAmounts(DetailsFor(ms, month, salary)) == TotalsFor(ms, month, salary).incentive
    decreases |ms|
  {
    if ms != [] {
      var n := |ms|;
      ReportAgreesWithDashboard(ms[..n - 1], month, salary);
      DetailMatchesContribution(DetailsFor(ms[..n - 1], month, salary), ms[n - 1], month, salary);
    }
  }

  // ---------------------------------------------------------------------
  // Ratios and the printable month summary
  // ---------------------------------------------------------------------

  /** The dashboard's compensation/PPF ratio in percent; a PPF of 0 (unset)
      gives 0. */
  function PpfRatio(compensation: real, ppf: real): (r: real)
    ensures ppf == 0.0 ==> r == 0.0
    ensures ppf != 0.0 ==> r * ppf == compensation * 100.0
  {
    if ppf != 0.0 then compensation / ppf * 100.0 else 0.0
  }

  /** The printable summary's PPF percentage; only a positive PPF counts. */
  function PdfPpfPercent(compensation: real, ppf: real): (r: real)
    ensures ppf <= 0.0 ==> r == 0.0
    ensures ppf > 0.0 ==> r * ppf == compensation * 100.0
  {
    if ppf > 0.0 then compensation / ppf * 100.0 else 0.0
  }

  /** The two PPF guards agree on every PPF the forms can hold (not negative)... */
  lemma PpfGuardsAgree(compensation: real, ppf: real)
    requires ppf >= 0.0
    ensures PpfRatio(compensation, ppf) == PdfPpfPercent(compensation, ppf)
  {
  }

  /** ...and differ on a negative one. */
  lemma PpfGuardsDifferOnNegative(compensation: real, ppf: real)
    requires ppf < 0.0 && compensation > 0.0
    ensures PpfRatio(compensation, ppf) < 0.0
    ensures PdfPpfPercent(compensation, ppf) == 0.0
  {
  }

  /** The profit/incentive ratio in percent: 0 when there is no profit or no
      positive incentive. */
  function ProfitRatio(profit: real, incentive: real): (r: real)
    ensures profit == 0.0 || incentive <= 0.0 ==> r == 0.0
    ensures profit != 0.0 && incentive > 0.0 ==> r * incentive == profit * 100.0
  {
    if profit != 0.0 then (if incentive > 0.0 then profit / incentive * 100.0 else 0.0) else 0.0
  }

  datatype MonthSummary = MonthSummary(incentive: real, compensation: real, ppfPercent: real)

  /** The arithmetic of the printable month summary: the month's details are
      summed, the salary added, and the PPF percentage taken when PPF is positive. */
  method PdfMonthSummary(e: Employee, report: map<string, seq<KpiDetail>>, month: string)
    returns (s: MonthSummary)
    ensures s.incentive == SumAmounts(if month in report then report[month] else [])
    ensures s.compensation == e.salary + s.incentive
    ensures s.ppfPercent == PdfPpfPercent(s.compensation, e.ppf)
  {
    var details := if month in report then report[month] else [];
    var incentive := 0.0;
    for i := 0 to |details|
      invariant incentive == SumAmounts(details[..i])
    {
      SumAmountsSnoc(details[..i], details[i]);
      assert details[..i + 1] == details[..i] + [details[i]];
      incentive := incentive + details[i].outcome.amount;
    }
    assert details[..|details|] == details;
    var compensation := e.salary + incentive;
    var percent := 0.0;
    if e.ppf > 0.0 {
      percent := compensation / e.ppf * 100.0;
    }
    s := MonthSummary(incentive, compensation, percent);
  }

  /** The printable summary of a month computed from the report page gives
      the same incentive as the dashboard. */
  lemma PdfAgreesWithDashboard(e: Employee, report: map<string, seq<KpiDetail>>, month: string)
    requires report.Keys == EmployeeMonths(e.metrics)
    requires forall mo :: mo in report ==> report[mo] == DetailsFor(e.metrics, mo, e.salary)
    ensures SumAmounts(if month in report then report[month] else []) == TotalsFor(e.metrics, month, e.salary).incentive
  {
    if month in report {
      ReportAgreesWithDashboard(e.metrics, month, e.salary);
    } else {
      TotalsOutsideMonths(e.metrics, month, e.salary);
    }
  }

  lemma OneEntryTotals(e: ResultEntry)
    ensures MonthlyTotals([e]) == map[MonthKey(e.date) := e.value]
  {
    MonthlyTotalsEmpty([]);
    MonthlyTotalsSnoc([], e);
    assert [] + [e] == [e];
  }

  /** A fixed-amount metric with one result contributes its premium and the
      result to the result's month. */
  lemma FixedContribution(name: string, premium: real, date: string, value: real, salary: real)
    requires value >= 0.0
    ensures Contribution(Metric(name, FixedAmount, None, premium, [], [ResultEntry(date, value)]), MonthKey(date), salary)
         == MonthTotals(premium, value)
  {
    OneEntryTotals(ResultEntry(date, value));
  }

  /** Two metrics paying 50 and 30 in a month, salary 2000, PPF 2100: the
      incentive is 80, the compensation 2080 and the PPF ratio 2080/21. */
  lemma RollupExample()
    ensures var ms := [Metric("a", FixedAmount, None, 50.0, [], [ResultEntry("2024-03-04", 1.0)]),
                       Metric("b", FixedAmount, None, 30.0, [], [ResultEntry("2024-03-18", 2.0)])];
      var t := TotalsFor(ms, "2024-03", 2000.0);
      t.incentive == 80.0 && t.profit == 3.0
      && PpfRatio(2000.0 + t.incentive, 2100.0) == 2080.0 / 21.0
  {
    var a := Metric("a", FixedAmount, None, 50.0, [], [ResultEntry("2024-03-04", 1.0)]);
    var b := Metric("b", FixedAmount, None, 30.0, [], [ResultEntry("2024-03-18", 2.0)]);
    assert MonthKey("2024-03-04") == "2024-03";
    assert MonthKey("2024-03-18") == "2024-03";
    FixedContribution("a", 50.0, "2024-03-04", 1.0, 2000.0);
    FixedContribution("b", 30.0, "2024-03-18", 2.0, 2000.0);
    var ms := [a, b];
    assert ms[..1] == [a];
    assert [a][..0] == [];
    assert TotalsFor([a], "2024-03", 2000.0) == MonthTotals(50.0, 1.0);
  }
}
