/** The dashboard's two tables over the selected employees: a summary row
    (salary, incentive, compensation, PPF ratio) and a profit row (profit,
    incentive, profit/incentive ratio) per employee and month, both sorted
    by month and employee name. */
module Reporter {
  import opened IncentiveModel
  import opened Aggregation
  import opened Rollup
  import opened Ordering

  datatype SummaryRow = SummaryRow(
    employee: string, month: string, salary: real, incentive: real,
    compensation: real, ppf: real, ppfRatio: real)

  datatype ProfitRow = ProfitRow(
    employee: string, month: string, profit: real, incentive: real, ratio: real)

  function SummaryKey(r: SummaryRow): RowKey {
    RowKey(r.month, r.employee)
  }

  function ProfitKey(r: ProfitRow): RowKey {
    RowKey(r.month, r.employee)
  }

  /** The summary row of an employee's month, from the rollup's totals. */
  function SummaryRowFor(e: Employee, month: string): SummaryRow {
    var t := TotalsFor(e.metrics, month, e.salary);
    SummaryRow(e.name, month, e.salary, t.incentive, e.salary + t.incentive, e.ppf,
               PpfRatio(e.salary + t.incentive, e.ppf))
  }

  /** The profit row of an employee's month. */
  function ProfitRowFor(e: Employee, month: string): ProfitRow {
    var t := TotalsFor(e.metrics, month, e.salary);
    ProfitRow(e.name, month, t.profit, t.incentive, ProfitRatio(t.profit, t.incentive))
  }

  /** The summary rows of one employee over a set of months, one per month. */
  function SummaryRowsOver(e: Employee, months: set<string>): multiset<SummaryRow> {
    multiset(set mo | mo in months :: SummaryRowFor(e, mo))
  }

  function ProfitRowsOver(e: Employee, months: set<string>): multiset<ProfitRow> {
    multiset(set mo | mo in months :: ProfitRowFor(e, mo))
  }

  /** All summary rows of the selected employees: each employee's rows for
      each of its months. */
  function SummaryRows(emps: seq<Employee>): multiset<SummaryRow>
    decreases |emps|
  {
    if emps == [] then multiset{}
    else
      var e := emps[|emps| - 1];
      SummaryRows(emps[..|emps| - 1]) + SummaryRowsOver(e, EmployeeMonths(e.metrics))
  }

  function ProfitRows(emps: seq<Employee>): multiset<ProfitRow>
    decreases |emps|
  {
    if emps == [] then multiset{}
    else
      var e := emps[|emps| - 1];
      ProfitRows(emps[..|emps| - 1]) + ProfitRowsOver(e, EmployeeMonths(e.metrics))
  }

  /** The months of all selected employees. */
  function AllMonths(emps: seq<Employee>): set<string>
    decreases |emps|
  {
    if emps == [] then {}
    else AllMonths(emps[..|emps| - 1]) + EmployeeMonths(emps[|emps| - 1].metrics)
  }

  lemma SummaryRowsStep(e: Employee, done: set<string>, m: string)
    requires m !in done
    ensures SummaryRowsOver(e, done + {m}) == SummaryRowsOver(e, done) + multiset{SummaryRowFor(e, m)}
  {
    var before := set mo | mo in done :: SummaryRowFor(e, mo);
    assert (set mo | mo in done + {m} :: SummaryRowFor(e, mo)) == before + {SummaryRowFor(e, m)};
    assert SummaryRowFor(e, m) !in before;
  }

  lemma ProfitRowsStep(e: Employee, done: set<string>, m: string)
    requires m !in done
    ensures ProfitRowsOver(e, done + {m}) == ProfitRowsOver(e, done) + multiset{ProfitRowFor(e, m)}
  {
    var before := set mo | mo in done :: ProfitRowFor(e, mo);
    assert (set mo | mo in done + {m} :: ProfitRowFor(e, mo)) == before + {ProfitRowFor(e, m)};
    assert ProfitRowFor(e, m) !in before;
  }

  /** The two rows the dashboard writes for one month of an employee, from
      that month's accumulated totals: compensation is salary plus incentive,
      and a month without profit gets profit 0 and ratio 0. */
  method MonthRows(e: Employee, m: string, t: MonthTotals) returns (srow: SummaryRow, prow: ProfitRow)
    requires t == TotalsFor(e.metrics, m, e.salary)
    ensures srow == SummaryRowFor(e, m) && prow == ProfitRowFor(e, m)
  {
    var inc, prof := t.incentive, t.profit;
    var compensation := e.salary + inc;
    var ratio := if e.ppf != 0.0 then compensation / e.ppf * 100.0 else 0.0;
    srow := SummaryRow(e.name, m, e.salary, inc, compensation, e.ppf, ratio);
    if prof != 0.0 {
      var profitRatio := if inc > 0.0 then prof / inc * 100.0 else 0.0;
      prow := ProfitRow(e.name, m, prof, inc, profitRatio);
    } else {
      prow := ProfitRow(e.name, m, 0.0, inc, 0.0);
    }
  }

  /** Where the row loop of one employee stands: the months in `done` have
      their rows, the months in `pending` are still to do. */
  ghost predicate RowsDone(e: Employee, all: set<string>, done: set<string>, pending: set<string>,
                           summary: seq<SummaryRow>, profits: seq<ProfitRow>)
  {
    && done + pending == all && done !! pending
    && multiset(summary) == SummaryRowsOver(e, done)
    && multiset(profits) == ProfitRowsOver(e, done)
  }

  lemma RowsStep(e: Employee, all: set<string>, done: set<string>, pending: set<string>, m: string,
                 summary: seq<SummaryRow>, profits: seq<ProfitRow>, srow: SummaryRow, prow: ProfitRow)
    requires RowsDone(e, all, done, pending, summary, profits) && m in pending
    requires srow == SummaryRowFor(e, m) && prow == ProfitRowFor(e, m)
    ensures RowsDone(e, all, done + {m}, pending - {m}, summary + [srow], profits + [prow])
  {
    SummaryRowsStep(e, done, m);
    ProfitRowsStep(e, done, m);
  }

  /** The rows of one employee: one summary row and one profit row for each
      month of the rollup, read from the rollup's totals. */
  method EmployeeRows(e: Employee, totals: map<string, MonthTotals>)
    returns (summary: seq<SummaryRow>, profits: seq<ProfitRow>)
    requires totals.Keys == EmployeeMonths(e.metrics)
    requires forall month :: month in totals ==> totals[month] == TotalsFor(e.metrics, month, e.salary)
    ensures multiset(summary) == SummaryRowsOver(e, EmployeeMonths(e.metrics))
    ensures multiset(profits) == ProfitRowsOver(e, EmployeeMonths(e.metrics))
  {
    summary, profits := [], [];
    var pending := totals.Keys;
    ghost var done: set<string> := {};
    while pending != {}
      invariant RowsDone(e, totals.Keys, done, pending, summary, profits)
      decreases pending
    {
      var m :| m in pending;
      var srow, prow := MonthRows(e, m, totals[m]);
      RowsStep(e, totals.Keys, done, pending, m, summary, profits, srow, prow);
      summary, profits := summary + [srow], profits + [prow];
      done, pending := done + {m}, pending - {m};
    }
  }

  /** The dashboard's table construction: every selected employee is rolled
      up, its rows appended, the months collected; then both tables are
      sorted by month and employee name. */
  method BuildTables(emps: seq<Employee>)
    returns (summary: seq<SummaryRow>, profits: seq<ProfitRow>, months: set<string>)
    ensures months == AllMonths(emps)
    ensures multiset(summary) == SummaryRows(emps) && SortedBy(summary, SummaryKey)
    ensures multiset(profits) == ProfitRows(emps) && SortedBy(profits, ProfitKey)
  {
    var summaryRows: seq<SummaryRow>, profitRows: seq<ProfitRow> := [], [];
    months := {};
    for k := 0 to |emps|
      invariant months == AllMonths(emps[..k])
      invariant multiset(summaryRows) == SummaryRows(emps[..k])
      invariant multiset(profitRows) == ProfitRows(emps[..k])
    {
      var e := emps[k];
      assert emps[..k + 1][..k] == emps[..k];
      assert emps[..k + 1][k] == e;
      var totals := RollupEmployee(e);
      months := months + totals.Keys;
      var s, p := EmployeeRows(e, totals);
      summaryRows := summaryRows + s;
      profitRows := profitRows + p;
    }
    assert emps[..|emps|] == emps;
    summary := SortBy(summaryRows, SummaryKey);
    profits := SortBy(profitRows, ProfitKey);
  }

  /** Which rows the summary table holds: exactly the row of each selected
      employee for each of its months. */
  lemma {:induction false} SummaryRowsContents(emps: seq<Employee>, r: SummaryRow)
    ensures r in SummaryRows(emps) <==>
      exists k :: 0 <= k < |emps| && r.month in EmployeeMonths(emps[k].metrics) && r == SummaryRowFor(emps[k], r.month)
    decreases |emps|
  {
    if emps != [] {
      var n := |emps|;
      var prefix := emps[..n - 1];
      SummaryRowsContents(prefix, r);
      var e := emps[n - 1];
      var own := set mo | mo in EmployeeMonths(e.metrics) :: SummaryRowFor(e, mo);
      assert r in SummaryRowsOver(e, EmployeeMonths(e.metrics)) <==> r in own;
      if r in own {
        assert r.month in EmployeeMonths(e.metrics) && r == SummaryRowFor(e, r.month);
      }
      if exists k :: 0 <= k < n && r.month in EmployeeMonths(emps[k].metrics) && r == SummaryRowFor(emps[k], r.month) {
        var k :| 0 <= k < n && r.month in EmployeeMonths(emps[k].metrics) && r == SummaryRowFor(emps[k], r.month);
        if k < n - 1 {
          assert prefix[k] == emps[k];
        } else {
          assert r in own;
        }
      }
    }
  }

  /** An employee has exactly one summary row per month in which it has results. */
  lemma OneRowPerMonth(e: Employee, month: string)
    ensures SummaryRowsOver(e, EmployeeMonths(e.metrics))[SummaryRowFor(e, month)]
         == if month in EmployeeMonths(e.metrics) then 1 else 0
  {
    var own := set mo | mo in EmployeeMonths(e.metrics) :: SummaryRowFor(e, mo);
    if month !in EmployeeMonths(e.metrics) {
      assert SummaryRowFor(e, month) !in own;
    }
  }

  /** The month set the dashboard collects: the months in which some selected
      employee has some result. */
  lemma {:induction false} AllMonthsAreResultMonths(emps: seq<Employee>, month: string)
    ensures month in AllMonths(emps) <==> exists k :: 0 <= k < |emps| && month in EmployeeMonths(emps[k].metrics)
    decreases |emps|
  {
    if emps != [] {
      var n := |emps|;
      AllMonthsAreResultMonths(emps[..n - 1], month);
      if exists k :: 0 <= k < n && month in EmployeeMonths(emps[k].metrics) {
        var k :| 0 <= k < n && month in EmployeeMonths(emps[k].metrics);
        if k < n - 1 {
          assert emps[..n - 1][k] == emps[k];
        }
      }
      if month in AllMonths(emps[..n - 1]) {
        var k :| 0 <= k < n - 1 && month in EmployeeMonths(emps[..n - 1][k].metrics);
        assert emps[..n - 1][k] == emps[k];
      }
    }
  }
}
