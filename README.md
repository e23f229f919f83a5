# Incentive calculation engine — a Dafny model

The application manages employees, each with a monthly salary, a personal
compensation target (PPF) and a set of metrics (KPIs). Each metric has:

- an incentive type;
- an optional minimum result;
- a base premium;
- optional tiers;
- a history of dated results.

This project models the calculation engine that the dashboard and the
report page run inline, and proves properties of it. The engine's steps:

1. **Aggregation.** The engine sums each metric's results per month key. The key is the first seven characters of the date, `YYYY-MM`.
2. **Rule evaluation.** For each metric and month, the engine:
   - applies the minimum-result gate;
   - then either walks the tiers, sorted by threshold, where each reached tier overwrites the amount;
   - or uses the flat formula of the incentive type.

   It yields an amount, a trace of calculation lines and the "profit" the dashboard attributes to the metric.
3. **Monthly rollup.** Per employee and month, the engine adds up the amounts and profits. It derives compensation (salary plus incentive), the compensation/PPF ratio and the profit/incentive ratio. The printable month summary repeats the same arithmetic.
4. **Tables.** The dashboard builds one summary row and one profit row per selected employee and month, sorted by month and then by employee name.
5. **History edits.** A new result is saved only if its date is not yet recorded. Deleting a date drops every result of that date.

Files and modules:

| file | module | contents |
|---|---|---|
| `model.dfy` | `IncentiveModel` | data model: metrics, employees, tiers, trace lines, outcomes |
| `aggregation.dfy` | `Aggregation` | month keys and the aggregation loop |
| `tiers.dfy` | `Tiers` | tier normalisation, the stable threshold sort, the winning tier |
| `rules.dfy` | `Rules` | the evaluator, as a specification function and the looping method |
| `rollup.dfy` | `Rollup` | dashboard rollup, report-page details, ratios, PDF month summary |
| `ordering.dfy` | `Ordering` | string and row-key order, the table sort, month keys as dates |
| `reporter.dfy` | `Reporter` | the dashboard's two tables |
| `history.dfy` | `History` | the save guard and the delete filter, with the class that holds a history |

Amounts are exact `real`s. Maps are Dafny maps, and a metric list is a sequence in insertion order. A metric's incentive type has type `StoredIncentiveType`: the calculation compares the stored label itself, so a metric labelled with one of the four recognised labels always holds that label's own constructor, never `Unrecognised`.

The source loops over Python sets and dict keys. The model picks the next month with `:|`, so its loops hold for every iteration order. The contracts of the map results say exactly which keys they hold and what each value is. The table sort promises a sorted permutation; lemma `Ordering.SortedUnique` shows this fixes the table whenever the (month, employee) keys are distinct.

Three behaviours of the code that one might not expect, which the model keeps:

- **Unrecognised types.** A metric whose type label is not one of the four recognised labels pays 0 and, once it passes the minimum, leaves no trace (below the minimum it gets the shortfall line like any metric). The KPI form also offers "Scaglioni", which is such a label. No error is reported.
- **Profit.** Profit is counted once a payout branch is reached, even when that branch pays 0. Examples are a tiered "Importo fisso x risultato" metric and an unrecognised type.
- **The two PPF guards.** The dashboard divides by PPF when it is non-zero; the printable summary only when it is positive. `Rollup.PpfGuardsAgree` and `Rollup.PpfGuardsDifferOnNegative` show where the two agree and where they differ.

## Model

| member | source | states |
|---|---|---|
| IncentiveModel.ParseIncentiveType | incentivi-app2.py:484-490 | a stored label maps back to itself; it is unrecognised exactly when it is not one of the four labels the calculation compares against |
| IncentiveModel.ParseLabelRoundTrip | incentivi-app2.py:278-296 | every incentive type a metric can hold is read back as itself from its label, so the recognised labels always select their own formula |
| Aggregation.MonthKey | incentivi-app2.py:259 | the month key is the first 7 characters of the date, or the whole date when shorter |
| Aggregation.AggregateMonthly | incentivi-app2.py:256-261 | the aggregation loop returns exactly the per-month sums: one key per month that occurs, mapped to the sum of that month's values |
| Aggregation.MonthlyTotalsEmpty | incentivi-app2.py:734-742 | an empty history, and only an empty one, aggregates to the empty map |
| Aggregation.MonthlyTotalsSnoc | incentivi-app2.py:258-261 | adding an entry adds its value to its own month and changes no other month |
| Aggregation.MonthlyTotalsAppend | incentivi-app2.py:736-742 | aggregating two histories together has the months of both; each value is the sum of both parts, nothing overwritten |
| Aggregation.MonthlyTotalsPermutation | incentivi-app2.py:258-261 | any reordering of the history gives the same aggregate |
| Aggregation.EntryContributes | incentivi-app2.py:736-742 | every entry's month is a key; with non-negative values that month's total is at least the entry's value |
| Aggregation.SumMonthNonNegative | incentivi-app2.py:258-261 | non-negative results give non-negative month totals |
| Aggregation.SameMonthExample | incentivi-app2.py:736-742 | two January results 10 and 15 give {"2024-01": 25} |
| Tiers.NormaliseTier | incentivi-app2.py:272-275 | a two-field tier is read with percentage 0; threshold and premium are kept |
| Tiers.Normalise | incentivi-app2.py:751-754 | the normalised list has one tier per stored tier, in stored order |
| Tiers.SortByThreshold | incentivi-app2.py:276 | the sorted tiers are a permutation of the input and ascend by threshold; the sort is stable: for every threshold, the tiers that share it keep their stored order |
| Tiers.InsertTierStable | incentivi-app2.py:276 | inserting a tier into a sorted list keeps the order of the tiers that share any threshold and puts the new tier after those of its own threshold |
| Tiers.LastReached | incentivi-app2.py:755-756 | the tier found is one of the list and is reached, and no tier after it in the list is reached; there is none exactly when every threshold exceeds the value |
| Tiers.WinningTier | incentivi-app2.py:276-284 | the deciding tier, stated on stored order: none iff nothing is reached; otherwise a reached tier with the highest reached threshold, all later reached tiers having strictly lower thresholds |
| Tiers.SortedWalkFindsWinner | incentivi-app2.py:755-765 | the last reached tier of the ascending walk is the winning tier of the stored order, so one tier decides and the stable sort breaks ties towards the later entry |
| Tiers.EqualThresholdsLaterWins | incentivi-app2.py:276 | of two tiers with equal reached thresholds, the one stored later decides |
| Rules.WalkTiers | incentivi-app2.py:755-765 | the tier walk ends with the amount of the last reached tier and one trace line per reached tier; profit is the value iff some tier is reached |
| Rules.EvaluateRule | incentivi-app2.py:744-790 | the evaluator method computes exactly `Rules.Evaluate`: the gate, then the sorted tier walk or the flat dispatch |
| Rules.ShortfallIffBelowMinimum | incentivi-app2.py:747-749 | the trace is the single shortfall line iff the value is below the minimum (default 0); then amount and profit are 0 whatever the type and tiers |
| Rules.TierTraceHasNoShortfall | incentivi-app2.py:755-765 | the tier walk never writes a shortfall line |
| Rules.TierTraceShape | incentivi-app2.py:756-765 | for the three types the walk handles there is one trace line per reached tier, the last being that of the deciding tier; other types leave no line |
| Rules.CountReachedZero | incentivi-app2.py:756 | when every threshold exceeds the value, no tier is reached |
| Rules.NoTierReachedPaysNothing | incentivi-app2.py:269-284 | a qualified tiered metric whose thresholds all exceed the value pays 0, has an empty trace and no profit |
| Rules.TieredUnhandledTypePaysNothing | incentivi-app2.py:277-284 | a tiered "Importo fisso x risultato" or unrecognised-type metric pays 0 with an empty trace, yet counts profit once a tier is reached |
| Rules.TieredAmountIsOneTier | incentivi-app2.py:272-284 | a qualified tiered metric is paid by a single stored tier, the reached one with the highest threshold (later on a tie), never a sum; when no tier is reached it pays 0 and counts no profit |
| Rules.FlatFormulas | incentivi-app2.py:286-297 | flat path: fixed = premium, % of result = value·premium/100, % of salary = salary·premium/100, per unit = value·premium, one trace line each; unrecognised = 0, no line; profit = value |
| Rules.ProfitCounted | incentivi-app2.py:267-297 | the profit is the value exactly when a payout branch is reached (minimum passed, and no tiers or some tier reached), otherwise 0 |
| Rules.TierAmountNonNegative | incentivi-app2.py:278-283 | a tier pays a non-negative amount for non-negative inputs |
| Rules.FlatAmountNonNegative | incentivi-app2.py:288-296 | the flat formulas give non-negative amounts for non-negative inputs |
| Rules.AmountNonNegative | incentivi-app2.py:744-781 | with the non-negative inputs the forms allow, no evaluation pays a negative amount |
| Rules.TierExample | incentivi-app2.py:755-765 | tiers (10, 50) and (20, 100), fixed type, value 15: the amount is 50, not 150 |
| Rules.FlatExamples | incentivi-app2.py:767-779 | 20 units at 5 pay 100; 10% of 200 pays 20; 5% of a 2000 salary pays 100 |
| Rollup.TotalsOutsideMonths | incentivi-app2.py:299-303 | a month in which no metric has results has zero incentive and profit |
| Rollup.AddMetricTotals | incentivi-app2.py:262-303 | one metric's pass adds its evaluated amount and profit into each of its months and creates new months at zero; other months are unchanged |
| Rollup.RollupEmployee | incentivi-app2.py:254-303 | the employee rollup has exactly the employee's months as keys, each holding the sums over all metrics of their amounts and profits |
| Rollup.EmployeeMonthsAreResultMonths | incentivi-app2.py:259-264 | a month is among an employee's months iff some metric has some result whose date has that month key |
| Rollup.TotalsNonNegative | incentivi-app2.py:302-303 | with non-negative inputs, monthly incentive and profit are non-negative |
| Rollup.AddMetricDetails | incentivi-app2.py:744-790 | one metric's pass of the report page records its evaluation, aggregated value and name under each of its months |
| Rollup.MonthlyDetails | incentivi-app2.py:729-790 | the report page's map has exactly the employee's months as keys, each with one record per metric having results that month |
| Rollup.DetailsOutsideMonths | incentivi-app2.py:783-786 | a month without results has no details |
| Rollup.ReportAgreesWithDashboard | incentivi-app2.py:797-799 | the details' amounts of a month add up to the dashboard's incentive for that month |
| Rollup.PpfRatio | incentivi-app2.py:313 | compensation/PPF·100 when PPF ≠ 0, else 0 |
| Rollup.PdfPpfPercent | incentivi-app2.py:137-139 | compensation/PPF·100 only when PPF > 0, else 0 |
| Rollup.PpfGuardsAgree | incentivi-app2.py:137-139 | for PPF ≥ 0 the printable summary and the dashboard compute the same ratio |
| Rollup.PpfGuardsDifferOnNegative | incentivi-app2.py:313 | for every negative PPF and positive compensation the dashboard gives a negative ratio and the printable summary 0 |
| Rollup.ProfitRatio | incentivi-app2.py:325-341 | profit/incentive·100 when profit ≠ 0 and incentive > 0; 0 when profit = 0 or incentive ≤ 0 |
| Rollup.PdfMonthSummary | incentivi-app2.py:128-139 | the month's incentive is the sum of its detail amounts (0 for a month without details), compensation = salary + incentive, and the PPF percentage uses the positive-PPF guard |
| Rollup.PdfAgreesWithDashboard | incentivi-app2.py:125-134 | the printable summary's incentive, from the report map, equals the dashboard's incentive for every month |
| Rollup.RollupExample | incentivi-app2.py:299-313 | two fixed metrics paying 50 and 30 in March with salary 2000 and PPF 2100: incentive 80, profit 3, PPF ratio 2080/21 |
| Rollup.FixedContribution | incentivi-app2.py:288-290 | a fixed-amount metric with one non-negative result, on any date, contributes its premium and the result to that date's month |
| Ordering.StrLeTotal | incentivi-app2.py:350 | any two strings are ordered one way or the other |
| Ordering.StrLeTransitive | incentivi-app2.py:350 | the string order is transitive |
| Ordering.StrLeAntisymmetric | incentivi-app2.py:350 | strings ordered both ways are equal |
| Ordering.StrLeConcat | incentivi-app2.py:348-350 | comparing strings with equal-length prefixes compares the prefixes first, then the rest |
| Ordering.DigitOrder | incentivi-app2.py:348 | for digit strings of one length, string order is numeric order |
| Ordering.MonthKeyOrderIsCalendarOrder | incentivi-app2.py:348-350 | for well-formed "YYYY-MM" keys, comparing the strings gives the calendar order the dashboard gets by turning them into dates |
| Ordering.KeyLeTotal | incentivi-app2.py:350 | any two (month, employee) keys are ordered |
| Ordering.KeyLeTransitive | incentivi-app2.py:350 | the (month, employee) order is transitive |
| Ordering.KeyLeAntisymmetric | incentivi-app2.py:350 | keys ordered both ways are equal |
| Ordering.InsertBy | incentivi-app2.py:350 | inserting a row keeps all rows and adds it once |
| Ordering.SortBy | incentivi-app2.py:350 | the sorted table is a permutation of the rows, ascending by (month, employee name) |
| Ordering.SortedUnique | incentivi-app2.py:381-382 | with distinct keys, any two sorted permutations of the same rows are equal |
| Reporter.EmployeeRows | incentivi-app2.py:307-341 | the rows of one employee are exactly one summary row and one profit row per month of the rollup |
| Reporter.MonthRows | incentivi-app2.py:308-341 | a month's summary row and profit row from its totals; a month without profit gets profit 0 and ratio 0 |
| Reporter.BuildTables | incentivi-app2.py:245-350 | the month set is the union of all selected employees' months; both tables hold exactly the rows of every employee and month, sorted by (month, employee name) |
| Reporter.SummaryRowsContents | incentivi-app2.py:306-323 | a row is in the summary table iff it is the row of some selected employee for one of its months |
| Reporter.OneRowPerMonth | incentivi-app2.py:307-315 | an employee has exactly one summary row per month in which it has results, and none for other months |
| Reporter.AllMonthsAreResultMonths | incentivi-app2.py:306 | the collected month set holds exactly the months of the selected employees |
| History.DatesOf | incentivi-app2.py:669 | the date list has the history's dates in order; a date is in it iff some result has that date |
| History.WithoutDate | incentivi-app2.py:702-704 | the delete filter keeps exactly the results of other dates, so none of the deleted date is left |
| History.WithoutDateAppend | incentivi-app2.py:702-704 | the filter works on each part of a history alone, so the kept results stay in their order |
| History.WithoutAbsentDate | incentivi-app2.py:702-704 | deleting a date that has no result changes nothing |
| History.SaveThenDelete | incentivi-app2.py:671-681 | saving a result under a new date and then deleting that date gives back the history |
| History.SaveKeepsDatesDistinct | incentivi-app2.py:671-678 | the save guard never creates a second result on a date |
| History.DeleteKeepsOtherMonths | incentivi-app2.py:702-704 | deleting a date leaves the aggregated totals of every other month unchanged |
| History.ResultHistory.Save | incentivi-app2.py:669-681 | the result is appended iff its date is not recorded; otherwise the history is unchanged |
| History.ResultHistory.Delete | incentivi-app2.py:702-704 | the history becomes the delete filter of the old history |

## Left out

- The Streamlit pages, widgets, buttons, reruns and session state are presentation. The save method stands for pressing the save button once the guard lets it show.
- Loading and saving the JSON data file is file I/O.
- PDF layout is a foreign library. Only the month-summary arithmetic of the printable report is modelled.
- Charts are left out. The pandas DataFrame mechanics are represented by the abstract sort on (month, employee name). The order pandas gives rows with equal keys (two employees with the same name) is not modelled; the sort promises only a sorted permutation.
- The dashboard turns month keys into dates before sorting. The model compares the keys as strings, and `Ordering.MonthKeyOrderIsCalendarOrder` shows this is the same order for well-formed keys. A malformed month key, which would make that conversion fail, is not modelled.
- Display rounding and floating-point behaviour are left out: amounts are exact reals.
- Trace lines are structured values, not the formatted text.
- Reading PPF from a free-text field is upstream of the engine: `Employee.ppf` is already a number.
- The employee and KPI editing forms, including tier-list padding, are left out. So is the direct table editor on the results page. That editor can introduce duplicate dates, so distinct dates are a property of the save guard (`History.SaveKeepsDatesDistinct`), not an invariant of the class.
- IncentiveModel.StoredTier: a tier with fewer than two fields, which makes the source fail, and extra fields beyond the third, which it ignores, are outside the type.
- Rollup.MonthlyDetails: the report map is keyed by metric name inside each month in the source. The model keeps a sequence in metric order, the same thing when metric names are distinct, as dictionary keys are.
- History.ResultHistory.Delete: the source compares the selected date with each stored date as text. The model compares the date strings directly, which is the same for ISO dates without a time part.
- The report page's newest-first month order and its per-metric chart are display only.
