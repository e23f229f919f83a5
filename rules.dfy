/** Rule evaluation for one metric and one month: the minimum-result gate,
    then either the tier walk or the flat dispatch on the incentive type. */
module Rules {
  import opened IncentiveModel
  import opened Tiers

  /** The minimum result; a metric without one has minimum 0. */
  function MinimumOf(m: Metric): real {
    match m.minimum
    case Some(x) => x
    case None => 0.0
  }

  /** The incentive types for which a reached tier sets the amount. */
  predicate PaysOnTiers(kind: IncentiveType) {
    kind.FixedAmount? || kind.PercentOfResult? || kind.PercentOfSalary?
  }

  /** The amount one reached tier sets; 0 for a type the tier walk does not handle. */
  function TierAmount(kind: IncentiveType, t: Tier, value: real, salary: real): real {
    match kind
    case PercentOfResult => value * t.percentage / 100.0
    case PercentOfSalary => salary * t.percentage / 100.0
    case FixedAmount => t.premium
    case _ => 0.0
  }

  /** The trace line one reached tier adds (none for a type the walk does not handle). */
  function TierLine(kind: IncentiveType, t: Tier, value: real, salary: real): seq<TraceLine> {
    match kind
    case PercentOfResult => [PercentOf(value, t.percentage, TierAmount(kind, t, value, salary))]
    case PercentOfSalary => [PercentOf(salary, t.percentage, TierAmount(kind, t, value, salary))]
    case FixedAmount => [FixedForThreshold(t.threshold, t.premium)]
    case _ => []
  }

  /** The trace of a tier walk over `s`: the lines of the reached tiers, in order. */
  function TierTrace(kind: IncentiveType, s: seq<Tier>, value: real, salary: real): seq<TraceLine>
    decreases |s|
  {
    if s == [] then []
    else
      var t := s[|s| - 1];
      TierTrace(kind, s[..|s| - 1], value, salary)
        + (if t.threshold <= value then TierLine(kind, t, value, salary) else [])
  }

  /** The amount a chosen tier pays, 0 when no tier is reached. */
  function PaidBy(kind: IncentiveType, chosen: Option<Tier>, value: real, salary: real): real {
    match chosen
    case None => 0.0
    case Some(t) => TierAmount(kind, t, value, salary)
  }

  /** The flat path: no tiers, dispatch on the incentive type. The profit is
      the value whatever the type, since it is assigned after the dispatch. */
  function FlatOutcome(kind: IncentiveType, premium: real, value: real, salary: real): Outcome {
    match kind
    case FixedPerResultUnit =>
      Outcome(value * premium, [PerUnit(value, premium, value * premium)], value)
    case FixedAmount =>
      Outcome(premium, [Fixed(premium)], value)
    case PercentOfResult =>
      Outcome(value * premium / 100.0, [PercentOf(value, premium, value * premium / 100.0)], value)
    case PercentOfSalary =>
      Outcome(salary * premium / 100.0, [PercentOf(salary, premium, salary * premium / 100.0)], value)
    case Unrecognised(_) =>
      Outcome(0.0, [], value)
  }

  /** The specification of the evaluator. The tiered amount is that of the
      winning tier as stated on the stored order (highest reached threshold,
      later stored entry on a tie); the trace follows the sorted walk. */
  function Evaluate(m: Metric, value: real, salary: real): Outcome {
    var minimum := MinimumOf(m);
    if value < minimum then
      Outcome(0.0, [BelowMinimum(minimum)], 0.0)
    else if m.tiers != [] then
      var ts := Normalise(m.tiers);
      var w := Winner(ts, value);
      Outcome(PaidBy(m.kind, w, value, salary),
              TierTrace(m.kind, SortByThreshold(ts), value, salary),
              if w.Some? then value else 0.0)
    else
      FlatOutcome(m.kind, m.premium, value, salary)
  }

  /** One step of the walk: appending a tier changes the last reached tier
      and the trace only when the tier is reached. */
  lemma WalkStep(kind: IncentiveType, s: seq<Tier>, t: Tier, value: real, salary: real)
    ensures LastReached(s + [t], value) == if t.threshold <= value then Some(t) else LastReached(s, value)
    ensures TierTrace(kind, s + [t], value, salary)
         == TierTrace(kind, s, value, salary) + (if t.threshold <= value then TierLine(kind, t, value, salary) else [])
  {
    assert (s + [t])[..|s|] == s;
  }

  /** Where the tier walk stands after the first `i` sorted tiers. */
  ghost predicate WalkedTo(kind: IncentiveType, sorted: seq<Tier>, i: nat, value: real, salary: real,
                           amount: real, trace: seq<TraceLine>, profit: real)
    requires i <= |sorted|
  {
    && amount == PaidBy(kind, LastReached(sorted[..i], value), value, salary)
    && trace == TierTrace(kind, sorted[..i], value, salary)
    && profit == if LastReached(sorted[..i], value).Some? then value else 0.0
  }

  /** One tier of the walk: a reached tier overwrites the amount with its own
      and adds its line; an unreached tier changes nothing. */
  lemma WalkAdvance(kind: IncentiveType, sorted: seq<Tier>, i: nat, value: real, salary: real,
                    amount: real, trace: seq<TraceLine>, profit: real)
    requires i < |sorted| && WalkedTo(kind, sorted, i, value, salary, amount, trace, profit)
    ensures var t := sorted[i];
      if t.threshold <= value then
        WalkedTo(kind, sorted, i + 1, value, salary, TierAmount(kind, t, value, salary),
                 trace + TierLine(kind, t, value, salary), value)
      else WalkedTo(kind, sorted, i + 1, value, salary, amount, trace, profit)
  {
    WalkStep(kind, sorted[..i], sorted[i], value, salary);
    assert sorted[..i + 1] == sorted[..i] + [sorted[i]];
  }

  /** The tier walk: ascending over the sorted tiers, every reached tier
      overwrites the amount and adds its trace line. */
  method WalkTiers(kind: IncentiveType, sorted: seq<Tier>, value: real, salary: real)
    returns (amount: real, trace: seq<TraceLine>, profit: real)
    ensures amount == PaidBy(kind, LastReached(sorted, value), value, salary)
    ensures trace == TierTrace(kind, sorted, value, salary)
    ensures profit == if LastReached(sorted, value).Some? then value else 0.0
  {
    amount, trace, profit := 0.0, [], 0.0;
    for i := 0 to |sorted|
      invariant WalkedTo(kind, sorted, i, value, salary, amount, trace, profit)
    {
      var t := sorted[i];
      WalkAdvance(kind, sorted, i, value, salary, amount, trace, profit);
      if value >= t.threshold {
        match kind {
          case PercentOfResult =>
            amount := value * t.percentage / 100.0;
            trace := trace + [PercentOf(value, t.percentage, amount)];
          case PercentOfSalary =>
            amount := salary * t.percentage / 100.0;
            trace := trace + [PercentOf(salary, t.percentage, amount)];
          case FixedAmount =>
            amount := t.premium;
            trace := trace + [FixedForThreshold(t.threshold, amount)];
          case _ =>
            assert amount == TierAmount(kind, t, value, salary);
        }
        profit := value;
      }
    }
    assert sorted[..|sorted|] == sorted;
  }

  /** The evaluator as the source runs it: the gate, then the walk over the
      sorted tiers, or the flat dispatch. */
  method EvaluateRule(m: Metric, value: real, salary: real) returns (out: Outcome)
    ensures out == Evaluate(m, value, salary)
  {
    var minimum := MinimumOf(m);
    if value >= minimum {
      if m.tiers != [] {
        var ts := Normalise(m.tiers);
        var amount, trace, profit := WalkTiers(m.kind, SortByThreshold(ts), value, salary);
        SortedWalkFindsWinner(ts, value);
        out := Outcome(amount, trace, profit);
      } else {
        out := FlatOutcome(m.kind, m.premium, value, salary);
      }
    } else {
      out := Outcome(0.0, [BelowMinimum(minimum)], 0.0);
    }
  }

  // ---------------------------------------------------------------------
  // Properties of the evaluator
  // ---------------------------------------------------------------------

  lemma {:induction false} TierTraceHasNoShortfall(kind: IncentiveType, s: seq<Tier>, value: real, salary: real)
    ensures forall k :: 0 <= k < |TierTrace(kind, s, value, salary)| ==>
      !TierTrace(kind, s, value, salary)[k].BelowMinimum?
    decreases |s|
  {
    if s != [] {
      TierTraceHasNoShortfall(kind, s[..|s| - 1], value, salary);
    }
  }

  /** The minimum-result gate, both ways: the trace is the single shortfall
      line exactly when the value is below the minimum, and then nothing is
      paid and no profit is counted, whatever the type and the tiers. */
  lemma ShortfallIffBelowMinimum(m: Metric, value: real, salary: real)
    ensures value < MinimumOf(m) <==> Evaluate(m, value, salary).trace == [BelowMinimum(MinimumOf(m))]
    ensures value < MinimumOf(m) ==> Evaluate(m, value, salary).amount == 0.0
    ensures value < MinimumOf(m) ==> Evaluate(m, value, salary).profit == 0.0
  {
    if value >= MinimumOf(m) && m.tiers != [] {
      var ts := SortByThreshold(Normalise(m.tiers));
      TierTraceHasNoShortfall(m.kind, ts, value, salary);
      var trace := Evaluate(m, value, salary).trace;
      assert |trace| > 0 ==> !trace[0].BelowMinimum?;
    }
  }

  /** The number of tiers of `s` the value reaches. */
  function CountReached(s: seq<Tier>, value: real): nat
    decreases |s|
  {
    if s == [] then 0
    else CountReached(s[..|s| - 1], value) + (if s[|s| - 1].threshold <= value then 1 else 0)
  }

  /** One trace line per reached tier for the three types the walk handles
      (none for the others), and the last line is that of the tier that
      decided the amount. */
  lemma {:induction false} TierTraceShape(kind: IncentiveType, s: seq<Tier>, value: real, salary: real)
    ensures |TierTrace(kind, s, value, salary)| == if PaysOnTiers(kind) then CountReached(s, value) else 0
    ensures PaysOnTiers(kind) && LastReached(s, value).Some? ==> |TierTrace(kind, s, value, salary)| > 0
    ensures PaysOnTiers(kind) && LastReached(s, value).Some? ==>
      TierTrace(kind, s, value, salary)[|TierTrace(kind, s, value, salary)| - 1]
        == TierLine(kind, LastReached(s, value).value, value, salary)[0]
    decreases |s|
  {
    if s != [] {
      TierTraceShape(kind, s[..|s| - 1], value, salary);
    }
  }

  lemma {:induction false} CountReachedZero(s: seq<Tier>, value: real)
    requires forall i :: 0 <= i < |s| ==> s[i].threshold > value
    ensures CountReached(s, value) == 0
    decreases |s|
  {
    if s != [] {
      CountReachedZero(s[..|s| - 1], value);
    }
  }

  /** The second gate: a qualified tiered metric whose thresholds all exceed
      the value pays nothing, has an empty trace and counts no profit. */
  lemma NoTierReachedPaysNothing(m: Metric, value: real, salary: real)
    requires value >= MinimumOf(m) && m.tiers != []
    requires forall i :: 0 <= i < |m.tiers| ==> m.tiers[i].threshold > value
    ensures Evaluate(m, value, salary) == Outcome(0.0, [], 0.0)
  {
    var ts := Normalise(m.tiers);
    var sorted := SortByThreshold(ts);
    forall i | 0 <= i < |sorted| ensures sorted[i].threshold > value {
      assert sorted[i] in multiset(ts);
      var k :| 0 <= k < |ts| && ts[k] == sorted[i];
    }
    CountReachedZero(sorted, value);
    TierTraceShape(m.kind, sorted, value, salary);
  }

  /** A tiered metric of a type the walk does not handle ("Importo fisso x
      risultato", or an unrecognised label such as "Scaglioni") pays nothing
      and leaves no trace, although its profit is counted once a tier is reached. */
  lemma TieredUnhandledTypePaysNothing(m: Metric, value: real, salary: real)
    requires value >= MinimumOf(m) && m.tiers != [] && !PaysOnTiers(m.kind)
    ensures Evaluate(m, value, salary).amount == 0.0
    ensures Evaluate(m, value, salary).trace == []
    ensures Evaluate(m, value, salary).profit == (if Winner(Normalise(m.tiers), value).Some? then value else 0.0)
  {
    TierTraceShape(m.kind, SortByThreshold(Normalise(m.tiers)), value, salary);
  }

  /** Tiers are not cumulative: a qualified tiered metric is paid what one
      single stored tier gives, the reached one with the highest threshold
      (the later one on a tie), and profit is counted exactly when some tier
      is reached. */
  lemma TieredAmountIsOneTier(m: Metric, value: real, salary: real)
    requires value >= MinimumOf(m) && m.tiers != []
    ensures var out := Evaluate(m, value, salary);
      || (out.amount == 0.0 && out.profit == 0.0
          && forall i :: 0 <= i < |m.tiers| ==> m.tiers[i].threshold > value)
      || exists i :: 0 <= i < |m.tiers|
          && m.tiers[i].threshold <= value
          && out.amount == TierAmount(m.kind, NormaliseTier(m.tiers[i]), value, salary)
          && out.profit == value
          && (forall j :: 0 <= j < |m.tiers| && m.tiers[j].threshold <= value ==>
                m.tiers[j].threshold <= m.tiers[i].threshold)
          && (forall j :: i < j < |m.tiers| && m.tiers[j].threshold <= value ==>
                m.tiers[j].threshold < m.tiers[i].threshold)
  {
    var ts := Normalise(m.tiers);
    match WinningTier(ts, value)
    case None =>
    case Some(i) =>
      assert ts[i] == NormaliseTier(m.tiers[i]);
  }

  /** The flat path: each recognised type has its formula and one trace
      line; an unrecognised type pays 0 with no trace. Profit is the value. */
  lemma FlatFormulas(m: Metric, value: real, salary: real)
    requires value >= MinimumOf(m) && m.tiers == []
    ensures var out := Evaluate(m, value, salary);
      && out.profit == value
      && (m.kind.FixedAmount? ==> out.amount == m.premium)
      && (m.kind.PercentOfResult? ==> out.amount * 100.0 == value * m.premium)
      && (m.kind.PercentOfSalary? ==> out.amount * 100.0 == salary * m.premium)
      && (m.kind.FixedPerResultUnit? ==> out.amount == value * m.premium)
      && (m.kind.Unrecognised? ==> out.amount == 0.0)
      && |out.trace| == (if m.kind.Unrecognised? then 0 else 1)
  {
  }

  /** Whether an evaluation reaches a payout branch: the value passes the
      minimum and either there are no tiers or some stored tier is reached. */
  predicate ReachesPayout(m: Metric, value: real) {
    value >= MinimumOf(m)
    && (m.tiers == [] || exists i :: 0 <= i < |m.tiers| && m.tiers[i].threshold <= value)
  }

  /** The profit of an evaluation is the value exactly when a payout branch
      is reached, whatever amount that branch pays, and 0 otherwise. */
  lemma ProfitCounted(m: Metric, value: real, salary: real)
    ensures Evaluate(m, value, salary).profit == if ReachesPayout(m, value) then value else 0.0
  {
    if value >= MinimumOf(m) && m.tiers != [] {
      var ts := Normalise(m.tiers);
      if exists i :: 0 <= i < |m.tiers| && m.tiers[i].threshold <= value {
        var i :| 0 <= i < |m.tiers| && m.tiers[i].threshold <= value;
        assert ts[i].threshold <= value;
      } else {
        assert forall i :: 0 <= i < |ts| ==> ts[i].threshold > value;
      }
    }
  }

  lemma TierAmountNonNegative(kind: IncentiveType, t: Tier, value: real, salary: real)
    requires t.premium >= 0.0 && t.percentage >= 0.0 && value >= 0.0 && salary >= 0.0
    ensures TierAmount(kind, t, value, salary) >= 0.0
  {
  }

  lemma FlatAmountNonNegative(kind: IncentiveType, premium: real, value: real, salary: real)
    requires premium >= 0.0 && value >= 0.0 && salary >= 0.0
    ensures FlatOutcome(kind, premium, value, salary).amount >= 0.0
  {
  }

  /** With the non-negative inputs the editing forms allow, no amount is negative. */
  lemma AmountNonNegative(m: Metric, value: real, salary: real)
    requires WellFormedMetric(m) && value >= 0.0 && salary >= 0.0
    ensures Evaluate(m, value, salary).amount >= 0.0
  {
    if value >= MinimumOf(m) {
      if m.tiers != [] {
        var ts := Normalise(m.tiers);
        var w := WinningTier(ts, value);
        if w.Some? {
          assert WellFormedTier(m.tiers[w.value]);
          TierAmountNonNegative(m.kind, ts[w.value], value, salary);
        }
      } else {
        FlatAmountNonNegative(m.kind, m.premium, value, salary);
      }
    }
  }

  /** Tiers (10, 50, 0) and (20, 100, 0), type "Importo fisso", value 15:
      the amount is 50, not 150. */
  lemma TierExample()
    ensures Evaluate(Metric("kpi", FixedAmount, None, 0.0,
                            [Triple(10.0, 50.0, 0.0), Triple(20.0, 100.0, 0.0)], []),
                     15.0, 2000.0).amount == 50.0
  {
    var ts := Normalise([Triple(10.0, 50.0, 0.0), Triple(20.0, 100.0, 0.0)]);
    assert ts == [Tier(10.0, 50.0, 0.0), Tier(20.0, 100.0, 0.0)];
    assert ts[..1] == [ts[0]];
    assert ts[..1][..0] == [];
    assert WinningTier(ts[..1], 15.0) == Some(0);
    assert WinningTier(ts, 15.0) == Some(0);
    assert Winner(ts, 15.0) == Some(Tier(10.0, 50.0, 0.0));
  }

  /** Flat examples: 5 per unit at 20 pays 100; 10% of 200 pays 20; 5% of a
      2000 salary pays 100. */
  lemma FlatExamples(value: real)
    requires value >= 0.0
    ensures Evaluate(Metric("a", FixedPerResultUnit, Some(0.0), 5.0, [], []), 20.0, 0.0).amount == 100.0
    ensures Evaluate(Metric("b", PercentOfResult, None, 10.0, [], []), 200.0, 0.0).amount == 20.0
    ensures Evaluate(Metric("c", PercentOfSalary, None, 5.0, [], []), value, 2000.0).amount == 100.0
  {
  }
}
