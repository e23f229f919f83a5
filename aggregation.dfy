/** Result aggregation: the dated results of one metric are grouped by
    month key and summed. */
module Aggregation {
  import opened IncentiveModel

  /** The month key of a date: its first seven characters ("YYYY-MM" of an
      ISO date). A shorter string is a key of its own, as slicing keeps it whole. */
  function MonthKey(date: string): (key: string)
    ensures |key| == if |date| < 7 then |date| else 7
    ensures key == date[..|key|]
  {
    if |date| < 7 then date else date[..7]
  }

  /** The month keys that occur in a history. */
  function MonthsOf(h: seq<ResultEntry>): set<string> {
    set e | e in h :: MonthKey(e.date)
  }

  /** The sum of the values of the entries that fall in `month`. */
  function SumMonth(h: seq<ResultEntry>, month: string): real
    decreases |h|
  {
    if h == [] then 0.0
    else
      var last := h[|h| - 1];
      SumMonth(h[..|h| - 1], month) + (if MonthKey(last.date) == month then last.value else 0.0)
  }

  /** The monthly aggregate: one key per month that occurs, mapped to the
      sum of that month's values. */
  function MonthlyTotals(h: seq<ResultEntry>): map<string, real> {
    map month | month in MonthsOf(h) :: SumMonth(h, month)
  }

  /** An empty history, and only an empty one, gives an empty aggregate. */
  lemma MonthlyTotalsEmpty(h: seq<ResultEntry>)
    ensures h == [] <==> MonthlyTotals(h) == map[]
  {
    if h != [] {
      assert h[0] in h;
      assert MonthKey(h[0].date) in MonthlyTotals(h);
    }
  }

  function Get(m: map<string, real>, key: string): real {
    if key in m then m[key] else 0.0
  }

  lemma {:induction false} SumMonthOutside(h: seq<ResultEntry>, month: string)
    requires month !in MonthsOf(h)
    ensures SumMonth(h, month) == 0.0
  {
    if h != [] {
      var p := h[..|h| - 1];
      assert MonthsOf(p) <= MonthsOf(h) by {
        forall e | e in p ensures e in h { }
      }
      assert h[|h| - 1] in h;
      SumMonthOutside(p, month);
    }
  }

  lemma MonthsOfSnoc(h: seq<ResultEntry>, e: ResultEntry)
    ensures MonthsOf(h + [e]) == MonthsOf(h) + {MonthKey(e.date)}
  {
    var h' := h + [e];
    forall x | x in h' ensures x in h || x == e { }
    forall x | x in h ensures x in h' { }
    assert e in h';
  }

  lemma SumMonthSnoc(h: seq<ResultEntry>, e: ResultEntry, month: string)
    ensures SumMonth(h + [e], month) == SumMonth(h, month) + (if MonthKey(e.date) == month then e.value else 0.0)
  {
    assert (h + [e])[..|h|] == h;
  }

  /** Adding one entry adds its value to its own month and to no other. */
  lemma MonthlyTotalsSnoc(h: seq<ResultEntry>, e: ResultEntry)
    ensures MonthlyTotals(h + [e])
         == MonthlyTotals(h)[MonthKey(e.date) := Get(MonthlyTotals(h), MonthKey(e.date)) + e.value]
  {
    var key := MonthKey(e.date);
    var before, after := MonthlyTotals(h), MonthlyTotals(h + [e]);
    var expected := before[key := Get(before, key) + e.value];
    MonthsOfSnoc(h, e);
    assert after.Keys == expected.Keys;
    forall month | month in after ensures after[month] == expected[month] {
      SumMonthSnoc(h, e, month);
      if month == key && key !in MonthsOf(h) {
        SumMonthOutside(h, key);
      }
    }
  }

  /** The aggregation loop: each entry's value is added to its month. */
  method AggregateMonthly(history: seq<ResultEntry>) returns (totals: map<string, real>)
    ensures totals == MonthlyTotals(history)
  {
    totals := map[];
    for i := 0 to |history|
      invariant totals == MonthlyTotals(history[..i])
    {
      var month := MonthKey(history[i].date);
      var value := history[i].value;
      StepAggregate(history, i);
      totals := totals[month := Get(totals, month) + value];
    }
    assert history[..|history|] == history;
  }

  lemma StepAggregate(h: seq<ResultEntry>, i: nat)
    requires i < |h|
    ensures MonthlyTotals(h[..i + 1])
         == MonthlyTotals(h[..i])[MonthKey(h[i].date) := Get(MonthlyTotals(h[..i]), MonthKey(h[i].date)) + h[i].value]
  {
    assert h[..i + 1] == h[..i] + [h[i]];
    MonthlyTotalsSnoc(h[..i], h[i]);
  }

  lemma {:induction false} SumMonthAppend(a: seq<ResultEntry>, b: seq<ResultEntry>, month: string)
    ensures SumMonth(a + b, month) == SumMonth(a, month) + SumMonth(b, month)
    decreases |b|
  {
    if b == [] {
      assert a + b == a;
    } else {
      var b' := b[..|b| - 1];
      assert (a + b)[..|a + b| - 1] == a + b';
      SumMonthAppend(a, b', month);
    }
  }

  /** Aggregation is additive: the aggregate of two histories put together
      has the months of both, each holding the sum of both parts; nothing is
      overwritten. */
  lemma MonthlyTotalsAppend(a: seq<ResultEntry>, b: seq<ResultEntry>)
    ensures MonthlyTotals(a + b).Keys == MonthlyTotals(a).Keys + MonthlyTotals(b).Keys
    ensures forall month :: month in MonthlyTotals(a + b) ==>
      MonthlyTotals(a + b)[month] == Get(MonthlyTotals(a), month) + Get(MonthlyTotals(b), month)
  {
    assert MonthsOf(a + b) == MonthsOf(a) + MonthsOf(b) by {
      forall x | x in a + b ensures x in a || x in b { }
      forall x | x in a ensures x in a + b { }
      forall x | x in b ensures x in a + b { }
    }
    forall month | month in MonthsOf(a + b)
      ensures SumMonth(a + b, month) == Get(MonthlyTotals(a), month) + Get(MonthlyTotals(b), month)
    {
      SumMonthAppend(a, b, month);
      if month !in MonthsOf(a) { SumMonthOutside(a, month); }
      if month !in MonthsOf(b) { SumMonthOutside(b, month); }
    }
  }

  lemma {:induction false} SumMonthPermutation(a: seq<ResultEntry>, b: seq<ResultEntry>, month: string)
    requires multiset(a) == multiset(b)
    ensures SumMonth(a, month) == SumMonth(b, month)
    decreases |a|
  {
    if a == [] {
      assert b == [];
    } else {
      var x := a[|a| - 1];
      var a' := a[..|a| - 1];
      assert a == a' + [x];
      assert x in multiset(b);
      var j :| 0 <= j < |b| && b[j] == x;
      var b' := b[..j] + b[j + 1..];
      assert b == b[..j] + [x] + b[j + 1..];
      assert multiset(b') == multiset(b) - multiset{x};
      assert multiset(a') == multiset(a) - multiset{x};
      SumMonthPermutation(a', b', month);
      SumMonthAppend(b[..j] + [x], b[j + 1..], month);
      SumMonthAppend(b[..j], [x], month);
      SumMonthAppend(b[..j], b[j + 1..], month);
      SumMonthAppend(a', [x], month);
      assert [x][..0] == [];
    }
  }

  /** The order of the entries does not matter: any reordering of a history
      has the same monthly aggregate. */
  lemma MonthlyTotalsPermutation(a: seq<ResultEntry>, b: seq<ResultEntry>)
    requires multiset(a) == multiset(b)
    ensures MonthlyTotals(a) == MonthlyTotals(b)
  {
    assert MonthsOf(a) == MonthsOf(b) by {
      forall x | x in a ensures x in b { assert x in multiset(a); }
      forall x | x in b ensures x in a { assert x in multiset(b); }
    }
    forall month | month in MonthsOf(a) ensures SumMonth(a, month) == SumMonth(b, month) {
      SumMonthPermutation(a, b, month);
    }
  }

  lemma {:induction false} SumMonthNonNegative(h: seq<ResultEntry>, month: string)
    requires forall i :: 0 <= i < |h| ==> h[i].value >= 0.0
    ensures SumMonth(h, month) >= 0.0
    decreases |h|
  {
    if h != [] {
      SumMonthNonNegative(h[..|h| - 1], month);
    }
  }

  /** Every entry reaches its month: the month is a key of the aggregate,
      and with non-negative values the month's total is at least the entry's
      value. */
  lemma EntryContributes(h: seq<ResultEntry>, j: nat)
    requires j < |h|
    requires forall i :: 0 <= i < |h| ==> h[i].value >= 0.0
    ensures MonthKey(h[j].date) in MonthlyTotals(h)
    ensures MonthlyTotals(h)[MonthKey(h[j].date)] >= h[j].value
  {
    var month := MonthKey(h[j].date);
    assert h[j] in h;
    var pre, post := h[..j], h[j + 1..];
    assert h == pre + [h[j]] + post;
    SumMonthAppend(pre + [h[j]], post, month);
    SumMonthAppend(pre, [h[j]], month);
    assert [h[j]][..0] == [];
    SumMonthNonNegative(pre, month);
    SumMonthNonNegative(post, month);
  }

  /** Two results in the same month are added, never overwritten. */
  lemma SameMonthExample()
    ensures MonthlyTotals([ResultEntry("2024-01-05", 10.0), ResultEntry("2024-01-20", 15.0)])
         == map["2024-01" := 25.0]
  {
    var e0, e1 := ResultEntry("2024-01-05", 10.0), ResultEntry("2024-01-20", 15.0);
    assert MonthKey(e0.date) == "2024-01" && MonthKey(e1.date) == "2024-01";
    MonthlyTotalsEmpty([]);
    MonthlyTotalsSnoc([], e0);
    assert [] + [e0] == [e0];
    MonthlyTotalsSnoc([e0], e1);
    assert [e0] + [e1] == [e0, e1];
  }
}
