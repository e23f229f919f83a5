/** The result history of one metric as the results page edits it: a new
    result is saved only when its date is not yet there, and deleting a
    date removes every result recorded on it. */
module History {
  import opened IncentiveModel
  import opened Aggregation

  predicate HasDate(h: seq<ResultEntry>, date: string) {
    exists i :: 0 <= i < |h| && h[i].date == date
  }

  /** The list of recorded dates the save guard looks in, in history order. */
  function DatesOf(h: seq<ResultEntry>): (dates: seq<string>)
    ensures |dates| == |h|
    ensures forall i :: 0 <= i < |h| ==> dates[i] == h[i].date
    ensures forall date :: date in dates <==> HasDate(h, date)
  {
    seq(|h|, i requires 0 <= i < |h| => h[i].date)
  }

  /** The history without the results of `date`, the rest in their order. */
  function WithoutDate(h: seq<ResultEntry>, date: string): (r: seq<ResultEntry>)
    ensures forall e :: e in r <==> e in h && e.date != date
    ensures !HasDate(r, date)
    ensures |r| <= |h|
    decreases |h|
  {
    if h == [] then []
    else
      var last := h[|h| - 1];
      assert h == h[..|h| - 1] + [last];
      WithoutDate(h[..|h| - 1], date) + (if last.date != date then [last] else [])
  }

  /** Deleting keeps the order: it works on each part of a history alone. */
  lemma {:induction false} WithoutDateAppend(a: seq<ResultEntry>, b: seq<ResultEntry>, date: string)
    ensures WithoutDate(a + b, date) == WithoutDate(a, date) + WithoutDate(b, date)
    decreases |b|
  {
    if b == [] {
      assert a + b == a;
    } else {
      var b' := b[..|b| - 1];
      assert (a + b)[..|a + b| - 1] == a + b';
      assert (a + b)[|a + b| - 1] == b[|b| - 1];
      WithoutDateAppend(a, b', date);
    }
  }

  /** Deleting a date that has no result changes nothing. */
  lemma {:induction false} WithoutAbsentDate(h: seq<ResultEntry>, date: string)
    requires !HasDate(h, date)
    ensures WithoutDate(h, date) == h
    decreases |h|
  {
    if h != [] {
      var p := h[..|h| - 1];
      WithoutAbsentDate(p, date);
      assert h == p + [h[|h| - 1]];
    }
  }

  /** Saving a result and then deleting its date gives back the history as it was. */
  lemma SaveThenDelete(h: seq<ResultEntry>, date: string, value: real)
    requires !HasDate(h, date)
    ensures WithoutDate(h + [ResultEntry(date, value)], date) == h
  {
    WithoutDateAppend(h, [ResultEntry(date, value)], date);
    WithoutAbsentDate(h, date);
    assert [ResultEntry(date, value)][..0] == [];
  }

  /** No date appears twice. */
  predicate DistinctDates(h: seq<ResultEntry>) {
    forall i, j :: 0 <= i < j < |h| ==> h[i].date != h[j].date
  }

  /** The save guard keeps dates distinct. */
  lemma SaveKeepsDatesDistinct(h: seq<ResultEntry>, date: string, value: real)
    requires DistinctDates(h) && !HasDate(h, date)
    ensures DistinctDates(h + [ResultEntry(date, value)])
  {
    var h' := h + [ResultEntry(date, value)];
    forall i, j | 0 <= i < j < |h'| ensures h'[i].date != h'[j].date {
      if j == |h| {
        assert h'[i] == h[i];
      } else {
        assert h'[i] == h[i] && h'[j] == h[j];
      }
    }
  }

  /** Deleting a date leaves the totals of every other month as they were. */
  lemma {:induction false} DeleteKeepsOtherMonths(h: seq<ResultEntry>, date: string, month: string)
    requires MonthKey(date) != month
    ensures SumMonth(WithoutDate(h, date), month) == SumMonth(h, month)
    decreases |h|
  {
    if h != [] {
      var p, last := h[..|h| - 1], h[|h| - 1];
      DeleteKeepsOtherMonths(p, date, month);
      var tail := if last.date != date then [last] else [];
      SumMonthAppend(WithoutDate(p, date), tail, month);
      if last.date != date {
        assert tail[..0] == [];
      }
    }
  }

  /** The stored history of one metric, edited in place by the results page. */
  class ResultHistory {
    var entries: seq<ResultEntry>

    constructor (initial: seq<ResultEntry>)
      ensures entries == initial
    {
      entries := initial;
    }

    /** The save button: the result is appended unless its date is already
        recorded, in which case nothing changes. */
    method Save(date: string, value: real) returns (saved: bool)
      modifies this
      ensures saved <==> !HasDate(old(entries), date)
      ensures saved ==> entries == old(entries) + [ResultEntry(date, value)]
      ensures !saved ==> entries == old(entries)
    {
      var dates := DatesOf(entries);
      if date in dates {
        saved := false;
      } else {
        entries := entries + [ResultEntry(date, value)];
        saved := true;
      }
    }

    /** The delete button: every result of the selected date is dropped. */
    method Delete(date: string)
      modifies this
      ensures entries == WithoutDate(old(entries), date)
    {
      entries := WithoutDate(entries, date);
    }
  }
}
