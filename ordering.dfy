/** The order of the report tables: rows are sorted by month and then by
    employee name. Month keys are compared as strings; for well-formed
    "YYYY-MM" keys this is the calendar order the dashboard gets by reading
    each key as the first day of its month. */
module Ordering {

  /** Lexicographic order on strings, by character code. */
  predicate StrLe(a: string, b: string)
    decreases |a|
  {
    a == [] || (b != [] && (a[0] < b[0] || (a[0] == b[0] && StrLe(a[1..], b[1..]))))
  }

  predicate StrLt(a: string, b: string) {
    StrLe(a, b) && a != b
  }

  lemma {:induction false} StrLeReflexive(a: string)
    ensures StrLe(a, a)
    decreases |a|
  {
    if a != [] {
      StrLeReflexive(a[1..]);
    }
  }

  lemma {:induction false} StrLeTotal(a: string, b: string)
    ensures StrLe(a, b) || StrLe(b, a)
    decreases |a|
  {
    if a != [] && b != [] && a[0] == b[0] {
      StrLeTotal(a[1..], b[1..]);
    }
  }

  lemma {:induction false} StrLeAntisymmetric(a: string, b: string)
    requires StrLe(a, b) && StrLe(b, a)
    ensures a == b
    decreases |a|
  {
    if a != [] {
      StrLeAntisymmetric(a[1..], b[1..]);
      assert a == [a[0]] + a[1..] && b == [b[0]] + b[1..];
    }
  }

  lemma {:induction false} StrLeTransitive(a: string, b: string, c: string)
    requires StrLe(a, b) && StrLe(b, c)
    ensures StrLe(a, c)
    decreases |a|
  {
    if a != [] && a[0] == b[0] && b[0] == c[0] {
      StrLeTransitive(a[1..], b[1..], c[1..]);
    }
  }

  /** Comparing two strings that start with prefixes of equal length: the
      prefixes decide unless they are equal. */
  lemma {:induction false} StrLeConcat(p: string, q: string, p': string, q': string)
    requires |p| == |p'|
    ensures StrLe(p + q, p' + q') <==> StrLt(p, p') || (p == p' && StrLe(q, q'))
    decreases |p|
  {
    if p == [] {
      assert p + q == q && p' + q' == q';
    } else {
      assert (p + q)[0] == p[0] && (p' + q')[0] == p'[0];
      assert (p + q)[1..] == p[1..] + q && (p' + q')[1..] == p'[1..] + q';
      StrLeConcat(p[1..], q, p'[1..], q');
      if p[0] == p'[0] && p[1..] == p'[1..] {
        assert p == p' by { assert p == [p[0]] + p[1..] && p' == [p'[0]] + p'[1..]; }
      }
    }
  }

  // ---------------------------------------------------------------------
  // Month keys read as dates
  // ---------------------------------------------------------------------

  predicate IsDigit(c: char) {
    '0' <= c <= '9'
  }

  predicate AllDigits(s: string) {
    forall i :: 0 <= i < |s| ==> IsDigit(s[i])
  }

  function Pow10(n: nat): nat {
    if n == 0 then 1 else 10 * Pow10(n - 1)
  }

  /** The number a string of decimal digits spells. */
  function DigitsValue(s: string): nat
    requires AllDigits(s)
    decreases |s|
  {
    if s == [] then 0
    else (s[0] as int - '0' as int) * Pow10(|s| - 1) + DigitsValue(s[1..])
  }

  lemma {:induction false} DigitsValueBound(s: string)
    requires AllDigits(s)
    ensures DigitsValue(s) < Pow10(|s|)
    decreases |s|
  {
    if s != [] {
      DigitsValueBound(s[1..]);
      var d := s[0] as int - '0' as int;
      var p := Pow10(|s| - 1);
      assert d <= 9;
      assert d * p <= 9 * p;
    }
  }

  lemma PositionalLess(dx: int, dy: int, p: int, vx: int, vy: int)
    requires 0 <= dx < dy && 0 <= vx < p && 0 <= vy
    ensures dx * p + vx < dy * p + vy
  {
    assert (dy - dx - 1) * p >= 0;
  }

  /** A larger leading digit makes a larger number. */
  lemma LeadingDigitDecides(x: string, y: string)
    requires AllDigits(x) && AllDigits(y) && |x| == |y| > 0
    requires x[0] < y[0]
    ensures DigitsValue(x) < DigitsValue(y)
  {
    DigitsValueBound(x[1..]);
    PositionalLess(x[0] as int - '0' as int, y[0] as int - '0' as int, Pow10(|x| - 1),
                   DigitsValue(x[1..]), DigitsValue(y[1..]));
  }

  /** For digit strings of one length, the string order is the numeric order. */
  lemma {:induction false} DigitOrder(x: string, y: string)
    requires AllDigits(x) && AllDigits(y) && |x| == |y|
    ensures StrLt(x, y) <==> DigitsValue(x) < DigitsValue(y)
    ensures x == y <==> DigitsValue(x) == DigitsValue(y)
    decreases |x|
  {
    if x != [] {
      if x[0] < y[0] {
        LeadingDigitDecides(x, y);
      } else if y[0] < x[0] {
        LeadingDigitDecides(y, x);
        LargerHeadNotBelow(x, y);
      } else {
        DigitOrder(x[1..], y[1..]);
        assert x == [x[0]] + x[1..] && y == [y[0]] + y[1..];
      }
    }
  }

  /** A string that starts with a larger character is not below. */
  lemma LargerHeadNotBelow(x: string, y: string)
    requires x != [] && y != [] && y[0] < x[0]
    ensures !StrLe(x, y)
  {
  }

  /** A well-formed month key: "YYYY-MM" with digits. */
  predicate IsMonthKey(m: string) {
    |m| == 7 && AllDigits(m[..4]) && m[4] == '-' && AllDigits(m[5..])
  }

  function Year(m: string): nat
    requires IsMonthKey(m)
  {
    DigitsValue(m[..4])
  }

  function MonthNumber(m: string): nat
    requires IsMonthKey(m)
  {
    DigitsValue(m[5..])
  }

  /** The order of the dates the month keys stand for. */
  predicate CalendarLe(a: string, b: string)
    requires IsMonthKey(a) && IsMonthKey(b)
  {
    Year(a) < Year(b) || (Year(a) == Year(b) && MonthNumber(a) <= MonthNumber(b))
  }

  /** Comparing well-formed month keys as strings compares their dates. */
  lemma MonthKeyOrderIsCalendarOrder(a: string, b: string)
    requires IsMonthKey(a) && IsMonthKey(b)
    ensures StrLe(a, b) <==> CalendarLe(a, b)
  {
    assert a == a[..4] + ([a[4]] + a[5..]);
    assert b == b[..4] + ([b[4]] + b[5..]);
    StrLeConcat(a[..4], [a[4]] + a[5..], b[..4], [b[4]] + b[5..]);
    assert ([a[4]] + a[5..])[1..] == a[5..] && ([b[4]] + b[5..])[1..] == b[5..];
    DigitOrder(a[..4], b[..4]);
    DigitOrder(a[5..], b[5..]);
    if a[5..] == b[5..] {
      StrLeReflexive(a[5..]);
    }
  }

  // ---------------------------------------------------------------------
  // Row keys and sorting
  // ---------------------------------------------------------------------

  /** The key a report row is sorted by. */
  datatype RowKey = RowKey(month: string, employee: string)

  predicate KeyLe(x: RowKey, y: RowKey) {
    StrLt(x.month, y.month) || (x.month == y.month && StrLe(x.employee, y.employee))
  }

  lemma KeyLeTotal(x: RowKey, y: RowKey)
    ensures KeyLe(x, y) || KeyLe(y, x)
  {
    StrLeTotal(x.month, y.month);
    StrLeTotal(x.employee, y.employee);
  }

  lemma KeyLeTransitive(x: RowKey, y: RowKey, z: RowKey)
    requires KeyLe(x, y) && KeyLe(y, z)
    ensures KeyLe(x, z)
  {
    if x.month != y.month && y.month != z.month {
      StrLeTransitive(x.month, y.month, z.month);
      if x.month == z.month {
        StrLeAntisymmetric(x.month, y.month);
      }
    } else if x.month == y.month && y.month == z.month {
      StrLeTransitive(x.employee, y.employee, z.employee);
    }
  }

  lemma KeyLeAntisymmetric(x: RowKey, y: RowKey)
    requires KeyLe(x, y) && KeyLe(y, x)
    ensures x == y
  {
    if x.month != y.month {
      StrLeAntisymmetric(x.month, y.month);
    } else {
      StrLeAntisymmetric(x.employee, y.employee);
    }
  }

  predicate SortedBy<T>(s: seq<T>, key: T -> RowKey) {
    forall i, j :: 0 <= i < j < |s| ==> KeyLe(key(s[i]), key(s[j]))
  }

  /** Inserts `t` before the first element it does not come after. */
  function InsertBy<T>(t: T, s: seq<T>, key: T -> RowKey): (r: seq<T>)
    ensures multiset(r) == multiset(s) + multiset{t}
  {
    if s == [] || KeyLe(key(t), key(s[0])) then [t] + s
    else
      assert s == [s[0]] + s[1..];
      [s[0]] + InsertBy(t, s[1..], key)
  }

  /** A row that comes before the first of a sorted table can go in front. */
  lemma ConsSorted<T>(t: T, s: seq<T>, key: T -> RowKey)
    requires SortedBy(s, key)
    requires forall x :: x in s ==> KeyLe(key(t), key(x))
    ensures SortedBy([t] + s, key)
  {
    var r := [t] + s;
    forall i, j | 0 <= i < j < |r| ensures KeyLe(key(r[i]), key(r[j])) {
      assert r[j] == s[j - 1];
      if i > 0 {
        assert r[i] == s[i - 1];
      } else {
        assert s[j - 1] in s;
      }
    }
  }

  lemma {:induction false} InsertBySorted<T>(t: T, s: seq<T>, key: T -> RowKey)
    requires SortedBy(s, key)
    ensures SortedBy(InsertBy(t, s, key), key)
    decreases |s|
  {
    if s == [] {
    } else if KeyLe(key(t), key(s[0])) {
      forall x | x in s ensures KeyLe(key(t), key(x)) {
        var k :| 0 <= k < |s| && s[k] == x;
        if k > 0 {
          KeyLeTransitive(key(t), key(s[0]), key(x));
        }
      }
      ConsSorted(t, s, key);
    } else {
      KeyLeTotal(key(t), key(s[0]));
      var rest := InsertBy(t, s[1..], key);
      InsertBySorted(t, s[1..], key);
      forall x | x in rest ensures KeyLe(key(s[0]), key(x)) {
        assert x in multiset(rest);
        if x != t {
          assert x in s[1..];
          var k :| 0 <= k < |s[1..]| && s[1..][k] == x;
          assert s[k + 1] == x;
        }
      }
      ConsSorted(s[0], rest, key);
    }
  }

  /** The table sort: the rows reordered so that their keys ascend. */
  function SortBy<T>(s: seq<T>, key: T -> RowKey): (r: seq<T>)
    ensures multiset(r) == multiset(s)
    ensures SortedBy(r, key)
  {
    if s == [] then []
    else
      assert s == s[..|s| - 1] + [s[|s| - 1]];
      var sorted := SortBy(s[..|s| - 1], key);
      InsertBySorted(s[|s| - 1], sorted, key);
      InsertBy(s[|s| - 1], sorted, key)
  }

  predicate DistinctKeys<T>(s: seq<T>, key: T -> RowKey) {
    forall i, j :: 0 <= i < j < |s| ==> key(s[i]) != key(s[j])
  }

  lemma SortedHeadsAgree<T>(a: seq<T>, b: seq<T>, key: T -> RowKey)
    requires SortedBy(a, key) && SortedBy(b, key) && multiset(a) == multiset(b)
    requires DistinctKeys(a, key) && a != []
    ensures b != [] && a[0] == b[0]
  {
    assert b != [] by { assert |multiset(b)| == |a|; }
    assert a[0] in multiset(b);
    assert b[0] in multiset(a);
    var i :| 0 <= i < |b| && b[i] == a[0];
    var j :| 0 <= j < |a| && a[j] == b[0];
    if a[0] != b[0] {
      assert i > 0 && j > 0;
      assert KeyLe(key(b[0]), key(b[i]));
      assert KeyLe(key(a[0]), key(a[j]));
      KeyLeAntisymmetric(key(a[0]), key(b[0]));
      assert false;
    }
  }

  lemma SortedTail<T>(a: seq<T>, key: T -> RowKey)
    requires SortedBy(a, key) && a != []
    ensures SortedBy(a[1..], key)
  {
    forall i, j | 0 <= i < j < |a[1..]| ensures KeyLe(key(a[1..][i]), key(a[1..][j])) {
      assert a[1..][i] == a[i + 1] && a[1..][j] == a[j + 1];
    }
  }

  lemma DistinctTail<T>(a: seq<T>, key: T -> RowKey)
    requires DistinctKeys(a, key) && a != []
    ensures DistinctKeys(a[1..], key)
  {
    forall i, j | 0 <= i < j < |a[1..]| ensures key(a[1..][i]) != key(a[1..][j]) {
      assert a[1..][i] == a[i + 1] && a[1..][j] == a[j + 1];
    }
  }

  lemma TailMultiset<T>(a: seq<T>, b: seq<T>)
    requires a != [] && b != [] && a[0] == b[0] && multiset(a) == multiset(b)
    ensures multiset(a[1..]) == multiset(b[1..])
  {
    assert a == [a[0]] + a[1..] && b == [b[0]] + b[1..];
    assert multiset(a) == multiset([a[0]]) + multiset(a[1..]);
    assert multiset(b) == multiset([b[0]]) + multiset(b[1..]);
    forall x ensures multiset(a[1..])[x] == multiset(b[1..])[x] {
      assert multiset(a)[x] == multiset([a[0]])[x] + multiset(a[1..])[x];
      assert multiset(b)[x] == multiset([b[0]])[x] + multiset(b[1..])[x];
    }
  }

  /** The sorted table is determined by the rows alone: two orderings of the
      same rows whose keys are all distinct sort to the same table, so the
      ties a sort may break either way do not arise. */
  lemma {:induction false} SortedUnique<T>(a: seq<T>, b: seq<T>, key: T -> RowKey)
    requires SortedBy(a, key) && SortedBy(b, key) && multiset(a) == multiset(b)
    requires DistinctKeys(a, key)
    ensures a == b
    decreases |a|
  {
    if a == [] {
      assert |b| == |multiset(b)| == 0;
    } else {
      SortedHeadsAgree(a, b, key);
      SortedTail(a, key);
      SortedTail(b, key);
      DistinctTail(a, key);
      TailMultiset(a, b);
      SortedUnique(a[1..], b[1..], key);
      assert a == [a[0]] + a[1..] && b == [b[0]] + b[1..];
    }
  }
}
