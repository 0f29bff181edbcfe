/**
  Properties of the recurring-bill detector: the stable sort, the gaps, the
  band test of one group, and the shape of the whole result.
 */
module RecurringProofs {
  import opened Wrappers
  import opened Strings
  import opened Calendar
  import opened IsoDate
  import opened Recurring

  // ---------------------------------------------------------------------
  // The stable sort

  lemma {:induction false} InsertMultiset(p: seq<Transaction>, x: Transaction)
    ensures multiset(Insert(p, x)) == multiset(p) + multiset{x}
    decreases |p|
  {
    if p != [] && !DateLeq(p[|p| - 1], x) {
      InsertMultiset(p[..|p| - 1], x);
      assert p == p[..|p| - 1] + [p[|p| - 1]];
    }
  }

  /** Sorting only reorders: the result is a permutation of the group. */
  lemma {:induction false} SortPermutes(s: seq<Transaction>)
    ensures multiset(StableSortByDate(s)) == multiset(s)
    decreases |s|
  {
    if s != [] {
      SortPermutes(s[..|s| - 1]);
      InsertMultiset(StableSortByDate(s[..|s| - 1]), s[|s| - 1]);
      assert s == s[..|s| - 1] + [s[|s| - 1]];
    }
  }

  lemma {:induction false} InsertAscending(p: seq<Transaction>, x: Transaction)
    requires Ascending(p)
    ensures Ascending(Insert(p, x))
    decreases |p|
  {
    if p == [] {
    } else if DateLeq(p[|p| - 1], x) {
      var r := p + [x];
      forall i, j | 0 <= i < j < |r|
        ensures DateLeq(r[i], r[j])
      {
        if j == |p| && i < |p| - 1 {
          assert DateLeq(p[i], p[|p| - 1]);
          CompareTransitive(p[i].date, p[|p| - 1].date, x.date);
        }
      }
    } else {
      var q := p[..|p| - 1];
      var top := p[|p| - 1];
      InsertAscending(q, x);
      InsertMultiset(q, x);
      var r := Insert(q, x);
      CompareAntisymmetric(top.date, x.date);
      forall y | y in r
        ensures DateLeq(y, top)
      {
        assert y in multiset(r);
        if y != x {
          assert y in multiset(q);
          var i :| 0 <= i < |q| && q[i] == y;
          assert p[i] == y;
        }
      }
      forall i, j | 0 <= i < j < |r| + 1
        ensures DateLeq((r + [top])[i], (r + [top])[j])
      {
        if j == |r| {
          assert r[i] in r;
        }
      }
    }
  }

  /** The sort's result is in ascending date order. */
  lemma {:induction false} SortAscending(s: seq<Transaction>)
    ensures Ascending(StableSortByDate(s))
    decreases |s|
  {
    if s != [] {
      SortAscending(s[..|s| - 1]);
      InsertAscending(StableSortByDate(s[..|s| - 1]), s[|s| - 1]);
    }
  }

  /** The transactions of s dated exactly d, in order. */
  function WithDate(s: seq<Transaction>, d: string): (r: seq<Transaction>)
    ensures |r| <= |s|
  {
    if s == [] then []
    else WithDate(s[..|s| - 1], d) + (if s[|s| - 1].date == d then [s[|s| - 1]] else [])
  }

  lemma {:induction false} WithDateConcat(a: seq<Transaction>, b: seq<Transaction>, d: string)
    ensures WithDate(a + b, d) == WithDate(a, d) + WithDate(b, d)
    decreases |b|
  {
    if b == [] {
      assert a + b == a;
    } else {
      var b' := b[..|b| - 1];
      assert (a + b)[..|a + b| - 1] == a + b';
      WithDateConcat(a, b', d);
    }
  }

  lemma {:induction false} InsertWithDate(p: seq<Transaction>, x: Transaction, d: string)
    ensures WithDate(Insert(p, x), d) == WithDate(p, d) + (if x.date == d then [x] else [])
    decreases |p|
  {
    if p == [] {
      WithDateSnoc([], x, d);
    } else if DateLeq(p[|p| - 1], x) {
      WithDateSnoc(p, x, d);
    } else {
      var q := p[..|p| - 1];
      var top := p[|p| - 1];
      InsertWithDate(q, x, d);
      WithDateSnoc(Insert(q, x), top, d);
      WithDateSnoc(q, top, d);
      assert p == q + [top];
      assert top.date != x.date;
    }
  }

  lemma WithDateSnoc(a: seq<Transaction>, y: Transaction, d: string)
    ensures WithDate(a + [y], d) == WithDate(a, d) + (if y.date == d then [y] else [])
  {
    assert (a + [y])[..|a|] == a;
  }

  /** Stability: among transactions of equal date the sort keeps input order. */
  lemma {:induction false} SortStable(s: seq<Transaction>, d: string)
    ensures WithDate(StableSortByDate(s), d) == WithDate(s, d)
    decreases |s|
  {
    if s != [] {
      SortStable(s[..|s| - 1], d);
      InsertWithDate(StableSortByDate(s[..|s| - 1]), s[|s| - 1], d);
    }
  }

  /** The last element of the sorted group, whose amount the subscription
      takes, is a latest-dated transaction, and among those with that date
      the one that came last in the input. */
  lemma {:induction false} SortLast(s: seq<Transaction>)
    requires |s| > 0
    ensures var r := StableSortByDate(s)[|s| - 1];
      && (forall k :: 0 <= k < |s| ==> DateLeq(s[k], r))
      && (exists j :: 0 <= j < |s| && s[j] == r && forall k :: j < k < |s| ==> !DateLeq(r, s[k]))
    decreases |s|
  {
    var q := s[..|s| - 1];
    var x := s[|s| - 1];
    var r := StableSortByDate(s)[|s| - 1];
    if q == [] {
      assert r == x;
      assert s[0] == r;
    } else {
      SortLast(q);
      var p := StableSortByDate(q);
      var top := p[|p| - 1];
      var j' :| 0 <= j' < |q| && q[j'] == top && forall k :: j' < k < |q| ==> !DateLeq(top, q[k]);
      CompareAntisymmetric(top.date, x.date);
      if DateLeq(top, x) {
        assert r == x;
        forall k | 0 <= k < |s|
          ensures DateLeq(s[k], r)
        {
          if k < |q| {
            assert s[k] == q[k];
            CompareTransitive(q[k].date, top.date, x.date);
          }
        }
        assert s[|s| - 1] == r;
      } else {
        assert r == top;
        forall k | 0 <= k < |s|
          ensures DateLeq(s[k], r)
        {
          if k < |q| {
            assert s[k] == q[k];
          }
        }
        assert s[j'] == r;
        forall k | j' < k < |s|
          ensures !DateLeq(r, s[k])
        {
          if k < |q| {
            assert s[k] == q[k];
          }
        }
      }
    }
  }

  // ---------------------------------------------------------------------
  // Gaps

  ghost function DayOf(t: Transaction): int
    requires Parse(t.date).Some?
  {
    DayNumber(Parse(t.date).value)
  }

  predicate AllParse(s: seq<Transaction>) {
    forall i :: 0 <= i < |s| ==> Parse(s[i].date).Some?
  }

  lemma AllParsePrefix(s: seq<Transaction>)
    requires |s| > 0 && AllParse(s)
    ensures AllParse(s[..|s| - 1])
  {
    var q := s[..|s| - 1];
    forall k | 0 <= k < |q|
      ensures Parse(q[k].date).Some?
    {
      assert q[k] == s[k];
    }
  }

  /** The day numbers of a sequence of transactions with valid dates. */
  ghost function Days(s: seq<Transaction>): (ds: seq<int>)
    requires AllParse(s)
    ensures |ds| == |s|
  {
    if s == [] then []
    else
      AllParsePrefix(s);
      Days(s[..|s| - 1]) + [DayOf(s[|s| - 1])]
  }

  lemma {:induction false} DaysAt(s: seq<Transaction>, i: nat)
    requires AllParse(s) && i < |s|
    ensures Parse(s[i].date).Some? && Days(s)[i] == DayOf(s[i])
    decreases |s|
  {
    if i < |s| - 1 {
      var q := s[..|s| - 1];
      AllParsePrefix(s);
      DaysAt(q, i);
      assert q[i] == s[i];
    }
  }

  /** The total of gaps that step from ds[k] to ds[k + 1] is the distance
      from the first day to the last. */
  lemma {:induction false} TotalOfSteps(g: seq<Option<nat>>, ds: seq<int>)
    requires |ds| > 0 && |g| == |ds| - 1
    requires forall k {:trigger g[k]} :: 0 <= k < |g| ==> g[k].Some? && g[k].value == ds[k + 1] - ds[k]
    ensures Total(g).Some? && Total(g).value == ds[|ds| - 1] - ds[0]
    decreases |g|
  {
    if g != [] {
      TotalOfSteps(g[..|g| - 1], ds[..|ds| - 1]);
    }
  }

  /** Along a date-ascending group of valid dates, day numbers never decrease. */
  lemma AscendingDays(s: seq<Transaction>, i: nat, j: nat)
    requires Ascending(s) && AllParse(s)
    requires i <= j < |s|
    ensures Days(s)[i] <= Days(s)[j]
  {
    DaysAt(s, i);
    DaysAt(s, j);
    if i < j {
      assert DateLeq(s[i], s[j]);
      ChronologicalOrder(s[i].date, s[j].date);
      CompareAntisymmetric(s[i].date, s[j].date);
    }
  }

  /** Between two valid dates in order, the gap is the later day number
      minus the earlier. */
  lemma GapIsStep(a: string, b: string)
    requires Parse(a).Some? && Parse(b).Some? && Compare(a, b) <= 0
    ensures DaysBetween(a, b).Some? && DaysBetween(a, b).value == DayNumber(Parse(b).value) - DayNumber(Parse(a).value)
  {
  }

  /** In a date-ascending group of valid dates each gap is a whole number of
      days: the later day number minus the earlier. */
  lemma GapStep(s: seq<Transaction>, k: nat)
    requires k + 1 < |s| && Parse(s[k].date).Some? && Parse(s[k + 1].date).Some? && DateLeq(s[k], s[k + 1])
    ensures Gaps(s)[k].Some? && Gaps(s)[k].value == DayOf(s[k + 1]) - DayOf(s[k])
  {
    GapsAt(s, k);
    GapIsStep(s[k].date, s[k + 1].date);
  }

  /** Consecutive transactions are in date order. */
  predicate Chained(s: seq<Transaction>) {
    forall k {:trigger DateLeq(s[k], s[k + 1])} :: 0 <= k < |s| - 1 ==> DateLeq(s[k], s[k + 1])
  }

  lemma AscendingChained(s: seq<Transaction>)
    requires Ascending(s)
    ensures Chained(s)
  {
  }

  /** Every gap of a chained group of valid dates steps between the day
      numbers of its two ends. */
  lemma GapsSteps(s: seq<Transaction>)
    requires Chained(s) && AllParse(s)
    ensures forall k {:trigger Gaps(s)[k]} :: 0 <= k < |s| - 1 ==> Gaps(s)[k].Some? && Gaps(s)[k].value == Days(s)[k + 1] - Days(s)[k]
  {
    forall k | 0 <= k < |s| - 1
      ensures Gaps(s)[k].Some? && Gaps(s)[k].value == Days(s)[k + 1] - Days(s)[k]
    {
      GapStepDays(s, k);
    }
  }

  lemma GapStepDays(s: seq<Transaction>, k: nat)
    requires Chained(s) && AllParse(s) && k + 1 < |s|
    ensures Gaps(s)[k].Some? && Gaps(s)[k].value == Days(s)[k + 1] - Days(s)[k]
  {
    DaysAt(s, k);
    DaysAt(s, k + 1);
    assert DateLeq(s[k], s[k + 1]);
    GapStep(s, k);
  }

  /** The gaps of a date-ascending group of valid dates add up to the days
      from its first date to its last. */
  lemma GapsTelescope(s: seq<Transaction>)
    requires |s| > 0 && Chained(s) && AllParse(s)
    ensures Total(Gaps(s)).Some? && Total(Gaps(s)).value == Days(s)[|s| - 1] - Days(s)[0]
  {
    GapsSteps(s);
    TotalOfSteps(Gaps(s), Days(s));
  }

  function MinOf(ds: seq<int>): (m: int)
    requires |ds| > 0
    ensures forall i :: 0 <= i < |ds| ==> m <= ds[i]
    ensures m in ds
  {
    if |ds| == 1 then ds[0]
    else
      var m := MinOf(ds[..|ds| - 1]);
      if ds[|ds| - 1] < m then ds[|ds| - 1] else m
  }

  function MaxOf(ds: seq<int>): (m: int)
    requires |ds| > 0
    ensures forall i :: 0 <= i < |ds| ==> ds[i] <= m
    ensures m in ds
  {
    if |ds| == 1 then ds[0]
    else
      var m := MaxOf(ds[..|ds| - 1]);
      if m < ds[|ds| - 1] then ds[|ds| - 1] else m
  }

  /** The number of days from the earliest to the latest date of a group. */
  ghost function Span(group: seq<Transaction>): int
    requires |group| > 0 && AllParse(group)
  {
    MaxOf(Days(group)) - MinOf(Days(group))
  }

  /** Two sequences with the same elements have the same least and greatest. */
  lemma SameExtremes(a: seq<int>, b: seq<int>)
    requires |a| > 0 && |b| > 0
    requires forall x :: x in a ==> x in b
    requires forall x :: x in b ==> x in a
    ensures MinOf(a) == MinOf(b) && MaxOf(a) == MaxOf(b)
  {
    var ia :| 0 <= ia < |a| && a[ia] == MinOf(a);
    var ib :| 0 <= ib < |b| && b[ib] == MinOf(b);
    var ja :| 0 <= ja < |a| && a[ja] == MaxOf(a);
    var jb :| 0 <= jb < |b| && b[jb] == MaxOf(b);
    assert MinOf(b) in a && MinOf(a) in b;
    assert MaxOf(b) in a && MaxOf(a) in b;
  }

  /** Reordering transactions with valid dates keeps every date valid. */
  lemma PermutedParse(a: seq<Transaction>, b: seq<Transaction>)
    requires multiset(a) == multiset(b) && AllParse(a)
    ensures AllParse(b)
  {
    forall i | 0 <= i < |b|
      ensures Parse(b[i].date).Some?
    {
      assert b[i] in multiset(a);
      var k :| 0 <= k < |a| && a[k] == b[i];
    }
  }

  /** Reordering transactions reorders their day numbers. */
  lemma PermutedDays(a: seq<Transaction>, b: seq<Transaction>)
    requires multiset(a) == multiset(b) && AllParse(a) && AllParse(b)
    ensures forall x :: x in Days(a) ==> x in Days(b)
  {
    forall x | x in Days(a)
      ensures x in Days(b)
    {
      var i :| 0 <= i < |a| && Days(a)[i] == x;
      assert a[i] in multiset(b);
      var k :| 0 <= k < |b| && b[k] == a[i];
      DaysAt(a, i);
      DaysAt(b, k);
    }
  }

  /** In a date-ascending group of valid dates the first day is the earliest
      and the last the latest. */
  lemma AscendingEnds(s: seq<Transaction>)
    requires |s| > 0 && Ascending(s) && AllParse(s)
    ensures MinOf(Days(s)) == Days(s)[0] && MaxOf(Days(s)) == Days(s)[|s| - 1]
  {
    AscendingFirst(s);
    AscendingLast(s);
  }

  lemma AscendingFirst(s: seq<Transaction>)
    requires |s| > 0 && Ascending(s) && AllParse(s)
    ensures MinOf(Days(s)) == Days(s)[0]
  {
    var ds := Days(s);
    var i :| 0 <= i < |ds| && ds[i] == MinOf(ds);
    AscendingDays(s, 0, i);
  }

  lemma AscendingLast(s: seq<Transaction>)
    requires |s| > 0 && Ascending(s) && AllParse(s)
    ensures MaxOf(Days(s)) == Days(s)[|s| - 1]
  {
    var ds := Days(s);
    var j :| 0 <= j < |ds| && ds[j] == MaxOf(ds);
    AscendingDays(s, j, |s| - 1);
    MaxAt(ds, j, |ds| - 1);
  }

  /** An element no smaller than the maximum is the maximum. */
  lemma MaxAt(ds: seq<int>, j: nat, k: nat)
    requires j < |ds| && k < |ds| && ds[j] == MaxOf(ds) && ds[j] <= ds[k]
    ensures MaxOf(ds) == ds[k]
  {
  }

  /** Sorting a group of valid dates puts its earliest day first and its
      latest day last. */
  lemma SortedEnds(group: seq<Transaction>)
    requires |group| > 0 && AllParse(group)
    ensures AllParse(StableSortByDate(group))
    ensures Days(StableSortByDate(group))[0] == MinOf(Days(group))
    ensures Days(StableSortByDate(group))[|group| - 1] == MaxOf(Days(group))
  {
    var sorted := StableSortByDate(group);
    SortPermutes(group);
    SortAscending(group);
    PermutedParse(group, sorted);
    PermutedDays(group, sorted);
    PermutedDays(sorted, group);
    SameExtremes(Days(sorted), Days(group));
    AscendingEnds(sorted);
  }

  /** A group holding an invalid date never yields a subscription: its gaps
      are NaN. */
  lemma InvalidDateYieldsNothing(name: string, group: seq<Transaction>, t: Transaction)
    requires t in group && Parse(t.date).None?
    ensures Detected(name, group) == None
  {
    var sorted := StableSortByDate(group);
    SortPermutes(group);
    assert t in multiset(sorted);
    var i :| 0 <= i < |sorted| && sorted[i] == t;
    if |sorted| >= 2 {
      var k := if i == 0 then 0 else i - 1;
      GapsAt(sorted, k);
      NaNGapYieldsNothing(name, sorted, k);
    }
  }

  /** A NaN gap makes the gap sum NaN, and the group yields nothing. */
  lemma NaNGapYieldsNothing(name: string, sorted: seq<Transaction>, k: nat)
    requires k < |Gaps(sorted)| && Gaps(sorted)[k].None?
    ensures FromSorted(name, sorted) == None
  {
  }

  // ---------------------------------------------------------------------
  // One group

  /** The latest transaction of a group: the last one once sorted by date. */
  function LastByDate(group: seq<Transaction>): (t: Transaction)
    requires |group| > 0
    ensures AllParse(group) ==> Parse(t.date).Some?
  {
    var sorted := StableSortByDate(group);
    if AllParse(group) then
      SortedEnds(group);
      DaysAt(sorted, |group| - 1);
      sorted[|group| - 1]
    else sorted[|group| - 1]
  }

  /** The gaps of a sorted group of valid dates sum to its span. */
  lemma SortedTotal(group: seq<Transaction>)
    requires |group| > 0 && AllParse(group)
    ensures AllParse(StableSortByDate(group))
    ensures Total(Gaps(StableSortByDate(group))).Some?
    ensures Total(Gaps(StableSortByDate(group))).value == Span(group)
  {
    var sorted := StableSortByDate(group);
    SortedEnds(group);
    SortAscending(group);
    AscendingChained(sorted);
    GapsTelescope(sorted);
  }

  /** A sorted group whose gap sum has a cadence yields the subscription due
      one cadence after its last date. */
  lemma FromSortedCadence(name: string, sorted: seq<Transaction>, span: int, c: Cadence)
    requires |sorted| >= MinOccurrences && Parse(sorted[|sorted| - 1].date).Some?
    requires Total(Gaps(sorted)).Some? && Total(Gaps(sorted)).value == span
    requires Classify(span, |sorted| - 1) == Some(c)
    ensures FromSorted(name, sorted)
      == Some(Subscription(name, sorted[|sorted| - 1].amount, Due(sorted[|sorted| - 1].date, Offset(c)), true))
  {
  }

  /** A group of valid dates whose span has a cadence yields the
      subscription due one cadence after its latest date. */
  lemma DetectedCadence(name: string, group: seq<Transaction>, c: Cadence)
    requires |group| >= MinOccurrences && AllParse(group)
    requires Classify(Span(group), |group| - 1) == Some(c)
    ensures Detected(name, group)
      == Some(Subscription(name, LastByDate(group).amount, Due(LastByDate(group).date, Offset(c)), true))
  {
    SortedTotal(group);
    FromSortedCadence(name, StableSortByDate(group), Span(group), c);
  }

  /** A group of three or more valid dates whose average gap,
      Span / (n - 1), lies strictly inside the monthly band yields a
      monthly subscription: the amount of its latest transaction, due 30
      days after that transaction's date. */
  lemma DetectedMonthly(name: string, group: seq<Transaction>)
    requires |group| >= MinOccurrences && AllParse(group)
    requires MonthlyBand(Span(group) as real / (|group| - 1) as real)
    ensures Detected(name, group)
      == Some(Subscription(name, LastByDate(group).amount, Due(LastByDate(group).date, MonthlyOffset), true))
  {
    ClassifyBands(Span(group), |group| - 1);
    DetectedCadence(name, group, Monthly);
  }

  /** The same for the weekly band: due 7 days after the latest date. */
  lemma DetectedWeekly(name: string, group: seq<Transaction>)
    requires |group| >= MinOccurrences && AllParse(group)
    requires WeeklyBand(Span(group) as real / (|group| - 1) as real)
    ensures Detected(name, group)
      == Some(Subscription(name, LastByDate(group).amount, Due(LastByDate(group).date, WeeklyOffset), true))
  {
    ClassifyBands(Span(group), |group| - 1);
    DetectedCadence(name, group, Weekly);
  }

  /** A group of valid dates whose average gap is in neither band yields
      nothing. */
  lemma DetectedNeither(name: string, group: seq<Transaction>)
    requires |group| >= MinOccurrences && AllParse(group)
    requires !MonthlyBand(Span(group) as real / (|group| - 1) as real)
    requires !WeeklyBand(Span(group) as real / (|group| - 1) as real)
    ensures Detected(name, group) == None
  {
    SortedTotal(group);
    ClassifyBands(Span(group), |group| - 1);
  }

  /** Average gaps of exactly 6, 8, 26 or 35 days, or of 14 (a fortnightly
      pattern), yield nothing: the bands are open. */
  lemma BoundaryAveragesYieldNothing(name: string, group: seq<Transaction>, avg: int)
    requires |group| >= MinOccurrences && AllParse(group)
    requires avg == WeeklyLow || avg == WeeklyHigh || avg == 14 || avg == MonthlyLow || avg == MonthlyHigh
    requires Span(group) == avg * (|group| - 1)
    ensures Detected(name, group) == None
  {
    SortedTotal(group);
    BoundaryClassify(avg, |group| - 1);
  }

  /** The band ends and the fortnight fall in no band. */
  lemma BoundaryClassify(avg: int, count: nat)
    requires count > 0
    requires avg == WeeklyLow || avg == WeeklyHigh || avg == 14 || avg == MonthlyLow || avg == MonthlyHigh
    ensures Classify(avg * count, count) == None
  {
    if avg == WeeklyLow {
      assert avg * count == 6 * count;
    } else if avg == WeeklyHigh {
      assert avg * count == 8 * count;
    } else if avg == 14 {
      assert avg * count == 14 * count;
    } else if avg == MonthlyLow {
      assert avg * count == 26 * count;
    } else {
      assert avg * count == 35 * count;
    }
  }

  /** Fewer than three transactions never make a subscription, however
      regular their dates. */
  lemma SmallGroupYieldsNothing(name: string, group: seq<Transaction>)
    requires |group| < MinOccurrences
    ensures Detected(name, group) == None
  {
  }

  // ---------------------------------------------------------------------
  // The whole result

  /** A name's group holds every transaction of that name, as often as the
      input does, and nothing else. */
  lemma {:induction false} NamedComplete(ts: seq<Transaction>, n: string)
    ensures forall t :: multiset(Named(ts, n))[t] == if t.name == n then multiset(ts)[t] else 0
    decreases |ts|
  {
    if ts != [] {
      NamedComplete(ts[..|ts| - 1], n);
      assert ts == ts[..|ts| - 1] + [ts[|ts| - 1]];
    }
  }

  /** The subscriptions of subs named n. */
  function SubscriptionsNamed(subs: seq<Subscription>, n: string): (r: seq<Subscription>)
    ensures |r| <= |subs|
  {
    if subs == [] then []
    else SubscriptionsNamed(subs[..|subs| - 1], n) + (if subs[|subs| - 1].name == n then [subs[|subs| - 1]] else [])
  }

  /** In the output built from a list of distinct names, the entries named n
      are what n's group yields (nothing when n is not in the list). */
  lemma {:induction false} EmitNamed(ns: seq<string>, ts: seq<Transaction>, n: string)
    requires forall i, j :: 0 <= i < j < |ns| ==> ns[i] != ns[j]
    ensures SubscriptionsNamed(Emit(ns, ts), n) == if n in ns then Entry(n, ts) else []
    decreases |ns|
  {
    if ns != [] {
      var q := ns[..|ns| - 1];
      var m := ns[|ns| - 1];
      EmitNamed(q, ts, n);
      var e := Entry(m, ts);
      assert Emit(ns, ts) == Emit(q, ts) + e;
      SubscriptionsNamedConcat(Emit(q, ts), e, n);
      SingleNamed(e, m, n);
      assert n in ns <==> n in q || n == m;
      if n == m {
        assert n !in q;
      }
    }
  }

  /** A list of at most one entry, named m, is kept by SubscriptionsNamed
      for m only. */
  lemma SingleNamed(e: seq<Subscription>, m: string, n: string)
    requires |e| <= 1 && forall s :: s in e ==> s.name == m
    ensures SubscriptionsNamed(e, n) == if n == m then e else []
  {
    if e != [] {
      assert e == [] + [e[0]] && e[0] in e;
    }
  }

  lemma {:induction false} SubscriptionsNamedConcat(a: seq<Subscription>, b: seq<Subscription>, n: string)
    ensures SubscriptionsNamed(a + b, n) == SubscriptionsNamed(a, n) + SubscriptionsNamed(b, n)
    decreases |b|
  {
    if b == [] {
      assert a + b == a;
    } else {
      assert (a + b)[..|a + b| - 1] == a + b[..|b| - 1];
      SubscriptionsNamedConcat(a, b[..|b| - 1], n);
    }
  }

  /** The entry for name n depends only on the transactions named n: other
      names, however interleaved, neither join nor alter n's group. */
  lemma Isolation(ts: seq<Transaction>, n: string)
    ensures SubscriptionsNamed(Detect(ts), n) == Detect(Named(ts, n))
  {
    NamedEntry(ts, n);
    GroupAlone(ts, n);
  }

  /** The entries of the result named n are the entry of n's group. */
  lemma NamedEntry(ts: seq<Transaction>, n: string)
    ensures SubscriptionsNamed(Detect(ts), n) == Entry(n, ts)
  {
    EmitNamed(Names(ts), ts, n);
    if !HasName(ts, n) {
      NamedAbsent(ts, n);
      assert Entry(n, ts) == [];
    }
  }

  /** Run on n's group alone, the detector yields just n's entry. */
  lemma GroupAlone(ts: seq<Transaction>, n: string)
    ensures Detect(Named(ts, n)) == Entry(n, ts)
  {
    var g := Named(ts, n);
    NamedOnly(ts, n);
    if HasName(ts, n) {
      NamedOfNamed(ts, n);
      NamesOfNamed(g, n);
      assert Emit([n], g) == Emit([], g) + Entry(n, g);
      assert Named(g, n) == g;
    } else {
      NamedAbsent(ts, n);
      assert Names(g) == [];
      assert Entry(n, ts) == [];
    }
  }

  /** Every transaction of Named(ts, n) is named n, and there is one when
      the input holds the name. */
  lemma {:induction false} NamedOnly(ts: seq<Transaction>, n: string)
    ensures forall i :: 0 <= i < |Named(ts, n)| ==> Named(ts, n)[i].name == n
    ensures HasName(ts, n) ==> |Named(ts, n)| > 0
    decreases |ts|
  {
    if ts != [] {
      var q := ts[..|ts| - 1];
      NamedOnly(q, n);
      if HasName(ts, n) && ts[|ts| - 1].name != n {
        var i :| 0 <= i < |ts| && ts[i].name == n;
        assert q[i].name == n;
      }
    }
  }

  /** Filtering twice by the same name filters once. */
  lemma {:induction false} NamedOfNamed(ts: seq<Transaction>, n: string)
    ensures Named(Named(ts, n), n) == Named(ts, n)
    decreases |ts|
  {
    if ts != [] {
      var q := ts[..|ts| - 1];
      var x := ts[|ts| - 1];
      NamedOfNamed(q, n);
      var g := Named(q, n);
      if x.name == n {
        assert Named(ts, n) == g + [x];
        assert (g + [x])[..|g|] == g;
        assert (g + [x])[|g|] == x;
      } else {
        assert Named(ts, n) == g;
      }
    }
  }

  /** A non-empty group of one name has that name as its only name. */
  lemma {:induction false} NamesOfNamed(g: seq<Transaction>, n: string)
    requires |g| > 0 && forall i :: 0 <= i < |g| ==> g[i].name == n
    ensures Names(g) == [n]
    decreases |g|
  {
    var q := g[..|g| - 1];
    if q == [] {
      assert Names(q) == [];
    } else {
      assert forall i :: 0 <= i < |q| ==> q[i] == g[i];
      NamesOfNamed(q, n);
    }
  }

  /** Appending entries of a fresh name keeps the names distinct. */
  lemma DistinctAppend(front: seq<Subscription>, e: seq<Subscription>, q: seq<string>, m: string)
    requires forall i, j :: 0 <= i < j < |front| ==> front[i].name != front[j].name
    requires forall s :: s in front ==> s.name in q
    requires m !in q
    requires |e| <= 1
    requires forall s :: s in e ==> s.name == m
    ensures var subs := front + e;
      forall i, j :: 0 <= i < j < |subs| ==> subs[i].name != subs[j].name
  {
    var subs := front + e;
    forall i, j | 0 <= i < j < |subs|
      ensures subs[i].name != subs[j].name
    {
      if j >= |front| {
        assert subs[i] == front[i] && front[i] in front;
        assert subs[j] == e[j - |front|] && e[j - |front|] in e;
      }
    }
  }

  /** Entries come out in the order of their distinct names, so no two share
      a name. */
  lemma {:induction false} EmitDistinct(ns: seq<string>, ts: seq<Transaction>)
    requires forall i, j :: 0 <= i < j < |ns| ==> ns[i] != ns[j]
    ensures forall i, j :: 0 <= i < j < |Emit(ns, ts)| ==> Emit(ns, ts)[i].name != Emit(ns, ts)[j].name
    decreases |ns|
  {
    if ns != [] {
      var q := ns[..|ns| - 1];
      var m := ns[|ns| - 1];
      assert forall i, j :: 0 <= i < j < |q| ==> q[i] != q[j];
      EmitDistinct(q, ts);
      var front := Emit(q, ts);
      assert forall i, j :: 0 <= i < j < |front| ==> front[i].name != front[j].name;
      assert m !in q;
      DistinctAppend(front, Entry(m, ts), q, m);
    }
  }

  /** At most one subscription per name, each for a name of the input and
      marked recurring; no transactions, no subscriptions. */
  lemma DetectShape(ts: seq<Transaction>)
    ensures forall i, j :: 0 <= i < j < |Detect(ts)| ==> Detect(ts)[i].name != Detect(ts)[j].name
    ensures forall s :: s in Detect(ts) ==> s.recurring && HasName(ts, s.name)
    ensures ts == [] ==> Detect(ts) == []
  {
    EmitDistinct(Names(ts), ts);
  }

  /** No entry of subs is named n when none is kept by SubscriptionsNamed. */
  lemma {:induction false} NoneNamed(subs: seq<Subscription>, n: string)
    requires SubscriptionsNamed(subs, n) == []
    ensures forall s :: s in subs ==> s.name != n
    decreases |subs|
  {
    if subs != [] {
      var q := subs[..|subs| - 1];
      NoneNamed(q, n);
      assert subs == q + [subs[|subs| - 1]];
    }
  }

  /** A name with fewer than three transactions never appears in the result. */
  lemma SmallGroupsAbsent(ts: seq<Transaction>, n: string)
    requires |Named(ts, n)| < MinOccurrences
    ensures forall s :: s in Detect(ts) ==> s.name != n
  {
    NamedEntry(ts, n);
    NoneNamed(Detect(ts), n);
  }
}
