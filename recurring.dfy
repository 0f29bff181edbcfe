/**
  The recurring-bill detector: transactions are grouped by exact name, each
  group is sorted by its date strings, and a group of at least three whose
  average gap between neighbouring dates lies strictly inside the monthly
  band (26, 35) or the weekly band (6, 8) yields one subscription, due 30 or
  7 days after its latest transaction.

  A date is a string; it is read as an ISO 8601 date-only string at UTC
  midnight (IsoDate.Parse), and a string that does not parse is an invalid
  date, whose gaps are NaN (None here).
 */
module Recurring {
  import opened Wrappers
  import opened Strings
  import opened Calendar
  import opened IsoDate

  datatype Transaction = Transaction(name: string, amount: real, date: string)

  datatype Subscription = Subscription(name: string, amount: real, due: string, recurring: bool)

  datatype Cadence = Monthly | Weekly

  /** Fewer occurrences than this never make a pattern. */
  const MinOccurrences := 3
  /** Open bands for the average gap, in days. */
  const MonthlyLow := 26
  const MonthlyHigh := 35
  const WeeklyLow := 6
  const WeeklyHigh := 8
  /** Days from the latest transaction to the predicted next one. */
  const MonthlyOffset := 30
  const WeeklyOffset := 7

  // ---------------------------------------------------------------------
  // Days between two dates

  /** The whole number of days between two date strings, or None (NaN) when
      either is not a valid date. */
  function DaysBetween(a: string, b: string): (r: Option<nat>)
    ensures r.Some? <==> Parse(a).Some? && Parse(b).Some?
    ensures r.Some? ==> (r.value == 0 <==> a == b)
    ensures r.Some? && Compare(a, b) <= 0 ==> r.value == DayNumber(Parse(b).value) - DayNumber(Parse(a).value)
    ensures r.Some? && Compare(b, a) <= 0 ==> r.value == DayNumber(Parse(a).value) - DayNumber(Parse(b).value)
  {
    match (Parse(a), Parse(b))
    case (Some(ca), Some(cb)) =>
      ChronologicalOrder(a, b);
      CompareAntisymmetric(a, b);
      var d := DayNumber(cb) - DayNumber(ca);
      Some(if d < 0 then -d else d)
    case _ => None
  }

  // ---------------------------------------------------------------------
  // Grouping by name

  predicate HasName(ts: seq<Transaction>, n: string) {
    exists i :: 0 <= i < |ts| && ts[i].name == n
  }

  /** The distinct names of ts in order of first appearance: the key order of
      the grouping dictionary. */
  function Names(ts: seq<Transaction>): (ns: seq<string>)
    ensures forall i, j :: 0 <= i < j < |ns| ==> ns[i] != ns[j]
    ensures forall n :: n in ns <==> HasName(ts, n)
  {
    if ts == [] then []
    else
      var rest := Names(ts[..|ts| - 1]);
      var n := ts[|ts| - 1].name;
      assert forall m :: HasName(ts, m) <==> HasName(ts[..|ts| - 1], m) || m == n;
      if n in rest then rest else rest + [n]
  }

  /** The transactions of ts named n, in input order. */
  function Named(ts: seq<Transaction>, n: string): (g: seq<Transaction>)
    ensures |g| <= |ts|
    ensures forall i :: 0 <= i < |g| ==> g[i].name == n
  {
    if ts == [] then []
    else
      var last := ts[|ts| - 1];
      Named(ts[..|ts| - 1], n) + (if last.name == n then [last] else [])
  }

  // ---------------------------------------------------------------------
  // Stable sort by date string

  predicate DateLeq(x: Transaction, y: Transaction) {
    Compare(x.date, y.date) <= 0
  }

  predicate Ascending(s: seq<Transaction>) {
    forall i, j {:trigger DateLeq(s[i], s[j])} :: 0 <= i < j < |s| ==> DateLeq(s[i], s[j])
  }

  /** Places x after every trailing element of p whose date is not later:
      one pass of insertion sort. */
  function Insert(p: seq<Transaction>, x: Transaction): (r: seq<Transaction>)
    ensures |r| == |p| + 1
  {
    if p == [] then [x]
    else if DateLeq(p[|p| - 1], x) then p + [x]
    else Insert(p[..|p| - 1], x) + [p[|p| - 1]]
  }

  /** The stable sort of s by date string: the order Array.prototype.sort
      produces with the comparator `a.date.localeCompare(b.date)`. */
  function StableSortByDate(s: seq<Transaction>): (r: seq<Transaction>)
    ensures |r| == |s|
  {
    if s == [] then []
    else Insert(StableSortByDate(s[..|s| - 1]), s[|s| - 1])
  }

  /** Where the scan of the insertion sort stops, Insert puts x. */
  lemma {:induction false} InsertAt(p: seq<Transaction>, x: Transaction, j: nat)
    requires j <= |p|
    requires j > 0 ==> DateLeq(p[j - 1], x)
    requires forall k :: j <= k < |p| ==> !DateLeq(p[k], x)
    ensures Insert(p, x) == p[..j] + [x] + p[j..]
    decreases |p|
  {
    if j < |p| {
      var q := p[..|p| - 1];
      InsertAt(q, x, j);
      assert !DateLeq(p[|p| - 1], x);
      assert Insert(p, x) == Insert(q, x) + [p[|p| - 1]];
      assert p == q + [p[|p| - 1]];
      assert q[..j] == p[..j];
      assert p[j..] == q[j..] + [p[|p| - 1]];
    } else {
      assert p[..j] == p && p[j..] == [];
    }
  }

  /** Moves a[i] left past the elements of a[..i] with a later date: one
      pass of insertion sort. */
  method InsertPass(a: array<Transaction>, i: nat)
    requires i < a.Length
    modifies a
    ensures a[..i + 1] == Insert(old(a[..i]), old(a[i]))
    ensures a[i + 1..] == old(a[i + 1..])
  {
    ghost var done := a[..i];
    var key := a[i];
    var j := i;
    while j > 0 && !DateLeq(a[j - 1], key)
      invariant 0 <= j <= i
      invariant forall k :: 0 <= k < j ==> a[k] == done[k]
      invariant forall k :: j < k <= i ==> a[k] == done[k - 1]
      invariant forall k :: i < k < a.Length ==> a[k] == old(a[k])
      invariant forall k :: j <= k < i ==> !DateLeq(done[k], key)
    {
      a[j] := a[j - 1];
      j := j - 1;
    }
    a[j] := key;
    assert a[i + 1..] == old(a[i + 1..]);
    InsertAt(done, key, j);
    Placed(a[..i + 1], done, key, j);
  }

  /** A sequence that holds p[..j], then x, then p[j..] is p[..j] + [x] + p[j..]. */
  lemma Placed(s: seq<Transaction>, p: seq<Transaction>, x: Transaction, j: nat)
    requires j <= |p| && |s| == |p| + 1
    requires forall k :: 0 <= k < j ==> s[k] == p[k]
    requires s[j] == x
    requires forall k :: j < k < |s| ==> s[k] == p[k - 1]
    ensures s == p[..j] + [x] + p[j..]
  {
  }

  /** Sorts a in place by date, stably, by insertion. */
  method SortByDate(a: array<Transaction>)
    modifies a
    ensures a[..] == StableSortByDate(old(a[..]))
  {
    ghost var input := a[..];
    var i := 0;
    while i < a.Length
      invariant 0 <= i <= a.Length
      invariant a[..i] == StableSortByDate(input[..i])
      invariant a[i..] == input[i..]
    {
      ghost var before := a[..];
      InsertPass(a, i);
      assert before[..i] == StableSortByDate(input[..i]) && before[i] == input[i];
      assert input[..i + 1][..i] == input[..i];
      assert a[i + 1..] == input[i + 1..];
      i := i + 1;
    }
    assert a[..] == a[..i] && input == input[..i];
  }

  // ---------------------------------------------------------------------
  // Gaps and their average

  /** The day gaps between neighbours of s: |s| - 1 of them. */
  function Gaps(s: seq<Transaction>): (g: seq<Option<nat>>)
    ensures |g| == if s == [] then 0 else |s| - 1
  {
    if |s| < 2 then []
    else Gaps(s[..|s| - 1]) + [DaysBetween(s[|s| - 2].date, s[|s| - 1].date)]
  }

  /** Collects the gaps between neighbouring elements of a sorted group. */
  method CollectGaps(sorted: array<Transaction>) returns (gaps: seq<Option<nat>>)
    ensures gaps == Gaps(sorted[..])
  {
    gaps := [];
    if sorted.Length == 0 {
      return;
    }
    for i := 1 to sorted.Length
      invariant gaps == Gaps(sorted[..i])
    {
      assert sorted[..i + 1][..i] == sorted[..i];
      gaps := gaps + [DaysBetween(sorted[i - 1].date, sorted[i].date)];
    }
    assert sorted[..] == sorted[..sorted.Length];
  }

  /** The sum of the gaps, starting from 0; a NaN gap makes the sum NaN. */
  function Total(g: seq<Option<nat>>): (r: Option<int>)
    ensures r.Some? <==> forall i :: 0 <= i < |g| ==> g[i].Some?
  {
    if g == [] then Some(0)
    else
      match (Total(g[..|g| - 1]), g[|g| - 1])
      case (Some(a), Some(b)) => Some(a + b)
      case _ => None
  }

  /** The source's band tests on the average gap, open at both ends. */
  predicate MonthlyBand(avg: real) {
    MonthlyLow as real < avg < MonthlyHigh as real
  }

  predicate WeeklyBand(avg: real) {
    WeeklyLow as real < avg < WeeklyHigh as real
  }

  /** The cadence whose band holds the average gap total / count, decided on
      integers (see ClassifyBands). */
  function Classify(total: int, count: nat): (c: Option<Cadence>)
    requires count > 0
    ensures c.Some? ==> WeeklyLow * count < total < MonthlyHigh * count
  {
    if MonthlyLow * count < total < MonthlyHigh * count then Some(Monthly)
    else if WeeklyLow * count < total < WeeklyHigh * count then Some(Weekly)
    else None
  }

  /** Classify finds the cadence whose band holds the average total / count
      taken as a real number: the monthly cadence exactly when the average is
      in the monthly band, the weekly one exactly when it is in the weekly
      band, and the two bands never both hold. */
  lemma ClassifyBands(total: int, count: nat)
    requires count > 0
    ensures Classify(total, count) == Some(Monthly) <==> MonthlyBand(total as real / count as real)
    ensures Classify(total, count) == Some(Weekly) <==> WeeklyBand(total as real / count as real)
    ensures Classify(total, count).Some?
      <==> MonthlyBand(total as real / count as real) || WeeklyBand(total as real / count as real)
    ensures !(MonthlyBand(total as real / count as real) && WeeklyBand(total as real / count as real))
  {
    AverageBounds(total, count, MonthlyLow);
    AverageBounds(total, count, MonthlyHigh);
    AverageBounds(total, count, WeeklyLow);
    AverageBounds(total, count, WeeklyHigh);
  }

  /** Comparing the average with a bound is comparing the total with bound * count. */
  lemma AverageBounds(total: int, count: nat, bound: int)
    requires count > 0
    ensures bound as real < total as real / count as real <==> bound * count < total
    ensures total as real / count as real < bound as real <==> total < bound * count
  {
    var avg := total as real / count as real;
    var c := count as real;
    assert avg * c == total as real;
    assert (bound * count) as real == bound as real * c;
    if bound as real < avg {
      assert bound as real * c < avg * c;
    }
    if avg < bound as real {
      assert avg * c < bound as real * c;
    }
    if bound * count < total {
      assert bound as real * c < avg * c;
    }
    if total < bound * count {
      assert avg * c < bound as real * c;
    }
  }

  function Offset(c: Cadence): int {
    if c == Monthly then MonthlyOffset else WeeklyOffset
  }

  /** The due date: `days` days after date, written as the first ten
      characters of toISOString (see DueDate). */
  function Due(date: string, days: int): (due: string)
    requires Parse(date).Some?
    ensures |due| == 10
  {
    ToIsoString(CivilFromDay(DayNumber(Parse(date).value) + days))[..10]
  }

  /** The due date is an ISO date `days` days after date, as long as it
      stays within the four-digit years. */
  lemma DueDate(date: string, days: int)
    requires Parse(date).Some?
    requires 0 <= days && DayNumber(Parse(date).value) + days < DayFromYear(10000)
    ensures Parse(Due(date, days)).Some?
    ensures DayNumber(Parse(Due(date, days)).value) == DayNumber(Parse(date).value) + days
  {
    var t := DayNumber(Parse(date).value) + days;
    var c := CivilFromDay(t);
    FourDigitYear(t, Parse(date).value);
    DueText(date, days);
    DueParses(date, days, c);
    assert DayNumber(c) == t;
  }

  lemma DueParses(date: string, days: int, c: Civil)
    requires Parse(date).Some?
    requires 0 <= c.year <= 9999 && ValidCivil(c)
    requires Due(date, days) == DateText(c)
    ensures Parse(Due(date, days)).Some? && Parse(Due(date, days)).value == c
  {
    ParseDateText(c);
  }

  /** Within the four-digit years the due date is the date part of the ISO
      string. */
  lemma DueText(date: string, days: int)
    requires Parse(date).Some?
    requires 0 <= CivilFromDay(DayNumber(Parse(date).value) + days).year <= 9999
    ensures Due(date, days) == DateText(CivilFromDay(DayNumber(Parse(date).value) + days))
  {
  }

  /** Days from year 0 to year 9999 have four-digit years. */
  lemma FourDigitYear(t: int, start: Civil)
    requires ValidCivil(start) && 0 <= start.year && DayNumber(start) <= t < DayFromYear(10000)
    ensures 0 <= CivilFromDay(t).year <= 9999
  {
    if 0 < start.year {
      DayFromYearMonotone(0, start.year);
    }
    var y := CivilFromDay(t).year;
    if y < 0 {
      DayFromYearMonotone(y, 0);
    }
    if y > 9999 {
      DayFromYearMonotone(9999, y);
      DayFromYearStep(9999);
    }
  }

  // ---------------------------------------------------------------------
  // The detector

  /** A group whose gap sum is a number has only valid dates. */
  lemma {:induction false} TotalParses(s: seq<Transaction>)
    requires |s| >= 2 && Total(Gaps(s)).Some?
    ensures forall i :: 0 <= i < |s| ==> Parse(s[i].date).Some?
  {
    forall i | 0 <= i < |s|
      ensures Parse(s[i].date).Some?
    {
      var g := Gaps(s);
      var k := if i == 0 then 0 else i - 1;
      assert g[k].Some?;
      GapsAt(s, k);
    }
  }

  /** The k-th gap is the days between elements k and k + 1. */
  lemma {:induction false} GapsAt(s: seq<Transaction>, k: nat)
    requires k + 1 < |s|
    ensures Gaps(s)[k] == DaysBetween(s[k].date, s[k + 1].date)
  {
    if k + 2 < |s| {
      GapsAt(s[..|s| - 1], k);
    }
  }

  /** What a date-sorted name group yields: a subscription, or nothing. */
  function FromSorted(name: string, sorted: seq<Transaction>): (r: Option<Subscription>)
    ensures r.Some? ==> r.value.name == name && r.value.recurring && |sorted| >= MinOccurrences
  {
    if |sorted| < MinOccurrences then None
    else
      match Total(Gaps(sorted))
      case None => None
      case Some(total) =>
        match Classify(total, |sorted| - 1)
        case None => None
        case Some(c) =>
          var last := sorted[|sorted| - 1];
          TotalParses(sorted);
          Some(Subscription(name, last.amount, Due(last.date, Offset(c)), true))
  }

  /** What one name group yields. */
  function Detected(name: string, group: seq<Transaction>): (r: Option<Subscription>)
    ensures r.Some? ==> r.value.name == name && r.value.recurring && |group| >= MinOccurrences
  {
    FromSorted(name, StableSortByDate(group))
  }

  /** The entry name n's group contributes to the result: none or one. */
  function Entry(n: string, ts: seq<Transaction>): (e: seq<Subscription>)
    ensures |e| <= 1
    ensures forall s :: s in e ==> s.name == n && s.recurring
  {
    match Detected(n, Named(ts, n))
    case Some(s) => [s]
    case None => []
  }

  /** The subscriptions of the groups named by ns, in that order. */
  function Emit(ns: seq<string>, ts: seq<Transaction>): (subs: seq<Subscription>)
    ensures |subs| <= |ns|
    ensures forall s :: s in subs ==> s.name in ns && s.recurring
  {
    if ns == [] then []
    else Emit(ns[..|ns| - 1], ts) + Entry(ns[|ns| - 1], ts)
  }

  /** The detector's result: one entry per qualifying name group, in order
      of each name's first appearance. */
  function Detect(ts: seq<Transaction>): (subs: seq<Subscription>)
    ensures forall s :: s in subs ==> s.recurring && HasName(ts, s.name)
  {
    Emit(Names(ts), ts)
  }

  /** Extending the input by one transaction extends the name list and that
      name's group. */
  lemma NamesStep(ts: seq<Transaction>, i: nat)
    requires i < |ts|
    ensures Names(ts[..i + 1]) == if ts[i].name in Names(ts[..i]) then Names(ts[..i]) else Names(ts[..i]) + [ts[i].name]
    ensures forall n :: Named(ts[..i + 1], n) == Named(ts[..i], n) + (if ts[i].name == n then [ts[i]] else [])
  {
    assert ts[..i + 1][..i] == ts[..i];
  }

  /** A name that does not occur has an empty group. */
  lemma {:induction false} NamedAbsent(ts: seq<Transaction>, n: string)
    requires !HasName(ts, n)
    ensures Named(ts, n) == []
  {
    if ts != [] {
      var prefix := ts[..|ts| - 1];
      forall i | 0 <= i < |prefix|
        ensures prefix[i].name != n
      {
        assert prefix[i] == ts[i];
      }
      NamedAbsent(ts[..|ts| - 1], n);
    }
  }

  /** Fills the dictionary from name to transactions, one transaction at a time. */
  method GroupByName(ts: seq<Transaction>) returns (byName: map<string, seq<Transaction>>, names: seq<string>)
    ensures names == Names(ts)
    ensures forall n :: n in byName <==> n in names
    ensures forall n :: n in byName ==> byName[n] == Named(ts, n)
  {
    byName, names := map[], [];
    for i := 0 to |ts|
      invariant names == Names(ts[..i])
      invariant forall n :: n in byName <==> n in names
      invariant forall n :: n in byName ==> byName[n] == Named(ts[..i], n)
    {
      var t := ts[i];
      NamesStep(ts, i);
      if t.name !in byName {
        NamedAbsent(ts[..i], t.name);
        byName := byName[t.name := []];
        names := names + [t.name];
      }
      ghost var before := byName;
      byName := byName[t.name := byName[t.name] + [t]];
      forall n | n in byName
        ensures byName[n] == Named(ts[..i + 1], n)
      {
        if n != t.name {
          assert byName[n] == before[n];
        }
      }
    }
    assert ts[..|ts|] == ts;
  }

  /** The body of the detector's loop for one name group. */
  method DetectGroup(name: string, txns: seq<Transaction>) returns (found: Option<Subscription>)
    ensures found == Detected(name, txns)
  {
    var sorted := new Transaction[|txns|](j requires 0 <= j < |txns| => txns[j]);
    assert sorted[..] == txns;
    SortByDate(sorted);
    if sorted.Length < MinOccurrences {
      return None;
    }
    found := ClassifySorted(name, sorted);
  }

  /** Gaps, their average and the band test, for a sorted group of three or more. */
  method ClassifySorted(name: string, sorted: array<Transaction>) returns (found: Option<Subscription>)
    requires sorted.Length >= MinOccurrences
    ensures found == FromSorted(name, sorted[..])
  {
    var gaps := CollectGaps(sorted);
    var total := Total(gaps);
    if total.None? {
      return None;
    }
    var avg := total.value as real / |gaps| as real;
    var isMonthly := avg > MonthlyLow as real && avg < MonthlyHigh as real;
    var isWeekly := avg > WeeklyLow as real && avg < WeeklyHigh as real;
    ghost var cadence := Classify(total.value, |gaps|);
    ClassifyBands(total.value, |gaps|);
    assert isMonthly <==> cadence == Some(Monthly);
    assert isWeekly <==> cadence == Some(Weekly);
    if isMonthly || isWeekly {
      var last := sorted[sorted.Length - 1];
      TotalParses(sorted[..]);
      var days := if isMonthly then MonthlyOffset else WeeklyOffset;
      assert days == Offset(cadence.value);
      found := Some(Subscription(name, last.amount, Due(last.date, days), true));
    } else {
      found := None;
    }
  }

  /** Emitting one more name appends that name's entry. */
  lemma EmitStep(ns: seq<string>, k: nat, ts: seq<Transaction>)
    requires k < |ns|
    ensures Emit(ns[..k + 1], ts) == Emit(ns[..k], ts) + Entry(ns[k], ts)
  {
    assert ns[..k + 1][..k] == ns[..k];
  }

  /** What a group's detection found is the entry of that name. */
  lemma EntryFound(name: string, ts: seq<Transaction>, found: Option<Subscription>)
    requires found == Detected(name, Named(ts, name))
    ensures Entry(name, ts) == if found.Some? then [found.value] else []
  {
  }

  /** detectRecurring: the subscriptions inferred from a list of transactions. */
  method DetectRecurring(transactions: seq<Transaction>) returns (subs: seq<Subscription>)
    ensures subs == Detect(transactions)
  {
    var byName, names := GroupByName(transactions);
    subs := [];
    for k := 0 to |names|
      invariant subs == Emit(names[..k], transactions)
    {
      var name := names[k];
      EmitStep(names, k, transactions);
      var found := DetectGroup(name, byName[name]);
      EntryFound(name, transactions, found);
      if found.Some? {
        subs := subs + [found.value];
      }
    }
    assert names[..|names|] == names;
  }
}
