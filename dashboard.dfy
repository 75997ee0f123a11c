/** The dashboard's figures: head counts, the organisation pie, the five
    largest professions and the five trainings closest to expiry. */
module Dashboard {
  import opened Wrappers
  import opened Dates
  import opened Sorting
  import opened Roster
  import opened Lists

  /** One slice of the pie or one bar: a key and the number of employees. */
  datatype Entry = Entry(name: string, value: nat)

  function EntryValue(e: Entry): int {
    e.value
  }

  // ---------------------------------------------------------------- keys

  /** `e.organization || missing`: the organisation count uses a dash for a
      missing organisation, the pie "Без организации". */
  function OrgKeys(es: seq<Employee>, missing: string): (ks: seq<string>)
    ensures |ks| == |es|
    ensures forall i :: 0 <= i < |es| ==> ks[i] == if es[i].organization == "" then missing else es[i].organization
  {
    seq(|es|, i requires 0 <= i < |es| => if es[i].organization == "" then missing else es[i].organization)
  }

  /** The key of the pie. */
  const NoOrganization: string := "Без организации"

  /** `e.profession || "—"`: the key of the bar chart. */
  function ProfessionKeys(es: seq<Employee>): (ks: seq<string>)
    ensures |ks| == |es|
    ensures forall i :: 0 <= i < |es| ==> ks[i] == if es[i].profession == "" then "—" else es[i].profession
  {
    seq(|es|, i requires 0 <= i < |es| => if es[i].profession == "" then "—" else es[i].profession)
  }

  // ---------------------------------------------------------------- head counts

  predicate NeedsRetraining(now: int, e: Employee) {
    DaysDifference(now, e.trainingDate) >= DaysThreshold
  }

  /** `needRetrain`: the employees whose training is `DAYS_THRESHOLD` days
      old or older; never more than all of them. */
  function NeedRetrain(es: seq<Employee>, now: int): (n: nat)
    ensures n <= |es|
  {
    |Filter(es, (e: Employee) => NeedsRetraining(now, e))|
  }

  /** As time passes the number of employees due for retraining only grows. */
  lemma NeedRetrainGrows(es: seq<Employee>, now: int, later: int)
    requires now <= later
    ensures NeedRetrain(es, now) <= NeedRetrain(es, later)
  {
    forall e ensures NeedsRetraining(now, e) ==> NeedsRetraining(later, e) {
      DaysDifferenceMonotone(now, later, e.trainingDate);
    }
    FilterWeaker(es, (e: Employee) => NeedsRetraining(now, e), (e: Employee) => NeedsRetraining(later, e));
  }

  /** A weaker filter keeps at least as many elements. */
  lemma {:induction false} FilterWeaker<T(!new)>(s: seq<T>, p: T -> bool, q: T -> bool)
    requires forall x :: p(x) ==> q(x)
    ensures |Filter(s, p)| <= |Filter(s, q)|
  {
    if |s| > 0 {
      FilterWeaker(s[1..], p, q);
    }
  }

  /** `orgCount`: the number of distinct organisations, a missing one
      counted once as "—". There is one exactly when there is an employee. */
  function OrgCount(es: seq<Employee>): (n: nat)
    ensures n <= |es|
    ensures n == 0 <==> |es| == 0
  {
    var ks := OrgKeys(es, "—");
    assert |ks| > 0 ==> ks[0] in Distinct(ks);
    |Distinct(ks)|
  }

  // ---------------------------------------------------------------- tallies

  /** The entries of `Object.entries(byKey)`: each key of `order` with the
      number of times it occurs in `keys`. */
  function CountEntries(order: seq<string>, keys: seq<string>): (es: seq<Entry>)
    ensures |es| == |order|
    ensures forall j :: 0 <= j < |order| ==> es[j] == Entry(order[j], multiset(keys)[order[j]])
  {
    if |order| == 0 then []
    else CountEntries(order[..|order| - 1], keys) + [Entry(order[|order| - 1], multiset(keys)[order[|order| - 1]])]
  }

  /** `keys.forEach(k => byKey[k] = (byKey[k] || 0) + 1)`: a counter per key,
      keys in the order they were first met. */
  method CountBy(keys: seq<string>) returns (counts: map<string, nat>, order: seq<string>)
    ensures order == Distinct(keys)
    ensures forall k :: k in counts <==> k in keys
    ensures forall k :: k in counts ==> counts[k] == multiset(keys)[k]
  {
    counts, order := map[], [];
    for i := 0 to |keys|
      invariant order == Distinct(keys[..i])
      invariant forall k :: k in counts <==> k in keys[..i]
      invariant forall k :: k in counts ==> counts[k] == multiset(keys[..i])[k]
    {
      var k := keys[i];
      PrefixStep(keys, i);
      if k in counts {
        counts := counts[k := counts[k] + 1];
      } else {
        counts := counts[k := 1];
        order := order + [k];
      }
    }
    assert keys[..|keys|] == keys;
  }

  /** One more key: `Distinct` takes it on when it is new. */
  lemma PrefixStep(keys: seq<string>, i: int)
    requires 0 <= i < |keys|
    ensures Distinct(keys[..i + 1]) ==
      if keys[i] in Distinct(keys[..i]) then Distinct(keys[..i]) else Distinct(keys[..i]) + [keys[i]]
    ensures multiset(keys[..i + 1]) == multiset(keys[..i]) + multiset{keys[i]}
    ensures forall k :: k in keys[..i + 1] <==> k in keys[..i] || k == keys[i]
  {
    assert keys[..i + 1] == keys[..i] + [keys[i]];
    assert keys[..i + 1][..i] == keys[..i];
  }

  /** `Object.entries(byKey)` after `CountBy`. */
  method Entries(keys: seq<string>) returns (entries: seq<Entry>)
    ensures entries == CountEntries(Distinct(keys), keys)
  {
    var counts, order := CountBy(keys);
    entries := seq(|order|, j requires 0 <= j < |order| => Entry(order[j], counts[order[j]]));
  }

  /** The sum of the counts in `keys` of the values of `d`. */
  function SumCounts(d: seq<string>, keys: seq<string>): int {
    if |d| == 0 then 0 else SumCounts(d[..|d| - 1], keys) + multiset(keys)[d[|d| - 1]]
  }

  lemma {:induction false} SumEntries(d: seq<string>, keys: seq<string>)
    ensures SumBy(CountEntries(d, keys), EntryValue) == SumCounts(d, keys)
  {
    if |d| > 0 {
      SumEntries(d[..|d| - 1], keys);
      var es := CountEntries(d, keys);
      assert es[..|es| - 1] == CountEntries(d[..|d| - 1], keys);
    }
  }

  /** The counts of the distinct keys add up to the number of keys. */
  lemma {:induction false} CountsAddUp(keys: seq<string>)
    ensures SumBy(CountEntries(Distinct(keys), keys), EntryValue) == |keys|
  {
    SumEntries(Distinct(keys), keys);
    DistinctCountsAddUp(keys);
  }

  lemma {:induction false} DistinctCountsAddUp(keys: seq<string>)
    ensures SumCounts(Distinct(keys), keys) == |keys|
  {
    if |keys| > 0 {
      var init, x := keys[..|keys| - 1], keys[|keys| - 1];
      assert keys == init + [x];
      DistinctCountsAddUp(init);
      var d := Distinct(init);
      CountBump(d, init, x);
      if x !in d {
        var order := d + [x];
        assert order[..|order| - 1] == d;
        assert multiset(keys)[x] == 1 by { assert x !in init; }
      }
    }
  }

  /** One more occurrence of `x` adds one to the total when `x` is among the
      distinct keys counted. */
  lemma {:induction false} CountBump(d: seq<string>, init: seq<string>, x: string)
    requires NoDup(d)
    ensures SumCounts(d, init + [x]) == SumCounts(d, init) + (if x in d then 1 else 0)
  {
    if |d| > 0 {
      var d', y := d[..|d| - 1], d[|d| - 1];
      assert d == d' + [y];
      CountBump(d', init, x);
      assert multiset(init + [x])[y] == multiset(init)[y] + (if x == y then 1 else 0);
    }
  }

  // ---------------------------------------------------------------- charts

  /** `pieData`: one slice per organisation key, met in order, with its
      head count; the slices add up to all employees. */
  method PieData(es: seq<Employee>) returns (pie: seq<Entry>)
    ensures |pie| == |Distinct(OrgKeys(es, NoOrganization))|
    ensures forall i, j :: 0 <= i < j < |pie| ==> pie[i].name != pie[j].name
    ensures forall j :: 0 <= j < |pie| ==> pie[j].value == multiset(OrgKeys(es, NoOrganization))[pie[j].name] > 0
    ensures forall k :: k in OrgKeys(es, NoOrganization) <==> exists j :: 0 <= j < |pie| && pie[j].name == k
    ensures SumBy(pie, EntryValue) == |es|
  {
    var keys := OrgKeys(es, NoOrganization);
    pie := Entries(keys);
    CountsAddUp(keys);
    ChartFacts(keys, pie);
  }

  /** What a tally inherits from `Distinct`. */
  lemma ChartFacts(keys: seq<string>, entries: seq<Entry>)
    requires entries == CountEntries(Distinct(keys), keys)
    ensures forall i, j :: 0 <= i < j < |entries| ==> entries[i].name != entries[j].name
    ensures forall j :: 0 <= j < |entries| ==> entries[j].value == multiset(keys)[entries[j].name] > 0
    ensures forall k :: k in keys <==> exists j :: 0 <= j < |entries| && entries[j].name == k
  {
    var d := Distinct(keys);
    forall k | k in keys ensures exists j :: 0 <= j < |entries| && entries[j].name == k {
      var j :| 0 <= j < |d| && d[j] == k;
      assert entries[j].name == k;
    }
    forall j | 0 <= j < |entries| ensures entries[j].name in keys && multiset(keys)[entries[j].name] > 0 {
      assert entries[j].name == d[j] && d[j] in d;
    }
  }

  /** `(a, b) => b[1] - a[1]`: larger counts first. */
  predicate ByCountDesc(a: Entry, b: Entry) {
    a.value >= b.value
  }

  /** `barData`: the professions by head count, largest first, cut to five.
      Each bar is a distinct profession with its head count, and no
      profession left out has more employees than one shown. */
  method BarData(es: seq<Employee>) returns (bar: seq<Entry>)
    ensures |bar| == Min(5, |Distinct(ProfessionKeys(es))|)
    ensures forall i, j :: 0 <= i < j < |bar| ==> bar[i].value >= bar[j].value
    ensures forall i, j :: 0 <= i < j < |bar| ==> bar[i].name != bar[j].name
    ensures forall j :: 0 <= j < |bar| ==> bar[j].value == multiset(ProfessionKeys(es))[bar[j].name] > 0
    ensures forall k :: k in ProfessionKeys(es) && (forall j :: 0 <= j < |bar| ==> bar[j].name != k) ==>
              forall j :: 0 <= j < |bar| ==> bar[j].value >= multiset(ProfessionKeys(es))[k]
  {
    var keys := ProfessionKeys(es);
    var entries := Entries(keys);
    ChartFacts(keys, entries);
    bar := TopByCount(entries, 5);
    BarFacts(keys, entries, bar);
  }

  /** `.sort((a, b) => b[1] - a[1]).slice(0, n)`: the `n` largest counts,
      largest first, taken from the entries, with no entry left behind
      larger than one taken. */
  method TopByCount(entries: seq<Entry>, n: nat) returns (top: seq<Entry>)
    ensures |top| == Min(n, |entries|)
    ensures forall i, j :: 0 <= i < j < |top| ==> top[i].value >= top[j].value
    ensures multiset(top) <= multiset(entries)
    ensures forall x :: x in entries && x !in top ==> forall j :: 0 <= j < |top| ==> top[j].value >= x.value
  {
    var a := new Entry[|entries|](i requires 0 <= i < |entries| => entries[i]);
    assert a[..] == entries;
    assert TotalPreorder(ByCountDesc);
    SortInPlace(a, ByCountDesc);
    var sorted := a[..];
    var k := Min(n, |sorted|);
    TakeSorted(sorted, k, ByCountDesc);
    top := sorted[..k];
    forall x | x in entries && x !in top ensures forall j :: 0 <= j < |top| ==> top[j].value >= x.value {
      assert x in multiset(sorted);
      var m :| 0 <= m < |sorted| && sorted[m] == x;
    }
  }

  function Min(a: int, b: int): int { if a <= b then a else b }

  /** What the chosen bars inherit from the tally. */
  lemma BarFacts(keys: seq<string>, entries: seq<Entry>, top: seq<Entry>)
    requires forall i, j :: 0 <= i < j < |entries| ==> entries[i].name != entries[j].name
    requires forall j :: 0 <= j < |entries| ==> entries[j].value == multiset(keys)[entries[j].name] > 0
    requires forall key :: key in keys <==> exists j :: 0 <= j < |entries| && entries[j].name == key
    requires multiset(top) <= multiset(entries)
    requires forall x :: x in entries && x !in top ==> forall j :: 0 <= j < |top| ==> top[j].value >= x.value
    ensures forall i, j :: 0 <= i < j < |top| ==> top[i].name != top[j].name
    ensures forall j :: 0 <= j < |top| ==> top[j].value == multiset(keys)[top[j].name] > 0
    ensures forall key :: key in keys && (forall j :: 0 <= j < |top| ==> top[j].name != key) ==>
              forall j :: 0 <= j < |top| ==> top[j].value >= multiset(keys)[key]
  {
    assert NoDup(entries);
    forall j | 0 <= j < |top| ensures top[j] in entries {
      assert top[j] in multiset(entries);
    }
    forall i, j | 0 <= i < j < |top| ensures top[i].name != top[j].name {
      var a :| 0 <= a < |entries| && entries[a] == top[i];
      var b :| 0 <= b < |entries| && entries[b] == top[j];
      if a == b {
        NoDupCount(entries, top[i]);
        Occurrences(top, i, j);
      }
    }
    forall key | key in keys && (forall j :: 0 <= j < |top| ==> top[j].name != key)
      ensures forall j :: 0 <= j < |top| ==> top[j].value >= multiset(keys)[key]
    {
      var e :| 0 <= e < |entries| && entries[e].name == key;
      assert entries[e] !in top;
    }
  }

  // ---------------------------------------------------------------- expiring soon

  /** An employee with the days since the primary training. */
  datatype Soon = Soon(employee: Employee, days: int)

  /** The window of `expiringSoon`: from 30 days before the threshold up to
      the threshold. */
  predicate InWindow(s: Soon) {
    DaysThreshold - 30 <= s.days < DaysThreshold
  }

  function WithDays(es: seq<Employee>, now: int): (r: seq<Soon>)
    ensures |r| == |es|
    ensures forall i :: 0 <= i < |es| ==> r[i] == Soon(es[i], DaysDifference(now, es[i].trainingDate))
  {
    seq(|es|, i requires 0 <= i < |es| => Soon(es[i], DaysDifference(now, es[i].trainingDate)))
  }

  /** `(a, b) => b.days - a.days`: more days first. */
  predicate ByDaysDesc(a: Soon, b: Soon) {
    a.days >= b.days
  }

  /** `expiringSoon`: the employees inside the window, most days first, the
      first five. Each still has from 1 to 30 days before it is due, and no
      employee of the window left out is closer to the threshold than one
      shown. */
  method ExpiringSoon(es: seq<Employee>, now: int) returns (soon: seq<Soon>)
    ensures |soon| == Min(5, |Filter(WithDays(es, now), InWindow)|)
    ensures forall i, j :: 0 <= i < j < |soon| ==> soon[i].days >= soon[j].days
    ensures multiset(soon) <= multiset(Filter(WithDays(es, now), InWindow))
    ensures forall s :: s in soon ==> s in WithDays(es, now) && InWindow(s)
    ensures forall s :: s in soon ==> 1 <= DaysThreshold - s.days <= 30
    ensures forall x :: x in Filter(WithDays(es, now), InWindow) && x !in soon ==>
              forall s :: s in soon ==> s.days >= x.days
  {
    var window := Filter(WithDays(es, now), InWindow);
    var a := new Soon[|window|](i requires 0 <= i < |window| => window[i]);
    assert a[..] == window;
    assert TotalPreorder(ByDaysDesc);
    SortInPlace(a, ByDaysDesc);
    var sorted := a[..];
    var k := Min(5, |sorted|);
    TakeSorted(sorted, k, ByDaysDesc);
    soon := sorted[..k];
    TopSoon(window, sorted, k);
  }

  lemma TopSoon(window: seq<Soon>, sorted: seq<Soon>, k: nat)
    requires multiset(sorted) == multiset(window) && k <= |sorted|
    requires forall i, j :: 0 <= i < k <= j < |sorted| ==> ByDaysDesc(sorted[i], sorted[j])
    ensures forall s :: s in sorted[..k] ==> s in window
    ensures forall x :: x in window && x !in sorted[..k] ==> forall s :: s in sorted[..k] ==> s.days >= x.days
  {
    forall s | s in sorted[..k] ensures s in window {
      assert s in multiset(window);
    }
    forall x | x in window && x !in sorted[..k] ensures forall s :: s in sorted[..k] ==> s.days >= x.days {
      assert x in multiset(sorted);
      var m :| 0 <= m < |sorted| && sorted[m] == x;
    }
  }

  // ---------------------------------------------------------------- stats

  datatype Stats = Stats(
    total: nat, needRetrain: nat, orgCount: nat,
    pieData: seq<Entry>, barData: seq<Entry>, expiringSoon: seq<Soon>)

  /** What the pie chart shows: one slice per organisation key, valued at
      its head count. */
  ghost predicate PieShape(es: seq<Employee>, pie: seq<Entry>) {
    && (forall j :: 0 <= j < |pie| ==> pie[j].value == multiset(OrgKeys(es, NoOrganization))[pie[j].name] > 0)
    && (forall k :: k in OrgKeys(es, NoOrganization) <==> exists j :: 0 <= j < |pie| && pie[j].name == k)
  }

  /** What the bar chart shows: professions by descending head count. */
  ghost predicate BarShape(es: seq<Employee>, bar: seq<Entry>) {
    && (forall i, j :: 0 <= i < j < |bar| ==> bar[i].value >= bar[j].value)
    && (forall j :: 0 <= j < |bar| ==> bar[j].value == multiset(ProfessionKeys(es))[bar[j].name] > 0)
  }

  /** What the expiring-soon list shows: employees of the window, most days
      first, none more often than there. */
  ghost predicate SoonShape(es: seq<Employee>, now: int, soon: seq<Soon>) {
    && (forall i, j :: 0 <= i < j < |soon| ==> soon[i].days >= soon[j].days)
    && multiset(soon) <= multiset(Filter(WithDays(es, now), InWindow))
  }

  /** The dashboard's `stats`. */
  method ComputeStats(es: seq<Employee>, now: int) returns (s: Stats)
    ensures s.total == |es| && s.needRetrain == NeedRetrain(es, now) && s.orgCount == OrgCount(es)
    ensures s.needRetrain <= s.total && s.orgCount <= s.total
    ensures SumBy(s.pieData, EntryValue) == s.total
    ensures |s.barData| <= 5 && |s.expiringSoon| <= 5
    ensures PieShape(es, s.pieData) && BarShape(es, s.barData) && SoonShape(es, now, s.expiringSoon)
    ensures forall x :: x in s.expiringSoon ==> 1 <= DaysThreshold - x.days <= 30
  {
    var pie := PieData(es);
    var bar := BarData(es);
    var soon := ExpiringSoon(es, now);
    assert PieShape(es, pie) && BarShape(es, bar) && SoonShape(es, now, soon);
    s := Stats(|es|, NeedRetrain(es, now), OrgCount(es), pie, bar, soon);
  }
}
