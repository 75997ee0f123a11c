/** Compliance analytics over the roster: per-employee rows, whole-set
    counts and rates, upcoming-expiry horizons, and per-organisation and
    per-manager groups sorted worst first. */
module Analytics {
  import opened Wrappers
  import opened Dates
  import opened Roster
  import opened Sorting
  import opened Lists

  /** An employee with a training date, with everything derived from it. */
  datatype Row = Row(
    employee: Employee,
    days: int,
    status: Status,
    nextDate: int,
    daysToExpire: int,
    organization: string,
    responsible: string)

  /** `s || "—"`. */
  function OrDash(s: string): (r: string)
    ensures r != []
    ensures s != [] ==> r == s
  {
    if s == [] then "—" else s
  }

  /** The row of an employee trained on `c`, evaluated at `now`. */
  function MakeRow(e: Employee, c: CivilDate, now: int): Row {
    var days := DaysDifference(now, Some(c));
    var next := AddDays(c, DaysThreshold);
    Row(e, days, StatusByDays(days), next, CeilDiv(next - now, MsPerDay),
        OrDash(e.organization), OrDash(e.responsible))
  }

  /** The days left until expiry (rounded up from the due date) are exactly the
      threshold minus the elapsed days (rounded down from the training date):
      both are measured from the same midnight. */
  lemma DaysToExpireIsRemainder(e: Employee, c: CivilDate, now: int)
    ensures MakeRow(e, c, now).daysToExpire == DaysThreshold - MakeRow(e, c, now).days
  {
    var r := MakeRow(e, c, now);
    var x := now - TimeValue(c);
    assert r.days * MsPerDay <= x < r.days * MsPerDay + MsPerDay;
    var y := r.nextDate - now;
    assert y == DaysThreshold * MsPerDay - x;
    assert r.daysToExpire * MsPerDay - MsPerDay < y <= r.daysToExpire * MsPerDay;
  }

  predicate HasTrainingDate(e: Employee) {
    e.trainingDate.Some?
  }

  /** The employees that have a training date (`filter(e => e.trainingDate)`):
      each one as often as in `es`, the others not at all. */
  function Dated(es: seq<Employee>): (r: seq<Employee>)
    ensures |r| <= |es|
    ensures forall e :: multiset(r)[e] == if e.trainingDate.Some? then multiset(es)[e] else 0
    ensures forall i :: 0 <= i < |r| ==> r[i].trainingDate.Some?
    ensures (forall i :: 0 <= i < |es| ==> es[i].trainingDate.Some?) ==> r == es
  {
    var r := Filter(es, HasTrainingDate);
    assert forall i :: 0 <= i < |r| ==> r[i] in r;
    r
  }

  /** The dated employees keep their order: the selection of a concatenation
      is the concatenation of the selections, and one employee is kept
      exactly when it has a training date. */
  lemma DatedInOrder(a: seq<Employee>, b: seq<Employee>, e: Employee)
    ensures Dated(a + b) == Dated(a) + Dated(b)
    ensures Dated([e]) == if e.trainingDate.Some? then [e] else []
  {
    FilterConcat(a, b, HasTrainingDate);
    assert [e][1..] == [];
  }

  /** The rows of the analytics: row `i` derives from the `i`-th employee
      with a training date, its due date 90 calendar days after the
      training and the days to it counted from now. */
  function Rows(es: seq<Employee>, now: int): (rows: seq<Row>)
    ensures |rows| == |Dated(es)|
    ensures forall i :: 0 <= i < |rows| ==>
      var r := rows[i];
      && r.employee == Dated(es)[i]
      && r.days == DaysDifference(now, r.employee.trainingDate)
      && r.status == StatusByDays(r.days)
      && r.nextDate == TimeValue(r.employee.trainingDate.value) + DaysThreshold * MsPerDay
      && r.daysToExpire == DaysThreshold - r.days
      && r.organization == OrDash(r.employee.organization)
      && r.responsible == OrDash(r.employee.responsible)
    ensures forall r :: r in rows ==>
      && r.employee in es
      && r.employee.trainingDate.Some?
      && r.days == DaysDifference(now, r.employee.trainingDate)
      && r.status == StatusByDays(r.days)
      && r.daysToExpire == DaysThreshold - r.days
      && r.organization != [] && r.responsible != []
  {
    var d := Dated(es);
    var rows := seq(|d|, i requires 0 <= i < |d| => MakeRow(d[i], d[i].trainingDate.value, now));
    assert forall i :: 0 <= i < |d| ==> d[i] in d;
    forall i | 0 <= i < |rows|
      ensures rows[i].daysToExpire == DaysThreshold - rows[i].days
    {
      DaysToExpireIsRemainder(d[i], d[i].trainingDate.value, now);
    }
    rows
  }

  /** Number of rows with status `st`. */
  function CountStatus(rows: seq<Row>, st: Status): (n: nat)
    ensures n <= |rows|
  {
    if rows == [] then 0
    else CountStatus(rows[..|rows| - 1], st) + (if rows[|rows| - 1].status == st then 1 else 0)
  }

  /** Every row is in exactly one of the three buckets. */
  lemma {:induction false} StatusCountsPartition(rows: seq<Row>)
    ensures CountStatus(rows, Valid) + CountStatus(rows, Warning) + CountStatus(rows, Expired) == |rows|
  {
    if rows != [] {
      StatusCountsPartition(rows[..|rows| - 1]);
    }
  }

  /** The `counts` reduce: one increment per row, in the bucket of its status. */
  method CountStatuses(rows: seq<Row>) returns (valid: nat, warning: nat, expired: nat)
    ensures valid == CountStatus(rows, Valid)
    ensures warning == CountStatus(rows, Warning)
    ensures expired == CountStatus(rows, Expired)
    ensures valid + warning + expired == |rows|
  {
    valid, warning, expired := 0, 0, 0;
    for i := 0 to |rows|
      invariant valid == CountStatus(rows[..i], Valid)
      invariant warning == CountStatus(rows[..i], Warning)
      invariant expired == CountStatus(rows[..i], Expired)
    {
      assert rows[..i + 1][..i] == rows[..i];
      match rows[i].status
      case Valid => valid := valid + 1;
      case Warning => warning := warning + 1;
      case Expired => expired := expired + 1;
    }
    assert rows[..|rows|] == rows;
    StatusCountsPartition(rows);
  }

  /** `total === 0 ? 0 : (part / total) * 100`. */
  function Percent(part: nat, total: nat): (r: real)
    ensures total == 0 ==> r == 0.0
    ensures part <= total ==> 0.0 <= r <= 100.0 && r * (total as real) == (part as real) * 100.0
  {
    if total == 0 then 0.0 else (part as real / total as real) * 100.0
  }

  /** The share of valid rows, in percent. */
  function ConformityRate(rows: seq<Row>): (r: real)
    ensures 0.0 <= r <= 100.0
    ensures rows == [] ==> r == 0.0
  {
    Percent(CountStatus(rows, Valid), |rows|)
  }

  /** Sum of `max(0, days - DaysThreshold)` over the expired rows. */
  function OverdueSum(rows: seq<Row>): (n: nat)
    ensures CountStatus(rows, Expired) == 0 ==> n == 0
  {
    if rows == [] then 0
    else
      var r := rows[|rows| - 1];
      OverdueSum(rows[..|rows| - 1])
        + (if r.status == Expired then (if r.days - DaysThreshold > 0 then r.days - DaysThreshold else 0) else 0)
  }

  /** The mean overdue days over the expired rows; 0 when none has expired. */
  function AvgDaysOverdue(rows: seq<Row>): (r: real)
    ensures r >= 0.0
    ensures CountStatus(rows, Expired) == 0 ==> r == 0.0
    ensures r * (CountStatus(rows, Expired) as real) == OverdueSum(rows) as real
  {
    var n := CountStatus(rows, Expired);
    if n == 0 then 0.0 else OverdueSum(rows) as real / n as real
  }

  predicate InHorizon(r: Row, n: int) {
    0 <= r.daysToExpire <= n
  }

  /** `upcoming(n)`: rows whose expiry is between today and `n` days ahead. */
  function Upcoming(rows: seq<Row>, n: int): (c: nat)
    ensures c <= |rows|
  {
    if rows == [] then 0
    else Upcoming(rows[..|rows| - 1], n) + (if InHorizon(rows[|rows| - 1], n) then 1 else 0)
  }

  /** A longer horizon counts at least the rows a shorter one does. */
  lemma {:induction false} UpcomingMonotone(rows: seq<Row>, a: int, b: int)
    requires a <= b
    ensures Upcoming(rows, a) <= Upcoming(rows, b)
  {
    if rows != [] {
      UpcomingMonotone(rows[..|rows| - 1], a, b);
    }
  }

  /** Rows already past their due date are in no horizon. */
  lemma {:induction false} UpcomingSkipsOverdue(rows: seq<Row>, n: int)
    requires forall r :: r in rows ==> r.daysToExpire < 0
    ensures Upcoming(rows, n) == 0
  {
    if rows != [] {
      assert rows[|rows| - 1] in rows;
      UpcomingSkipsOverdue(rows[..|rows| - 1], n);
    }
  }

  /** For a derived row, being in horizon `n` means being between
      `DaysThreshold - n` and `DaysThreshold` days old: a row exactly
      `DaysThreshold` days old is both expired and due today. */
  lemma HorizonByDays(r: Row, n: int)
    requires r.daysToExpire == DaysThreshold - r.days
    ensures InHorizon(r, n) <==> DaysThreshold - n <= r.days <= DaysThreshold
  {
  }

  datatype GroupKey = ByOrganization | ByResponsible

  /** `r[key] || "—"`. */
  function KeyOf(r: Row, key: GroupKey): string {
    match key
    case ByOrganization => OrDash(r.organization)
    case ByResponsible => OrDash(r.responsible)
  }

  /** Number of rows in group `k`. */
  function CountKey(rows: seq<Row>, key: GroupKey, k: string): (n: nat)
    ensures n <= |rows|
  {
    if rows == [] then 0
    else CountKey(rows[..|rows| - 1], key, k) + (if KeyOf(rows[|rows| - 1], key) == k then 1 else 0)
  }

  /** Number of rows in group `k` with status `st`. */
  function CountKeyStatus(rows: seq<Row>, key: GroupKey, k: string, st: Status): (n: nat)
    ensures n <= CountKey(rows, key, k)
  {
    if rows == [] then 0
    else
      var r := rows[|rows| - 1];
      CountKeyStatus(rows[..|rows| - 1], key, k, st) + (if KeyOf(r, key) == k && r.status == st then 1 else 0)
  }

  /** The counters the loop keeps per group. */
  datatype Tally = Tally(total: nat, valid: nat, warning: nat, expired: nat)

  function TallyOf(rows: seq<Row>, key: GroupKey, k: string): Tally {
    Tally(CountKey(rows, key, k), CountKeyStatus(rows, key, k, Valid),
          CountKeyStatus(rows, key, k, Warning), CountKeyStatus(rows, key, k, Expired))
  }

  /** One more row of status `st` in a group. */
  function Bump(t: Tally, st: Status): Tally {
    match st
    case Valid => Tally(t.total + 1, t.valid + 1, t.warning, t.expired)
    case Warning => Tally(t.total + 1, t.valid, t.warning + 1, t.expired)
    case Expired => Tally(t.total + 1, t.valid, t.warning, t.expired + 1)
  }

  lemma TallyNext(rows: seq<Row>, i: nat, key: GroupKey, k: string)
    requires i < |rows|
    ensures TallyOf(rows[..i + 1], key, k)
         == if KeyOf(rows[i], key) == k then Bump(TallyOf(rows[..i], key, k), rows[i].status)
            else TallyOf(rows[..i], key, k)
  {
    assert rows[..i + 1][..i] == rows[..i];
  }

  lemma {:induction false} GroupPartition(rows: seq<Row>, key: GroupKey, k: string)
    ensures CountKey(rows, key, k)
         == CountKeyStatus(rows, key, k, Valid) + CountKeyStatus(rows, key, k, Warning)
          + CountKeyStatus(rows, key, k, Expired)
  {
    if rows != [] {
      GroupPartition(rows[..|rows| - 1], key, k);
    }
  }

  /** A group row of the output. */
  datatype Group = Group(
    name: string, total: nat, valid: nat, warning: nat, expired: nat,
    conformityRate: real, overdueRate: real)

  function MakeGroup(name: string, t: Tally): Group {
    Group(name, t.total, t.valid, t.warning, t.expired,
          Percent(t.valid, t.total), Percent(t.expired, t.total))
  }

  function GroupTotal(g: Group): int {
    g.total
  }

  /** Sum of the totals of the groups named in `order`. */
  function SumTally(order: seq<string>, m: map<string, Tally>): int
    requires forall k :: k in order ==> k in m
  {
    if order == [] then 0 else SumTally(order[..|order| - 1], m) + m[order[|order| - 1]].total
  }

  lemma {:induction false} SumTallyFrame(order: seq<string>, m1: map<string, Tally>, m2: map<string, Tally>)
    requires forall k :: k in order ==> k in m1 && k in m2 && m1[k].total == m2[k].total
    ensures SumTally(order, m1) == SumTally(order, m2)
  {
    if order != [] {
      SumTallyFrame(order[..|order| - 1], m1, m2);
    }
  }

  lemma {:induction false} SumTallyBump(order: seq<string>, m: map<string, Tally>, k: string, t: Tally)
    requires forall j :: j in order ==> j in m
    requires NoDup(order) && k in order && t.total == m[k].total + 1
    ensures SumTally(order, m[k := t]) == SumTally(order, m) + 1
  {
    var last := order[|order| - 1];
    var init := order[..|order| - 1];
    if last == k {
      assert k !in init;
      SumTallyFrame(init, m, m[k := t]);
    } else {
      assert k in init;
      SumTallyBump(init, m, k, t);
    }
  }

  lemma {:induction false} SumTallyGroups(order: seq<string>, m: map<string, Tally>, groups: seq<Group>)
    requires forall k :: k in order ==> k in m
    requires |groups| == |order|
    requires forall j :: 0 <= j < |order| ==> groups[j] == MakeGroup(order[j], m[order[j]])
    ensures SumBy(groups, GroupTotal) == SumTally(order, m)
  {
    if order != [] {
      SumTallyGroups(order[..|order| - 1], m, groups[..|groups| - 1]);
    }
  }

  lemma KeyCounted(rows: seq<Row>, key: GroupKey, i: nat)
    requires i < |rows|
    ensures CountKey(rows, key, KeyOf(rows[i], key)) > 0
    decreases |rows|
  {
    if i < |rows| - 1 {
      KeyCounted(rows[..|rows| - 1], key, i);
    }
  }

  ghost predicate RateSorted(gs: seq<Group>) {
    forall i, j :: 0 <= i < j < |gs| ==> gs[i].conformityRate <= gs[j].conformityRate
  }

  /** The counters in `m` are those of `rows`, and every group with a row has
      counters. */
  ghost predicate TalliesMatch(rows: seq<Row>, key: GroupKey, m: map<string, Tally>) {
    && (forall k :: k in m ==> m[k] == TallyOf(rows, key, k))
    && (forall k :: k !in m ==> CountKey(rows, key, k) == 0)
  }

  lemma NewTallyMatches(rows: seq<Row>, key: GroupKey, m: map<string, Tally>, k: string)
    requires TalliesMatch(rows, key, m) && k !in m
    ensures TalliesMatch(rows, key, m[k := Tally(0, 0, 0, 0)])
  {
    GroupPartition(rows, key, k);
  }

  lemma TallyStep(rows: seq<Row>, i: nat, key: GroupKey, m: map<string, Tally>)
    requires i < |rows| && KeyOf(rows[i], key) in m
    requires TalliesMatch(rows[..i], key, m)
    ensures TalliesMatch(rows[..i + 1], key, m[KeyOf(rows[i], key) := Bump(m[KeyOf(rows[i], key)], rows[i].status)])
  {
    var k := KeyOf(rows[i], key);
    var m' := m[k := Bump(m[k], rows[i].status)];
    forall j
      ensures j in m' ==> m'[j] == TallyOf(rows[..i + 1], key, j)
      ensures j !in m' ==> CountKey(rows[..i + 1], key, j) == 0
    {
      TallyNext(rows, i, key, j);
    }
  }

  /** The invariant of the `groupCompliance` loop after the rows `done`. */
  ghost predicate TallyLoop(done: seq<Row>, key: GroupKey, m: map<string, Tally>, order: seq<string>) {
    TallyLoopBut(done, key, m, order, []) && (forall k :: k in m ==> m[k].total > 0)
  }

  /** The invariant, except that the group `pending` may still be empty. */
  ghost predicate TallyLoopBut(done: seq<Row>, key: GroupKey, m: map<string, Tally>, order: seq<string>, pending: string) {
    && NoDup(order)
    && (forall k :: k in m <==> k in order)
    && TalliesMatch(done, key, m)
    && SumTally(order, m) == |done|
    && (forall k :: k in m && k != pending ==> m[k].total > 0)
  }

  /** `map.set(k, {total: 0, ...})` for a new group name. */
  lemma TallyLoopNewKey(done: seq<Row>, key: GroupKey, m: map<string, Tally>, order: seq<string>, k: string)
    requires TallyLoop(done, key, m, order) && k !in m
    ensures TallyLoopBut(done, key, m[k := Tally(0, 0, 0, 0)], order + [k], k)
  {
    var m1, order1 := m[k := Tally(0, 0, 0, 0)], order + [k];
    SumTallyFrame(order, m, m1);
    NewTallyMatches(done, key, m, k);
    assert order1[..|order|] == order;
  }

  /** `item.total += 1; item[r.status] += 1` for the group of row `i`. */
  lemma TallyLoopBump(rows: seq<Row>, i: nat, key: GroupKey, m: map<string, Tally>, order: seq<string>)
    requires i < |rows| && TallyLoopBut(rows[..i], key, m, order, KeyOf(rows[i], key))
    requires KeyOf(rows[i], key) in m
    ensures var k := KeyOf(rows[i], key);
            TallyLoop(rows[..i + 1], key, m[k := Bump(m[k], rows[i].status)], order)
  {
    var k := KeyOf(rows[i], key);
    SumTallyBump(order, m, k, Bump(m[k], rows[i].status));
    TallyStep(rows, i, key, m);
  }

  /** The loop of `groupCompliance`: a `Map` from group name to counters,
      filled row by row; `order` is the Map's insertion order. */
  method TallyRows(rows: seq<Row>, key: GroupKey) returns (m: map<string, Tally>, order: seq<string>)
    ensures TallyLoop(rows, key, m, order)
  {
    m, order := map[], [];
    for i := 0 to |rows|
      invariant TallyLoop(rows[..i], key, m, order)
    {
      var k := KeyOf(rows[i], key);
      if k !in m {
        TallyLoopNewKey(rows[..i], key, m, order, k);
        m := m[k := Tally(0, 0, 0, 0)];
        order := order + [k];
      }
      TallyLoopBump(rows, i, key, m, order);
      m := m[k := Bump(m[k], rows[i].status)];
    }
    assert rows[..|rows|] == rows;
  }

  /** `Array.from(map.values()).map(...)`: the groups with their rates, in
      insertion order. */
  function Groups(order: seq<string>, m: map<string, Tally>): (gs: seq<Group>)
    requires forall k :: k in order ==> k in m
    ensures |gs| == |order|
    ensures forall j :: 0 <= j < |order| ==> gs[j].name == order[j]
    ensures NoDup(order) ==> NoDup(gs)
    ensures SumBy(gs, GroupTotal) == SumTally(order, m)
  {
    var gs := seq(|order|, j requires 0 <= j < |order| => MakeGroup(order[j], m[order[j]]));
    SumTallyGroups(order, m, gs);
    gs
  }

  /** The group named `name`: its counters and rates over `rows`. */
  function GroupOf(rows: seq<Row>, key: GroupKey, name: string): (g: Group)
    ensures g.name == name
    ensures g.total == CountKey(rows, key, name)
    ensures g.total == g.valid + g.warning + g.expired
    ensures g.valid == CountKeyStatus(rows, key, name, Valid)
    ensures g.warning == CountKeyStatus(rows, key, name, Warning)
    ensures g.expired == CountKeyStatus(rows, key, name, Expired)
    ensures 0.0 <= g.conformityRate <= 100.0 && 0.0 <= g.overdueRate <= 100.0
    ensures g.conformityRate == Percent(g.valid, g.total)
    ensures g.overdueRate == Percent(g.expired, g.total)
  {
    GroupPartition(rows, key, name);
    var t := TallyOf(rows, key, name);
    assert t.valid <= t.total && t.expired <= t.total;
    var valid, expired := Percent(t.valid, t.total), Percent(t.expired, t.total);
    Group(name, t.total, t.valid, t.warning, t.expired, valid, expired)
  }

  /** `groupCompliance`: one group per distinct key with its counters and
      rates, sorted in place by conformity rate, worst first. */
  method GroupCompliance(rows: seq<Row>, key: GroupKey) returns (out: seq<Group>)
    ensures forall i, j :: 0 <= i < j < |out| ==> out[i].name != out[j].name
    ensures forall g :: g in out ==> g == GroupOf(rows, key, g.name) && g.total > 0
    ensures forall i :: 0 <= i < |rows| ==> exists g :: g in out && g.name == KeyOf(rows[i], key)
    ensures SumBy(out, GroupTotal) == |rows|
    ensures RateSorted(out)
  {
    var m, order := TallyRows(rows, key);
    var groups := Groups(order, m);
    var arr := new Group[|groups|](j requires 0 <= j < |groups| => groups[j]);
    assert arr[..] == groups;
    var byRate := (a: Group, b: Group) => a.conformityRate <= b.conformityRate;
    assert TotalPreorder(byRate);
    SortInPlace(arr, byRate);
    out := arr[..];
    SumByPerm(groups, out, GroupTotal);
    NoDupPerm(groups, out);
    GroupsOfTally(rows, key, m, order, groups, out);
  }

  /** What the sorted groups inherit from the tallies. */
  lemma GroupsOfTally(rows: seq<Row>, key: GroupKey, m: map<string, Tally>, order: seq<string>,
                      groups: seq<Group>, out: seq<Group>)
    requires TallyLoop(rows, key, m, order)
    requires groups == Groups(order, m)
    requires multiset(out) == multiset(groups) && NoDup(out)
    ensures forall i, j :: 0 <= i < j < |out| ==> out[i].name != out[j].name
    ensures forall g :: g in out ==> g == GroupOf(rows, key, g.name) && g.total > 0
    ensures forall i :: 0 <= i < |rows| ==> exists g :: g in out && g.name == KeyOf(rows[i], key)
  {
    SameMembers(out, groups);
    GroupsExact(rows, key, m, order, groups);
    GroupsCover(rows, key, m, order, groups);
    forall i, j | 0 <= i < j < |out| ensures out[i].name != out[j].name {
      assert out[i] in out && out[j] in out;
    }
  }

  /** Two permutations of each other hold the same values. */
  lemma SameMembers<T>(a: seq<T>, b: seq<T>)
    requires multiset(a) == multiset(b)
    ensures forall x :: x in a <==> x in b
  {
    forall x ensures x in a <==> x in b {
      assert x in a <==> x in multiset(a);
      assert x in b <==> x in multiset(b);
    }
  }

  lemma GroupsExact(rows: seq<Row>, key: GroupKey, m: map<string, Tally>, order: seq<string>,
                    groups: seq<Group>)
    requires TallyLoop(rows, key, m, order)
    requires groups == Groups(order, m)
    ensures forall g :: g in groups ==> g == GroupOf(rows, key, g.name) && g.total > 0
  {
    forall g | g in groups
      ensures g == GroupOf(rows, key, g.name) && g.total > 0
    {
      var j :| 0 <= j < |groups| && groups[j] == g;
      assert g.name == order[j] && g.name in m;
      assert g == MakeGroup(g.name, m[g.name]);
      assert m[g.name] == TallyOf(rows, key, g.name);
      if CountKey(rows, key, g.name) == 0 {
        GroupPartition(rows, key, g.name);
      }
    }
  }

  lemma GroupsCover(rows: seq<Row>, key: GroupKey, m: map<string, Tally>, order: seq<string>,
                    groups: seq<Group>)
    requires TallyLoop(rows, key, m, order)
    requires groups == Groups(order, m)
    ensures forall i :: 0 <= i < |rows| ==> exists g :: g in groups && g.name == KeyOf(rows[i], key)
  {
    forall i | 0 <= i < |rows|
      ensures exists g :: g in groups && g.name == KeyOf(rows[i], key)
    {
      KeyCounted(rows, key, i);
      var k := KeyOf(rows[i], key);
      assert k in order;
      var j :| 0 <= j < |order| && order[j] == k;
      assert groups[j] in groups && groups[j].name == k;
    }
  }

  lemma {:induction false} NoEmptyKey(rows: seq<Row>, key: GroupKey)
    ensures CountKey(rows, key, []) == 0
  {
    if rows != [] {
      NoEmptyKey(rows[..|rows| - 1], key);
    }
  }

  /** The result of `computeAnalytics`. */
  datatype Summary = Summary(
    total: nat,
    valid: nat, warning: nat, expired: nat,
    conformityRate: real,
    avgDaysOverdue: real,
    d7: nat, d14: nat, d30: nat,
    byOrg: seq<Group>,
    byManager: seq<Group>,
    rows: seq<Row>)

  /** `computeAnalytics(employees, getDaysDifference)` evaluated at `now`. */
  method ComputeAnalytics(employees: seq<Employee>, now: int) returns (a: Summary)
    ensures a.rows == Rows(employees, now) && a.total == |a.rows| == |Dated(employees)|
    ensures a.valid == CountStatus(a.rows, Valid)
    ensures a.warning == CountStatus(a.rows, Warning)
    ensures a.expired == CountStatus(a.rows, Expired)
    ensures a.valid + a.warning + a.expired == a.total
    ensures a.conformityRate == Percent(a.valid, a.total)
    ensures a.avgDaysOverdue == AvgDaysOverdue(a.rows)
    ensures a.d7 == Upcoming(a.rows, 7) && a.d14 == Upcoming(a.rows, 14) && a.d30 == Upcoming(a.rows, 30)
    ensures a.d7 <= a.d14 <= a.d30 <= a.total
    ensures RateSorted(a.byOrg) && SumBy(a.byOrg, GroupTotal) == a.total
    ensures RateSorted(a.byManager) && SumBy(a.byManager, GroupTotal) == a.total
    ensures forall g :: g in a.byOrg ==> g == GroupOf(a.rows, ByOrganization, g.name)
    ensures forall g :: g in a.byManager ==> g == GroupOf(a.rows, ByResponsible, g.name)
    ensures forall i, j :: 0 <= i < j < |a.byOrg| ==> a.byOrg[i].name != a.byOrg[j].name
    ensures forall i, j :: 0 <= i < j < |a.byManager| ==> a.byManager[i].name != a.byManager[j].name
    ensures forall i :: 0 <= i < |a.rows| ==> exists g :: g in a.byOrg && g.name == KeyOf(a.rows[i], ByOrganization)
    ensures forall i :: 0 <= i < |a.rows| ==> exists g :: g in a.byManager && g.name == KeyOf(a.rows[i], ByResponsible)
  {
    var rows := Rows(employees, now);
    var valid, warning, expired := CountStatuses(rows);
    UpcomingMonotone(rows, 7, 14);
    UpcomingMonotone(rows, 14, 30);
    var byOrg := GroupCompliance(rows, ByOrganization);
    var byManager := GroupCompliance(rows, ByResponsible);
    a := Summary(|rows|, valid, warning, expired, Percent(valid, |rows|), AvgDaysOverdue(rows),
                 Upcoming(rows, 7), Upcoming(rows, 14), Upcoming(rows, 30),
                 byOrg, byManager, rows);
  }

  /** An empty employee list yields zero counts and zero rates. */
  lemma EmptyAnalytics(now: int)
    ensures Rows([], now) == []
    ensures Percent(CountStatus([], Valid), |Rows([], now)|) == 0.0
    ensures AvgDaysOverdue(Rows([], now)) == 0.0
    ensures Upcoming(Rows([], now), 30) == 0
  {
  }
}
