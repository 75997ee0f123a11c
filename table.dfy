/** The employee table: the status cells of each row, the column sort
    toggle, and the search / status / profession filters followed by the
    sort that produce the rows on screen. */
module Table {
  import opened Wrappers
  import opened Dates
  import opened Text
  import opened Sorting
  import opened Roster
  import opened Lists

  // ---------------------------------------------------------------- status cells

  /** `getStatusInfo(trainingDate)`: the days elapsed, the two flags, and the
      date on which the training runs out. */
  datatype StatusInfo = StatusInfo(days: int, expired: bool, warning: bool, nextDate: int)

  /** The flags follow the thresholds; `nextDate` is the training date moved
      `DAYS_THRESHOLD` calendar days on with `setDate` (`new Date(null)` is
      the epoch). */
  function GetStatusInfo(now: int, trainingDate: Option<CivilDate>): (info: StatusInfo)
    ensures info.days == DaysDifference(now, trainingDate)
    ensures info.expired <==> info.days >= DaysThreshold
    ensures info.warning <==> WarningThreshold <= info.days < DaysThreshold
    ensures !(info.expired && info.warning)
    ensures info.nextDate == TrainingInstant(trainingDate) + DaysThreshold * MsPerDay
  {
    var days := DaysDifference(now, trainingDate);
    var next := match trainingDate
      case Some(c) => AddDays(c, DaysThreshold)
      case None => DaysThreshold * MsPerDay;
    StatusInfo(days, days >= DaysThreshold, days >= WarningThreshold && days < DaysThreshold, next)
  }

  /** A row is flagged expired from the instant its `nextDate` is reached,
      and in warning during the fifteen days before it. */
  lemma ExpiredFromNextDate(now: int, trainingDate: Option<CivilDate>)
    ensures var info := GetStatusInfo(now, trainingDate);
            info.expired <==> now >= info.nextDate
    ensures var info := GetStatusInfo(now, trainingDate);
            info.warning <==> info.nextDate - (DaysThreshold - WarningThreshold) * MsPerDay <= now < info.nextDate
  {
    var info := GetStatusInfo(now, trainingDate);
    var t := TrainingInstant(trainingDate);
    DaysAtLeast(now - t, info.days, DaysThreshold);
    DaysAtLeast(now - t, info.days, WarningThreshold);
  }

  /** Whole days `d` of an elapsed time `x` reach `n` exactly when `x` reaches
      `n` days. */
  lemma DaysAtLeast(x: int, d: int, n: int)
    requires d * MsPerDay <= x < d * MsPerDay + MsPerDay
    ensures d >= n <==> x >= n * MsPerDay
  {
    if d >= n {
      assert d * MsPerDay >= n * MsPerDay;
    } else {
      assert d + 1 <= n;
      assert (d + 1) * MsPerDay <= n * MsPerDay;
    }
  }

  /** The table's flags are the roster's three-way status. */
  lemma StatusInfoIsStatus(now: int, trainingDate: Option<CivilDate>)
    ensures var info := GetStatusInfo(now, trainingDate);
            && (info.expired <==> StatusByDays(info.days) == Expired)
            && (info.warning <==> StatusByDays(info.days) == Warning)
            && (!info.expired && !info.warning <==> StatusByDays(info.days) == Valid)
  {
  }

  // ---------------------------------------------------------------- sorting

  /** The sortable columns: `name`, `profession`, `trainingDate`, `days`. */
  datatype SortKey = ByName | ByProfession | ByTrainingDate | ByDays
  datatype Direction = Asc | Desc
  datatype SortConfig = SortConfig(key: SortKey, direction: Direction)

  /** `handleSort(key)`: a second click on the column sorted ascending turns
      it descending; any other click sorts the clicked column ascending. */
  function NextSort(current: SortConfig, key: SortKey): (next: SortConfig)
    ensures next.key == key
    ensures next.direction == Desc <==> current.key == key && current.direction == Asc
  {
    var direction := if current.key == key && current.direction == Asc then Desc else Asc;
    SortConfig(key, direction)
  }

  /** Clicking the same column over and over alternates the direction. */
  lemma NextSortAlternates(current: SortConfig, key: SortKey)
    ensures NextSort(NextSort(current, key), key).direction != NextSort(current, key).direction
    ensures NextSort(NextSort(NextSort(current, key), key), key) == NextSort(current, key)
  {
  }

  /** What a row is compared by: a number for the day count and the date,
      the lower-cased text (missing text as "") for the text columns. */
  datatype SortValue = Num(n: int) | Str(s: string)

  function ValueOf(key: SortKey, now: int, e: Employee): SortValue {
    match key
    case ByDays => Num(DaysDifference(now, e.trainingDate))
    case ByTrainingDate => Num(TrainingInstant(e.trainingDate))
    case ByName => Str(ToLower(e.name))
    case ByProfession => Str(ToLower(e.profession))
  }

  /** JavaScript's `<` on two values of the same column. */
  predicate Less(a: SortValue, b: SortValue) {
    match (a, b)
    case (Num(x), Num(y)) => x < y
    case (Str(x), Str(y)) => StrLess(x, y)
    case _ => false
  }

  /** The comparator of the pipeline does not put `y` before `x`: ascending,
      `x` is not greater than `y`; descending, `x` is not less than `y`. */
  predicate InOrder(cfg: SortConfig, now: int, x: Employee, y: Employee) {
    var a, b := ValueOf(cfg.key, now, x), ValueOf(cfg.key, now, y);
    if cfg.direction == Asc then !Less(b, a) else !Less(a, b)
  }

  lemma LessAsymmetric(a: SortValue, b: SortValue)
    requires Less(a, b)
    ensures !Less(b, a)
  {
    if a.Str? { StrLessAsymmetric(a.s, b.s); }
  }

  lemma NotLessTransitive(a: SortValue, b: SortValue, c: SortValue)
    requires a.Num? == b.Num? == c.Num?
    requires !Less(b, a) && !Less(c, b)
    ensures !Less(c, a)
  {
    if a.Str? { StrNotLessTransitive(a.s, b.s, c.s); }
  }

  /** The comparator is consistent, whatever the column and direction. */
  lemma InOrderTotalPreorder(cfg: SortConfig, now: int)
    ensures TotalPreorder((x, y) => InOrder(cfg, now, x, y))
  {
    forall x, y ensures InOrder(cfg, now, x, y) || InOrder(cfg, now, y, x) {
      var a, b := ValueOf(cfg.key, now, x), ValueOf(cfg.key, now, y);
      if Less(a, b) { LessAsymmetric(a, b); }
    }
    forall x, y, z | InOrder(cfg, now, x, y) && InOrder(cfg, now, y, z)
      ensures InOrder(cfg, now, x, z)
    {
      var a, b, c := ValueOf(cfg.key, now, x), ValueOf(cfg.key, now, y), ValueOf(cfg.key, now, z);
      if cfg.direction == Asc {
        NotLessTransitive(a, b, c);
      } else {
        NotLessTransitive(c, b, a);
      }
    }
  }

  // ---------------------------------------------------------------- filters

  /** The search box: a blank query keeps everybody; otherwise the
      lower-cased name must contain the lower-cased query as typed. */
  predicate SearchKeeps(query: string, e: Employee) {
    |Trim(query)| == 0 || Contains(ToLower(e.name), ToLower(query))
  }

  /** The status drop-down; an unknown value keeps everybody. */
  predicate StatusKeeps(filter: string, now: int, e: Employee) {
    var info := GetStatusInfo(now, e.trainingDate);
    if filter == "expired" then info.expired
    else if filter == "warning" then info.warning
    else if filter == "valid" then !info.expired && !info.warning
    else true
  }

  /** The profession drop-down: `'all'` or the exact profession. */
  predicate ProfessionKeeps(filter: string, e: Employee) {
    filter == "all" || e.profession == filter
  }

  /** A row passes all three filters. */
  predicate Passes(query: string, status: string, profession: string, now: int, e: Employee) {
    SearchKeeps(query, e) && StatusKeeps(status, now, e) && ProfessionKeeps(profession, e)
  }

  /** The search step, applied only to a non-blank query. */
  function Searched(es: seq<Employee>, query: string): (rows: seq<Employee>)
    ensures forall x :: multiset(rows)[x] == if SearchKeeps(query, x) then multiset(es)[x] else 0
  {
    if |Trim(query)| > 0 then Filter(es, (e: Employee) => Contains(ToLower(e.name), ToLower(query))) else es
  }

  /** The status step, skipped for `'all'`. */
  function ByStatus(es: seq<Employee>, status: string, now: int): (rows: seq<Employee>)
    ensures forall x :: multiset(rows)[x] == if StatusKeeps(status, now, x) then multiset(es)[x] else 0
  {
    if status != "all" then Filter(es, (e: Employee) => StatusKeeps(status, now, e)) else es
  }

  /** The profession step, skipped for `'all'`. */
  function ByProfession(es: seq<Employee>, profession: string): (rows: seq<Employee>)
    ensures forall x :: multiset(rows)[x] == if ProfessionKeeps(profession, x) then multiset(es)[x] else 0
  {
    if profession != "all" then Filter(es, (e: Employee) => e.profession == profession) else es
  }

  /** The three `result.filter(...)` steps in order: exactly the rows that
      pass remain, each as often as in the input. */
  function Filtered(es: seq<Employee>, query: string, status: string, profession: string, now: int)
    : (rows: seq<Employee>)
    ensures forall x :: multiset(rows)[x] == if Passes(query, status, profession, now, x) then multiset(es)[x] else 0
  {
    ByProfession(ByStatus(Searched(es, query), status, now), profession)
  }

  /** `result.sort(comparator)` on a copy: the same rows, ordered by the
      column in the direction. */
  method SortRows(rows: seq<Employee>, cfg: SortConfig, now: int) returns (sorted: seq<Employee>)
    ensures multiset(sorted) == multiset(rows)
    ensures forall i, j :: 0 <= i < j < |sorted| ==> InOrder(cfg, now, sorted[i], sorted[j])
  {
    var a := new Employee[|rows|](i requires 0 <= i < |rows| => rows[i]);
    assert a[..] == rows;
    var le := (x, y) => InOrder(cfg, now, x, y);
    InOrderTotalPreorder(cfg, now);
    SortInPlace(a, le);
    sorted := a[..];
  }

  /** The state of the table: the sort order and the three filters. */
  class EmployeeTable {
    var sortConfig: SortConfig
    var statusFilter: string
    var professionFilter: string
    var searchQuery: string

    /** Sorted by days, most first, with no filter. */
    constructor ()
      ensures sortConfig == SortConfig(ByDays, Desc)
      ensures statusFilter == "all" && professionFilter == "all" && searchQuery == ""
    {
      sortConfig := SortConfig(ByDays, Desc);
      statusFilter := "all";
      professionFilter := "all";
      searchQuery := "";
    }

    /** `handleSort(key)`: only the sort order changes. */
    method HandleSort(key: SortKey)
      modifies this
      ensures sortConfig == NextSort(old(sortConfig), key)
      ensures statusFilter == old(statusFilter) && professionFilter == old(professionFilter)
      ensures searchQuery == old(searchQuery)
    {
      sortConfig := NextSort(sortConfig, key);
    }

    /** `sortedAndFilteredEmployees`: a copy of the list, filtered and then
        sorted in place. Exactly the rows that pass the filters remain, each
        as often as in the input, and they are ordered by the chosen column in
        the chosen direction; the input list is left as it was. */
    method SortedAndFiltered(employees: seq<Employee>, now: int) returns (result: seq<Employee>)
      ensures forall x :: multiset(result)[x] == (if Passes(searchQuery, statusFilter, professionFilter, now, x)
                                                   then multiset(employees)[x] else 0)
      ensures forall i, j :: 0 <= i < j < |result| ==> InOrder(sortConfig, now, result[i], result[j])
    {
      var rows := Filtered(employees, searchQuery, statusFilter, professionFilter, now);
      result := SortRows(rows, sortConfig, now);
    }
  }

  // ---------------------------------------------------------------- professions

  function ProfessionsOf(es: seq<Employee>): (ps: seq<string>)
    ensures |ps| == |es| && forall i :: 0 <= i < |es| ==> ps[i] == es[i].profession
  {
    seq(|es|, i requires 0 <= i < |es| => es[i].profession)
  }

  /** The profession drop-down: `'all'`, then each non-empty profession once,
      in the order of first appearance. */
  function Professions(es: seq<Employee>): (r: seq<string>)
    ensures |r| >= 1 && r[0] == "all"
    ensures NoDup(r[1..])
    ensures forall p :: p in r[1..] <==> p != "" && exists i :: 0 <= i < |es| && es[i].profession == p
    ensures forall i :: 1 <= i < |r| ==> r[i] in ProfessionsOf(es)
    ensures forall i, j :: 1 <= i < j < |r| ==>
              FirstIndex(ProfessionsOf(es), r[i]) < FirstIndex(ProfessionsOf(es), r[j])
  {
    var ps := ProfessionsOf(es);
    var named := Distinct(Filter(ps, p => p != ""));
    forall i, j | 0 <= i < j < |named|
      ensures named[i] in ps && named[j] in ps && FirstIndex(ps, named[i]) < FirstIndex(ps, named[j])
    {
      DistinctInOrder(Filter(ps, p => p != ""), i, j);
      FilterFirstIndex(ps, p => p != "", named[i], named[j]);
    }
    assert forall p :: p in ps <==> exists i :: 0 <= i < |es| && es[i].profession == p by {
      forall p | p in ps ensures exists i :: 0 <= i < |es| && es[i].profession == p {
        var i :| 0 <= i < |ps| && ps[i] == p;
      }
    }
    assert (["all"] + named)[1..] == named;
    ["all"] + named
  }
}
