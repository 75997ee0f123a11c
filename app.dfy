/** The application shell: loading rows from the store into employees, the
    organisation list, the organisation filter and its expired count, the
    CSV report, and the employee list as add, update, delete and retrain
    change it. The store itself is outside the model: what it answers is
    passed in. */
module App {
  import opened Wrappers
  import opened Dates
  import opened Text
  import opened Sorting
  import opened Roster
  import opened Lists

  // ---------------------------------------------------------------- loading

  /** A row of the `employees` table; the optional columns may be `null`. */
  datatype StoredEmployee = StoredEmployee(
    id: int,
    name: string,
    profession: string,
    birthDate: Option<CivilDate>,
    trainingDate: Option<CivilDate>,
    responsible: Option<string>,
    comment: Option<string>,
    photoUrl: Option<string>,
    organization: Option<string>,
    additionalTrainings: Option<seq<TrainingRecord>>)

  /** `value || ""` on a nullable text column. */
  function OrEmpty(s: Option<string>): (r: string)
    ensures s.None? ==> r == ""
    ensures s.Some? ==> r == s.value
  {
    s.GetOr("")
  }

  /** `value || null` when a text field is written back. */
  function OrNull(s: string): (r: Option<string>)
    ensures OrEmpty(r) == s
    ensures r.Some? ==> r.value != ""
  {
    if s == "" then None else Some(s)
  }

  /** One row of `formatDataForApp`: missing text becomes "", missing
      trainings become the empty list; the rest is taken as it is. */
  function FormatEmployee(row: StoredEmployee): (e: Employee)
    ensures e.id == row.id && e.name == row.name && e.profession == row.profession
    ensures e.trainingDate == row.trainingDate && e.birthDate == row.birthDate
    ensures row.organization.None? ==> e.organization == ""
    ensures row.organization.Some? ==> e.organization == row.organization.value
    ensures row.responsible.None? ==> e.responsible == ""
    ensures row.responsible.Some? ==> e.responsible == row.responsible.value
    ensures row.photoUrl.None? ==> e.photoUrl == ""
    ensures row.photoUrl.Some? ==> e.photoUrl == row.photoUrl.value
    ensures row.comment.None? ==> e.comment == ""
    ensures row.comment.Some? ==> e.comment == row.comment.value
    ensures row.additionalTrainings.None? ==> e.additionalTrainings == []
    ensures row.additionalTrainings.Some? ==> e.additionalTrainings == row.additionalTrainings.value
  {
    Employee(row.id, row.name, row.profession, OrEmpty(row.organization), OrEmpty(row.responsible),
             row.birthDate, row.trainingDate, row.additionalTrainings.GetOr([]),
             OrEmpty(row.photoUrl), OrEmpty(row.comment))
  }

  /** `formatDataForApp(data)`. */
  function FormatDataForApp(data: seq<StoredEmployee>): (es: seq<Employee>)
    ensures |es| == |data|
    ensures forall i :: 0 <= i < |data| ==> es[i] == FormatEmployee(data[i])
  {
    seq(|data|, i requires 0 <= i < |data| => FormatEmployee(data[i]))
  }

  /** The row `addEmployee` inserts (empty text as `null`, no trainings as
      `[]`), with the id the store gives it. */
  function InsertedRow(e: Employee, id: int): StoredEmployee {
    StoredEmployee(id, e.name, e.profession, e.birthDate, e.trainingDate,
                   OrNull(e.responsible), OrNull(e.comment), OrNull(e.photoUrl),
                   OrNull(e.organization), Some(e.additionalTrainings))
  }

  /** Inserting an employee and reading the row back gives the same
      employee under its new id. */
  lemma InsertReadsBack(e: Employee, id: int)
    ensures FormatEmployee(InsertedRow(e, id)) == e.(id := id)
  {
    var r := InsertedRow(e, id);
    assert OrEmpty(r.responsible) == e.responsible && OrEmpty(r.comment) == e.comment;
    assert OrEmpty(r.photoUrl) == e.photoUrl && OrEmpty(r.organization) == e.organization;
  }

  // ---------------------------------------------------------------- organisations

  /** `orgs.filter(Boolean)`: the organisation names that are neither
      `null` nor empty, in their order. */
  function NamedOrgs(orgs: seq<Option<string>>): (texts: seq<string>)
    ensures forall o :: o in texts <==> o != "" && Some(o) in orgs
  {
    if |orgs| == 0 then []
    else
      assert orgs == [orgs[0]] + orgs[1..];
      (if orgs[0].Some? && orgs[0].value != "" then [orgs[0].value] else []) + NamedOrgs(orgs[1..])
  }

  /** `[...new Set(orgs.filter(Boolean))].sort()`: the organisations, each
      once, without the empty ones, in code-unit order. */
  method Organizations(orgs: seq<Option<string>>) returns (r: seq<string>)
    ensures NoDup(r)
    ensures forall o :: o in r <==> o != "" && Some(o) in orgs
    ensures forall i, j :: 0 <= i < j < |r| ==> StrLess(r[i], r[j])
  {
    var distinct := Distinct(NamedOrgs(orgs));
    r := SortStrings(distinct);
    NoDupPerm(distinct, r);
    SameMembers(distinct, r);
    forall i, j | 0 <= i < j < |r| ensures StrLess(r[i], r[j]) {
      StrLessTotal(r[i], r[j]);
    }
  }

  /** Two lists with the same multiset have the same members. */
  lemma SameMembers(a: seq<string>, b: seq<string>)
    requires multiset(a) == multiset(b)
    ensures forall o :: o in a <==> o in b
  {
    forall o ensures o in a <==> o in b {
      assert o in a <==> o in multiset(a);
      assert o in b <==> o in multiset(b);
    }
  }

  // ---------------------------------------------------------------- filter and count

  /** The organisation selector's value for "all organisations". */
  const AllOrganizations: string := "Все"

  /** `filteredEmployees`: everybody for "Все", otherwise exactly the
      employees of the selected organisation. */
  function FilteredEmployees(es: seq<Employee>, selected: string): (r: seq<Employee>)
    ensures selected == AllOrganizations ==> r == es
    ensures selected != AllOrganizations ==>
              forall x :: multiset(r)[x] == if x.organization == selected then multiset(es)[x] else 0
  {
    if selected == AllOrganizations then es
    else Filter(es, (e: Employee) => e.organization == selected)
  }

  /** The filter keeps the list's order: filtering two parts one after the
      other is filtering the whole. */
  lemma FilteredKeepsOrder(a: seq<Employee>, b: seq<Employee>, selected: string)
    ensures FilteredEmployees(a + b, selected) == FilteredEmployees(a, selected) + FilteredEmployees(b, selected)
  {
    if selected != AllOrganizations {
      FilterConcat(a, b, (e: Employee) => e.organization == selected);
    }
  }

  predicate Overdue(now: int, e: Employee) {
    DaysDifference(now, e.trainingDate) >= DaysThreshold
  }

  /** `expiredCount`: the shown employees whose training is
      `DAYS_THRESHOLD` days old or older. */
  function ExpiredCount(es: seq<Employee>, selected: string, now: int): (n: nat)
    ensures n <= |FilteredEmployees(es, selected)|
  {
    |Filter(FilteredEmployees(es, selected), (e: Employee) => Overdue(now, e))|
  }

  /** The shown employees are those counted as expired and the others. */
  lemma ExpiredCountSplits(es: seq<Employee>, selected: string, now: int)
    ensures ExpiredCount(es, selected, now)
          + |Filter(FilteredEmployees(es, selected), (e: Employee) => !Overdue(now, e))|
         == |FilteredEmployees(es, selected)|
  {
    FilterComplement(FilteredEmployees(es, selected), (e: Employee) => Overdue(now, e),
                     (e: Employee) => !Overdue(now, e));
  }

  /** Every element is kept by exactly one of two complementary filters. */
  lemma {:induction false} FilterComplement<T(!new)>(s: seq<T>, p: T -> bool, q: T -> bool)
    requires forall x :: q(x) <==> !p(x)
    ensures |Filter(s, p)| + |Filter(s, q)| == |s|
  {
    if |s| > 0 {
      FilterComplement(s[1..], p, q);
    }
  }

  // ---------------------------------------------------------------- CSV report

  /** The byte-order mark that opens the report. */
  const Bom: char := '\U{FEFF}'

  const Headers: seq<string> := ["ФИО", "Организация", "Профессия", "Дата инструктажа", "Статус"]

  /** The status column: due for retraining from `DAYS_THRESHOLD` days on. */
  function StatusText(days: int): (s: string)
    ensures s == "Переподготовка" <==> days >= DaysThreshold
    ensures s == "Актуален" <==> days < DaysThreshold
  {
    if days >= DaysThreshold then "Переподготовка" else "Актуален"
  }

  /** The five cells of an employee's line; `dateText` renders the training
      date as the store holds it (`null` as ""). */
  function CsvCells(e: Employee, now: int, dateText: Option<CivilDate> -> string): (cells: seq<string>)
    ensures |cells| == 5
  {
    [e.name, e.organization, e.profession, dateText(e.trainingDate),
     StatusText(DaysDifference(now, e.trainingDate))]
  }

  /** `[...].join(";")`: the cells as they are, without quoting. */
  function CsvLine(e: Employee, now: int, dateText: Option<CivilDate> -> string): string {
    Join(CsvCells(e, now, dateText), ";")
  }

  function CsvLines(es: seq<Employee>, now: int, dateText: Option<CivilDate> -> string): (lines: seq<string>)
    ensures |lines| == |es|
    ensures forall i :: 0 <= i < |es| ==> lines[i] == CsvLine(es[i], now, dateText)
  {
    seq(|es|, i requires 0 <= i < |es| => CsvLine(es[i], now, dateText))
  }

  /** `exportCSV`: the byte-order mark, the header line, a line feed, and the
      employees' lines separated by line feeds. */
  function ExportCsv(es: seq<Employee>, now: int, dateText: Option<CivilDate> -> string): string {
    [Bom] + (Join(Headers, ";") + "\n" + Join(CsvLines(es, now, dateText), "\n"))
  }

  /** A line whose cells hold no semicolon splits back into exactly its
      five cells. */
  lemma CsvLineSplits(e: Employee, now: int, dateText: Option<CivilDate> -> string)
    requires forall k :: 0 <= k < 5 ==> ';' !in CsvCells(e, now, dateText)[k]
    ensures Split(CsvLine(e, now, dateText), ';') == CsvCells(e, now, dateText)
  {
    SplitJoin(CsvCells(e, now, dateText), ';');
  }

  /** Without quoting, a semicolon inside a name opens a sixth column: a
      name such as "Иванов;Пётр" splits the line into six cells. */
  lemma SemicolonInNameShiftsColumns(e: Employee, now: int, dateText: Option<CivilDate> -> string,
                                     first: string, second: string)
    requires e.name == first + ";" + second && ';' !in first && ';' !in second
    requires forall k :: 1 <= k < 5 ==> ';' !in CsvCells(e, now, dateText)[k]
    ensures |Split(CsvLine(e, now, dateText), ';')| == 6
  {
    SplitCells(CsvCells(e, now, dateText), first, second);
  }

  /** A first cell holding one separator splits into two. */
  lemma SplitCells(c: seq<string>, first: string, second: string)
    requires |c| == 5 && c[0] == first + ";" + second && ';' !in first && ';' !in second
    requires forall k :: 1 <= k < 5 ==> ';' !in c[k]
    ensures Split(Join(c, ";"), ';') == [first, second] + c[1..]
  {
    var tail := Join(c[1..], ";");
    var parts := [first, second] + c[1..];
    assert parts[1..] == [second] + c[1..];
    assert parts[1..][1..] == c[1..];
    assert Join(parts, ";") == first + ";" + (second + ";" + tail);
    assert Join(c, ";") == (first + ";" + second) + ";" + tail;
    assert Join(parts, ";") == Join(c, ";");
    assert forall k :: 2 <= k < 6 ==> parts[k] == c[k - 1];
    SplitJoin(parts, ';');
  }

  /** The report opens with the byte-order mark; after it, it splits at
      line feeds into the header line and one line per shown employee, when
      no cell holds a line feed. */
  lemma ExportCsvLines(es: seq<Employee>, now: int, dateText: Option<CivilDate> -> string)
    requires forall i, k :: 0 <= i < |es| && 0 <= k < 5 ==> '\n' !in CsvCells(es[i], now, dateText)[k]
    ensures ExportCsv(es, now, dateText)[0] == Bom
    ensures |es| > 0 ==>
      Split(ExportCsv(es, now, dateText)[1..], '\n') == [Join(Headers, ";")] + CsvLines(es, now, dateText)
  {
    if |es| > 0 {
      LinesHaveNoFeed(es, now, dateText);
      SplitAfterMark(Bom, Join(Headers, ";"), CsvLines(es, now, dateText));
    }
  }

  /** A mark, a header line and body lines joined by line feeds split back
      into the header and the body lines. */
  lemma SplitAfterMark(mark: char, h: string, lines: seq<string>)
    requires |lines| > 0 && '\n' !in h
    requires forall i :: 0 <= i < |lines| ==> '\n' !in lines[i]
    ensures Split(([mark] + (h + "\n" + Join(lines, "\n")))[1..], '\n') == [h] + lines
  {
    var all := [h] + lines;
    var body := h + "\n" + Join(lines, "\n");
    assert all[1..] == lines;
    assert Join(all, "\n") == body;
    assert ([mark] + body)[1..] == body;
    SplitJoin(all, '\n');
  }

  /** No line of the report holds a line feed when no cell does. */
  lemma LinesHaveNoFeed(es: seq<Employee>, now: int, dateText: Option<CivilDate> -> string)
    requires forall i, k :: 0 <= i < |es| && 0 <= k < 5 ==> '\n' !in CsvCells(es[i], now, dateText)[k]
    ensures '\n' !in Join(Headers, ";")
    ensures forall i :: 0 <= i < |es| ==> '\n' !in CsvLines(es, now, dateText)[i]
  {
    var lines := CsvLines(es, now, dateText);
    JoinNoChar(Headers, ";", '\n');
    forall i | 0 <= i < |lines| ensures '\n' !in lines[i] {
      JoinNoChar(CsvCells(es[i], now, dateText), ";", '\n');
    }
  }

  /** Joining parts without `c` by a separator without `c` gives a text
      without `c`. */
  lemma {:induction false} JoinNoChar(parts: seq<string>, sep: string, c: char)
    requires c !in sep && forall k :: 0 <= k < |parts| ==> c !in parts[k]
    ensures c !in Join(parts, sep)
  {
    if |parts| > 1 {
      JoinNoChar(parts[1..], sep, c);
    }
  }

  // ---------------------------------------------------------------- the list

  /** What the user is told after an action. */
  datatype Notice = ValidationError | Added | Updated | Deleted | Retrained | DatabaseError | NoChange

  /** Ids of the list, in order. */
  function Ids(es: seq<Employee>): (ids: seq<int>)
    ensures |ids| == |es| && forall i :: 0 <= i < |es| ==> ids[i] == es[i].id
  {
    seq(|es|, i requires 0 <= i < |es| => es[i].id)
  }

  /** `prev.map(e => e.id === updated.id ? updated : e)`. */
  function Replaced(es: seq<Employee>, updated: Employee): (r: seq<Employee>)
    ensures |r| == |es|
    ensures forall i :: 0 <= i < |es| ==> r[i] == if es[i].id == updated.id then updated else es[i]
  {
    seq(|es|, i requires 0 <= i < |es| => if es[i].id == updated.id then updated else es[i])
  }

  /** An update keeps every id in its place, and a second identical update
      changes nothing. */
  lemma ReplacedKeepsIds(es: seq<Employee>, updated: Employee)
    ensures Ids(Replaced(es, updated)) == Ids(es)
    ensures Replaced(Replaced(es, updated), updated) == Replaced(es, updated)
  {
  }

  /** `prev.filter(e => e.id !== id)`. */
  function Removed(es: seq<Employee>, id: int): (r: seq<Employee>)
    ensures id !in Ids(r)
    ensures forall x :: multiset(r)[x] == if x.id == id then 0 else multiset(es)[x]
  {
    var r := Filter(es, (e: Employee) => e.id != id);
    assert forall i :: 0 <= i < |r| ==> r[i] in r;
    r
  }

  /** Deletion keeps the order of the employees that stay: the list is
      handled part by part, and one employee stays exactly when its id
      differs. */
  lemma RemovedKeepsOrder(a: seq<Employee>, b: seq<Employee>, id: int, e: Employee)
    ensures Removed(a + b, id) == Removed(a, id) + Removed(b, id)
    ensures Removed([e], id) == if e.id == id then [] else [e]
  {
    FilterConcat(a, b, (x: Employee) => x.id != id);
    assert [e][1..] == [];
  }

  /** Deleting an employee just added under a fresh id restores the list. */
  lemma RemoveAdded(es: seq<Employee>, e: Employee)
    requires e.id !in Ids(es)
    ensures Removed([e] + es, e.id) == es
  {
    FilterConcat([e], es, (x: Employee) => x.id != e.id);
    assert forall i :: 0 <= i < |es| ==> es[i].id != e.id by {
      forall i | 0 <= i < |es| ensures es[i].id != e.id {
        assert Ids(es)[i] == es[i].id;
      }
    }
  }

  /** `prev.map(e => e.id === id ? {...e, trainingDate: today} : e)`. */
  function RetrainedList(es: seq<Employee>, id: int, today: CivilDate): (r: seq<Employee>)
    ensures |r| == |es|
    ensures forall i :: 0 <= i < |es| ==>
              r[i] == if es[i].id == id then es[i].(trainingDate := Some(today)) else es[i]
  {
    seq(|es|, i requires 0 <= i < |es| => if es[i].id == id then es[i].(trainingDate := Some(today)) else es[i])
  }

  /** A retrained employee is valid again for the rest of the day of the
      retraining and long after: until `WARNING_THRESHOLD` days have passed. */
  lemma RetrainedIsValid(es: seq<Employee>, id: int, today: CivilDate, now: int, i: int)
    requires TimeValue(today) <= now < TimeValue(today) + WarningThreshold * MsPerDay
    requires 0 <= i < |es| && es[i].id == id
    ensures StatusByDays(DaysDifference(now, RetrainedList(es, id, today)[i].trainingDate)) == Valid
  {
    var d := DaysDifference(now, Some(today));
    assert d * MsPerDay <= now - TimeValue(today) < WarningThreshold * MsPerDay;
  }

  /** The employee list of the application. */
  class EmployeeList {
    var employees: seq<Employee>

    constructor (loaded: seq<StoredEmployee>)
      ensures employees == FormatDataForApp(loaded)
    {
      employees := FormatDataForApp(loaded);
    }

    /** `addEmployee(candidate)`: without a name or a training date nothing
        changes; otherwise the row the store answers (`None` when the insert
        fails) is put first. */
    method AddEmployee(candidate: Employee, inserted: Option<StoredEmployee>) returns (notice: Notice)
      modifies this
      ensures candidate.name == "" || candidate.trainingDate.None? ==>
                notice == ValidationError && employees == old(employees)
      ensures candidate.name != "" && candidate.trainingDate.Some? && inserted.None? ==>
                notice == DatabaseError && employees == old(employees)
      ensures candidate.name != "" && candidate.trainingDate.Some? && inserted.Some? ==>
                notice == Added && employees == [FormatEmployee(inserted.value)] + old(employees)
    {
      if candidate.name == "" || candidate.trainingDate.None? {
        return ValidationError;
      }
      if inserted.None? {
        return DatabaseError;
      }
      employees := [FormatDataForApp([inserted.value])[0]] + employees;
      notice := Added;
    }

    /** `updateEmployee(updated)`: the same validation; when the store
        accepts the update the employees with that id are replaced. */
    method UpdateEmployee(updated: Employee, stored: bool) returns (notice: Notice)
      modifies this
      ensures updated.name == "" || updated.trainingDate.None? ==>
                notice == ValidationError && employees == old(employees)
      ensures updated.name != "" && updated.trainingDate.Some? && !stored ==>
                notice == DatabaseError && employees == old(employees)
      ensures updated.name != "" && updated.trainingDate.Some? && stored ==>
                notice == Updated && employees == Replaced(old(employees), updated)
    {
      if updated.name == "" || updated.trainingDate.None? {
        return ValidationError;
      }
      if !stored {
        return DatabaseError;
      }
      employees := Replaced(employees, updated);
      notice := Updated;
    }

    /** `handleDelete(id)`: after the user confirms and the store deletes,
        the employees with that id leave the list. */
    method Delete(id: int, confirmed: bool, stored: bool) returns (notice: Notice)
      modifies this
      ensures !confirmed ==> notice == NoChange && employees == old(employees)
      ensures confirmed && !stored ==> notice == DatabaseError && employees == old(employees)
      ensures confirmed && stored ==> notice == Deleted && employees == Removed(old(employees), id)
    {
      if !confirmed {
        return NoChange;
      }
      if !stored {
        return DatabaseError;
      }
      employees := Removed(employees, id);
      notice := Deleted;
    }

    /** `handleRetrain(id)`: the training date of the employees with that id
        becomes today (`toISOString()`'s date, passed in). */
    method Retrain(id: int, today: CivilDate, stored: bool) returns (notice: Notice)
      modifies this
      ensures !stored ==> notice == DatabaseError && employees == old(employees)
      ensures stored ==> notice == Retrained && employees == RetrainedList(old(employees), id, today)
    {
      if !stored {
        return DatabaseError;
      }
      employees := RetrainedList(employees, id, today);
      notice := Retrained;
    }
  }
}
