/** The organisation document checklist: one row per organisation of the
    roster, each with a map from document name to "present"; rows come from
    the store when it has one for the organisation and from the default
    checklist otherwise. A check toggles one document of one organisation; a
    new column adds a document to every row. */
module OrgManager {
  import opened Wrappers
  import opened Sorting
  import opened Lists
  import opened Roster

  /** A row of `organization_docs`. */
  datatype OrgDocs = OrgDocs(orgName: string, docsStatus: map<string, bool>)

  function OrgsOf(es: seq<Employee>): (os: seq<string>)
    ensures |os| == |es| && forall i :: 0 <= i < |es| ==> os[i] == es[i].organization
  {
    seq(|es|, i requires 0 <= i < |es| => es[i].organization)
  }

  /** `uniqueOrgs`: the organisations named in the roster, each once, in the
      order of first appearance; nothing when there is no roster array. */
  function UniqueOrgs(employees: Option<seq<Employee>>): (orgs: seq<string>)
    ensures NoDup(orgs)
    ensures employees.None? ==> orgs == []
    ensures employees.Some? ==>
              forall o :: o in orgs <==> o != "" && exists i :: 0 <= i < |employees.value| && employees.value[i].organization == o
    ensures employees.Some? ==> forall i :: 0 <= i < |orgs| ==> orgs[i] in OrgsOf(employees.value)
    ensures employees.Some? ==> forall i, j :: 0 <= i < j < |orgs| ==>
              FirstIndex(OrgsOf(employees.value), orgs[i]) < FirstIndex(OrgsOf(employees.value), orgs[j])
  {
    if employees.None? then []
    else
      var es := employees.value;
      var names := OrgsOf(es);
      var orgs := Distinct(Filter(names, (o: string) => o != ""));
      forall i, j | 0 <= i < j < |orgs|
        ensures orgs[i] in names && orgs[j] in names && FirstIndex(names, orgs[i]) < FirstIndex(names, orgs[j])
      {
        DistinctInOrder(Filter(names, (o: string) => o != ""), i, j);
        FilterFirstIndex(names, (o: string) => o != "", orgs[i], orgs[j]);
      }
      assert forall o :: o in names <==> exists i :: 0 <= i < |es| && es[i].organization == o by {
        forall o | o in names ensures exists i :: 0 <= i < |es| && es[i].organization == o {
          var i :| 0 <= i < |names| && names[i] == o;
        }
      }
      orgs
  }

  /** The six documents of a new checklist. */
  const DocKeys: seq<string> := ["Акт допуск", "Приказы", "Удостоверения", "Проектная док.", "Инструкции", "Журналы"]

  /** `getDefaultDocs()`: the six documents, none present yet. */
  function DefaultDocs(): (docs: map<string, bool>)
    ensures forall k :: k in docs <==> k in DocKeys
    ensures forall k :: k in docs ==> !docs[k]
  {
    map k | k in DocKeys :: false
  }

  /** The six default documents are different names. */
  lemma DefaultDocsHasSix()
    ensures |DocKeys| == 6 && NoDup(DocKeys)
  {
  }

  /** `rows.find(d => d.org_name === name)`, as a position: the first row
      with that name, or `|rows|` when there is none. */
  function FindRow(rows: seq<OrgDocs>, name: string): (i: nat)
    ensures i <= |rows|
    ensures forall j :: 0 <= j < i ==> rows[j].orgName != name
    ensures i < |rows| ==> rows[i].orgName == name
  {
    if |rows| == 0 then 0
    else if rows[0].orgName == name then 0
    else 1 + FindRow(rows[1..], name)
  }

  /** The row the merge shows for an organisation: the first stored row
      for it, or a fresh default checklist. */
  function RowFor(stored: seq<OrgDocs>, name: string): (row: OrgDocs)
    ensures row.orgName == name
    ensures FindRow(stored, name) < |stored| ==> row == stored[FindRow(stored, name)]
    ensures FindRow(stored, name) == |stored| ==> row == OrgDocs(name, DefaultDocs())
  {
    var i := FindRow(stored, name);
    if i < |stored| then stored[i] else OrgDocs(name, DefaultDocs())
  }

  /** The merge in `fetchDocs`: one row per organisation, in the same order. */
  function Merge(orgs: seq<string>, stored: seq<OrgDocs>): (rows: seq<OrgDocs>)
    ensures |rows| == |orgs|
    ensures forall i :: 0 <= i < |orgs| ==> rows[i].orgName == orgs[i]
    ensures forall i :: 0 <= i < |orgs| ==> rows[i] == RowFor(stored, orgs[i])
  {
    seq(|orgs|, i requires 0 <= i < |orgs| => RowFor(stored, orgs[i]))
  }

  /** The names of the rows. */
  function Names(rows: seq<OrgDocs>): (names: seq<string>)
    ensures |names| == |rows| && forall i :: 0 <= i < |rows| ==> names[i] == rows[i].orgName
  {
    seq(|rows|, i requires 0 <= i < |rows| => rows[i].orgName)
  }

  /** Merging the unique organisations gives rows with different names. */
  lemma MergedNamesDistinct(employees: Option<seq<Employee>>, stored: seq<OrgDocs>)
    ensures Names(Merge(UniqueOrgs(employees), stored)) == UniqueOrgs(employees)
    ensures NoDup(Names(Merge(UniqueOrgs(employees), stored)))
  {
  }

  /** Whether a document is ticked: a missing key reads as not ticked. */
  function Ticked(docs: map<string, bool>, key: string): (on: bool)
    ensures on <==> key in docs && docs[key]
  {
    key in docs && docs[key]
  }

  /** `{...docs, [key]: !docs[key]}`: the document flips, a missing one
      becomes ticked; the others stay. */
  function Toggled(docs: map<string, bool>, key: string): (r: map<string, bool>)
    ensures key in r && r[key] == !Ticked(docs, key)
    ensures forall k :: k != key ==> (k in r <==> k in docs) && (k in docs ==> r[k] == docs[k])
  {
    docs[key := !Ticked(docs, key)]
  }

  /** Toggling a present document twice gives the checklist back. */
  lemma ToggledTwice(docs: map<string, bool>, key: string)
    requires key in docs
    ensures Toggled(Toggled(docs, key), key) == docs
  {
  }

  /** The rows after `handleCheck(orgName, key)`: every row of that name
      takes the first such row's checklist with the document flipped;
      nothing changes when no row has that name. */
  function Checked(rows: seq<OrgDocs>, orgName: string, key: string): (r: seq<OrgDocs>)
    ensures |r| == |rows| && Names(r) == Names(rows)
    ensures FindRow(rows, orgName) == |rows| ==> r == rows
    ensures FindRow(rows, orgName) < |rows| ==>
              forall i :: 0 <= i < |rows| ==>
                r[i] == if rows[i].orgName == orgName
                        then rows[i].(docsStatus := Toggled(rows[FindRow(rows, orgName)].docsStatus, key))
                        else rows[i]
  {
    var t := FindRow(rows, orgName);
    if t == |rows| then rows
    else
      var updated := Toggled(rows[t].docsStatus, key);
      seq(|rows|, i requires 0 <= i < |rows| =>
        if rows[i].orgName == orgName then rows[i].(docsStatus := updated) else rows[i])
  }

  /** With different names, checking the same present document twice
      restores the checklist. */
  lemma CheckedTwice(rows: seq<OrgDocs>, orgName: string, key: string)
    requires NoDup(Names(rows))
    requires forall i :: 0 <= i < |rows| && rows[i].orgName == orgName ==> key in rows[i].docsStatus
    ensures Checked(Checked(rows, orgName, key), orgName, key) == rows
  {
    var t := FindRow(rows, orgName);
    if t < |rows| {
      var once := Checked(rows, orgName, key);
      assert Names(once)[t] == orgName;
      assert FindRow(once, orgName) == t by {
        forall j | 0 <= j < t ensures once[j].orgName != orgName {
          assert Names(once)[j] == Names(rows)[j];
        }
      }
      var twice := Checked(once, orgName, key);
      forall i | 0 <= i < |rows| ensures twice[i] == rows[i] {
        if rows[i].orgName == orgName {
          assert Names(rows)[i] == Names(rows)[t];
          ToggledTwice(rows[t].docsStatus, key);
        }
      }
    }
  }

  /** The rows after `addColumn` with the name `name`: every checklist gets
      the document, not ticked, including one that already had it. */
  function WithColumn(rows: seq<OrgDocs>, name: string): (r: seq<OrgDocs>)
    ensures |r| == |rows| && Names(r) == Names(rows)
    ensures forall i :: 0 <= i < |rows| ==>
              name in r[i].docsStatus && !r[i].docsStatus[name]
              && (forall k :: k != name ==>
                    (k in r[i].docsStatus <==> k in rows[i].docsStatus)
                    && (k in rows[i].docsStatus ==> r[i].docsStatus[k] == rows[i].docsStatus[k]))
  {
    seq(|rows|, i requires 0 <= i < |rows| => rows[i].(docsStatus := rows[i].docsStatus[name := false]))
  }

  /** After a new column, checking it ticks it for that organisation. */
  lemma CheckNewColumn(rows: seq<OrgDocs>, name: string, orgName: string)
    requires FindRow(rows, orgName) < |rows|
    ensures var r := Checked(WithColumn(rows, name), orgName, name);
            forall i :: 0 <= i < |rows| && rows[i].orgName == orgName ==> Ticked(r[i].docsStatus, name)
  {
    var w := WithColumn(rows, name);
    var t := FindRow(rows, orgName);
    assert Names(w)[t] == orgName;
    assert FindRow(w, orgName) <= t;
  }

  /** The checklist table of the organisation manager. */
  class OrganizationManager {
    var docsData: seq<OrgDocs>

    constructor ()
      ensures docsData == []
    {
      docsData := [];
    }

    /** `fetchDocs`: with the stored rows (`None` when the query fails, an
        empty list when the table is empty) the table becomes the merge;
        after a failure it stays as it was. */
    method FetchDocs(orgs: seq<string>, stored: Option<seq<OrgDocs>>)
      modifies this
      ensures stored.None? ==> docsData == old(docsData)
      ensures stored.Some? ==> docsData == Merge(orgs, stored.value)
    {
      if stored.Some? {
        docsData := Merge(orgs, stored.value);
      }
    }

    /** `handleCheck(orgName, key)`. */
    method HandleCheck(orgName: string, key: string)
      modifies this
      ensures docsData == Checked(old(docsData), orgName, key)
    {
      docsData := Checked(docsData, orgName, key);
    }

    /** `addColumn`: the answer to the prompt (`None` when cancelled); an
        empty name changes nothing. */
    method AddColumn(answer: Option<string>)
      modifies this
      ensures answer.None? || answer.value == "" ==> docsData == old(docsData)
      ensures answer.Some? && answer.value != "" ==> docsData == WithColumn(old(docsData), answer.value)
    {
      if answer.Some? && answer.value != "" {
        docsData := WithColumn(docsData, answer.value);
      }
    }
  }
}
