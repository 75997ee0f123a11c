/** The employee form: its fields and error messages, validation, field
    edits, a new organisation typed by the user, the list of additional
    trainings with its add, remove and update steps, and the status the
    form shows for each training. */
module EmployeeForm {
  import opened Wrappers
  import opened Dates
  import opened Text
  import opened Lists
  import opened Roster
  import opened TrainingChecks

  // ---------------------------------------------------------------- fields

  /** The text fields of the form; dates are held as the text of the date
      input ("" when empty). */
  datatype FormField = Name | Profession | BirthDate | TrainingDate | Responsible
                     | Comment | PhotoUrl | Organization

  datatype FormData = FormData(
    name: string,
    profession: string,
    birthDate: string,
    trainingDate: string,
    responsible: string,
    comment: string,
    photoUrl: string,
    organization: string,
    additionalTrainings: seq<TrainingRecord>)

  /** The form of a new employee: every field empty, no trainings. */
  const EmptyForm: FormData := FormData("", "", "", "", "", "", "", "", [])

  function Get(f: FormData, field: FormField): string {
    match field
    case Name => f.name
    case Profession => f.profession
    case BirthDate => f.birthDate
    case TrainingDate => f.trainingDate
    case Responsible => f.responsible
    case Comment => f.comment
    case PhotoUrl => f.photoUrl
    case Organization => f.organization
  }

  /** `{...prev, [name]: value}`: the named field takes the value, every
      other field and the trainings stay. */
  function With(f: FormData, field: FormField, value: string): (r: FormData)
    ensures Get(r, field) == value
    ensures forall other :: other != field ==> Get(r, other) == Get(f, other)
    ensures r.additionalTrainings == f.additionalTrainings
  {
    match field
    case Name => f.(name := value)
    case Profession => f.(profession := value)
    case BirthDate => f.(birthDate := value)
    case TrainingDate => f.(trainingDate := value)
    case Responsible => f.(responsible := value)
    case Comment => f.(comment := value)
    case PhotoUrl => f.(photoUrl := value)
    case Organization => f.(organization := value)
  }

  // ---------------------------------------------------------------- validation

  const NameRequired: string := "ФИО обязательно"
  const ProfessionRequired: string := "Должность обязательна"
  const TrainingDateRequired: string := "Дата инструктажа обязательна"

  /** `!s?.trim()`: the text is empty once trimmed, that is, it holds
      nothing but white space (`TrimEmptyIffAllSpace`). */
  predicate Blank(s: string) {
    AllSpace(s)
  }

  /** The errors `validateForm` finds: a name or a profession that is empty
      after trimming, and an empty training date; nothing else. */
  predicate ExpectedErrors(f: FormData, errors: map<FormField, string>) {
    && (Name in errors <==> Blank(f.name))
    && (Profession in errors <==> Blank(f.profession))
    && (TrainingDate in errors <==> |f.trainingDate| == 0)
    && (forall k :: k in errors ==> k == Name || k == Profession || k == TrainingDate)
    && (Name in errors ==> errors[Name] == NameRequired)
    && (Profession in errors ==> errors[Profession] == ProfessionRequired)
    && (TrainingDate in errors ==> errors[TrainingDate] == TrainingDateRequired)
  }

  /** A form that passes validation also passes the application's own
      check: it has a name and a training date. */
  lemma ValidFormAccepted(f: FormData, errors: map<FormField, string>)
    requires ExpectedErrors(f, errors) && errors == map[]
    ensures |Trim(f.name)| > 0 && |Trim(f.profession)| > 0
    ensures f.name != "" && f.trainingDate != ""
  {
    TrimEmptyIffAllSpace(f.name);
    TrimEmptyIffAllSpace(f.profession);
  }

  // ---------------------------------------------------------------- training status

  /** What `checkTrainingStatus` answers. */
  datatype TrainingStatus = TrainingStatus(isExpired: bool, daysLeft: int)

  /** `checkTrainingStatus(dateReceived, months)` at the instant `now` in a
      browser `zone` away from UTC: with no date or a falsy validity, not
      expired and no days left; otherwise the days from today's local
      midnight to the expiry instant, rounded up, and expired once none are
      left. A period `parseInt` cannot read is `None` here, where the code
      shows NaN days. */
  function CheckTrainingStatus(dateReceived: Option<CivilDate>, months: Option<int>, now: int, zone: Offset): (st: TrainingStatus)
    ensures dateReceived.None? || months.None? ==> st == TrainingStatus(false, 0)
    ensures dateReceived.Some? && months.Some? ==>
              var left := ExpiryInstant(dateReceived.value, months.value, zone) - LocalMidnight(now, zone);
              (st.daysLeft - 1) * MsPerDay < left <= st.daysLeft * MsPerDay
    ensures st.isExpired <==> dateReceived.Some? && months.Some? && st.daysLeft <= 0
  {
    if dateReceived.None? || months.None? then TrainingStatus(false, 0)
    else
      var left := CeilDiv(ExpiryInstant(dateReceived.value, months.value, zone) - LocalMidnight(now, zone), MsPerDay);
      TrainingStatus(left <= 0, left)
  }

  /** The form counts a training as expired from the first local midnight at
      or after its expiry instant: `ZoneGap(zone)` after it, so at the
      instant itself only in UTC. */
  lemma FormExpiredFromExpiry(c: CivilDate, months: int, now: int, zone: Offset)
    ensures CheckTrainingStatus(Some(c), Some(months), now, zone).isExpired
        <==> now >= ExpiryInstant(c, months, zone) + ZoneGap(zone)
  {
    var e := ExpiryInstant(c, months, zone);
    NextLocalMidnightOfUtcMidnight(e, zone);
    LocalMidnightReached(e, now, zone);
  }

  /** A validity typed as "0" counts: the form shows the training expired
      from the first local midnight after it was received (the day received
      itself in UTC), while a falsy validity shows nothing. */
  lemma TypedZeroShownExpired(c: CivilDate, now: int, zone: Offset)
    requires zone >= 0 || ValidDate(c)
    ensures StatusLabel(CheckTrainingStatus(Some(c), Some(0), now, zone)) == "Истекло"
        <==> now >= TimeValue(c) + ZoneGap(zone)
    ensures CheckTrainingStatus(Some(c), None, now, zone) == TrainingStatus(false, 0)
  {
    FormExpiredFromExpiry(c, 0, now, zone);
    if zone < 0 {
      assert AddMonths(PrevDay(c), 0) == TimeValue(PrevDay(c));
    }
  }

  /** The form and `isTrainingExpired` part around the expiry instant: the
      form alone says expired at the instant itself, which happens only in
      UTC; the helper alone says expired from just after the instant until
      the next local midnight, which happens only away from UTC. */
  lemma FormAndHelperRules(c: CivilDate, months: int, now: int, zone: Offset)
    ensures var e := ExpiryInstant(c, months, zone);
            CheckTrainingStatus(Some(c), Some(months), now, zone).isExpired
              && !IsTrainingExpired(Some(c), Some(months), now, zone)
            <==> zone == 0 && now == e
    ensures var e := ExpiryInstant(c, months, zone);
            IsTrainingExpired(Some(c), Some(months), now, zone)
              && !CheckTrainingStatus(Some(c), Some(months), now, zone).isExpired
            <==> e < now < e + ZoneGap(zone)
  {
    FormExpiredFromExpiry(c, months, now, zone);
  }

  /** In Moscow (UTC+3), a one-year training received on January 15, 2024 is
      flagged by `isTrainingExpired` at 10:00 on January 15, 2025, while the
      form still shows one day left. */
  lemma MoscowExpiryDay()
    ensures var c, now, zone := CivilDate(2024, 0, 15), TimeValue(CivilDate(2025, 0, 15)) + 7 * 3600000, 3 * 3600000;
            IsTrainingExpired(Some(c), Some(12), now, zone)
            && CheckTrainingStatus(Some(c), Some(12), now, zone) == TrainingStatus(false, 1)
  {
    MonthCarry(2024, 0, 15);
    ExpiryMorningEastOfUtc(CivilDate(2024, 0, 15), 12, MakeDay(2025, 0, 15));
  }

  /** Three hours east of UTC, at 10:00 local time on the day a training
      runs out (seven hours after its expiry instant). */
  lemma ExpiryMorningEastOfUtc(c: CivilDate, months: int, k: int)
    requires ExpiryInstant(c, months, 3 * 3600000) == k * MsPerDay
    ensures var now, zone := k * MsPerDay + 7 * 3600000, 3 * 3600000;
            IsTrainingExpired(Some(c), Some(months), now, zone)
            && CheckTrainingStatus(Some(c), Some(months), now, zone) == TrainingStatus(false, 1)
  {
    var now, zone := k * MsPerDay + 7 * 3600000, 3 * 3600000;
    assert (now + zone) / MsPerDay == k;
    assert LocalMidnight(now, zone) == k * MsPerDay - zone;
    assert CeilDiv(zone, MsPerDay) == 1;
  }

  predicate RowExpired(t: TrainingRecord, now: int, zone: Offset) {
    CheckTrainingStatus(t.dateReceived, t.expiryMonths, now, zone).isExpired
  }

  /** `hasExpiredInList`: some training of the form has expired. */
  predicate HasExpiredInList(rows: seq<TrainingRecord>, now: int, zone: Offset) {
    exists i :: 0 <= i < |rows| && RowExpired(rows[i], now, zone)
  }

  /** A list the roster views flag is flagged by the form too, at once in UTC
      and by the next local midnight elsewhere. */
  lemma HelperFlagImpliesForm(rows: seq<TrainingRecord>, now: int, zone: Offset)
    requires HasExpiredAdditional(rows, now, zone)
    ensures HasExpiredInList(rows, now + ZoneGap(zone), zone)
  {
    HasExpiredAdditionalIff(rows, now, zone);
    var i :| 0 <= i < |rows| && RecordExpired(rows[i], now, zone);
    FormExpiredFromExpiry(rows[i].dateReceived.value, rows[i].expiryMonths.value, now + ZoneGap(zone), zone);
    assert RowExpired(rows[i], now + ZoneGap(zone), zone);
  }

  /** The label the form shows next to a training. */
  function StatusLabel(st: TrainingStatus): (shown: string)
    ensures shown == "Истекло" <==> st.isExpired
    ensures shown == "Скоро" <==> !st.isExpired && st.daysLeft <= 30
    ensures shown == "Актуально" <==> !st.isExpired && st.daysLeft > 30
  {
    if st.isExpired then "Истекло"
    else if st.daysLeft <= 30 then "Скоро"
    else "Актуально"
  }

  /** A training labelled "Скоро" expires within one to thirty days, or has
      no date or validity at all (then it shows zero days). */
  lemma SoonMeansWithinAMonth(dateReceived: Option<CivilDate>, months: Option<int>, now: int, zone: Offset)
    requires StatusLabel(CheckTrainingStatus(dateReceived, months, now, zone)) == "Скоро"
    ensures var st := CheckTrainingStatus(dateReceived, months, now, zone);
            if dateReceived.Some? && months.Some? then 1 <= st.daysLeft <= 30 else st.daysLeft == 0
  {
  }

  // ---------------------------------------------------------------- training rows

  /** The kind of a new training row: the first configured type, or "Прочее"
      when there is none. */
  function NewRowKind(types: seq<string>): (kind: string)
    ensures |types| > 0 && types[0] != "" ==> kind == types[0]
    ensures |types| == 0 || types[0] == "" ==> kind == "Прочее"
  {
    if |types| > 0 && types[0] != "" then types[0] else "Прочее"
  }

  /** One change `updateTrainingRow` can make: a field and its new value. */
  datatype TrainingUpdate = SetKind(kind: string) | SetDate(date: Option<CivilDate>) | SetMonths(months: Option<int>)

  /** `{...t, [field]: value}`. */
  function Apply(t: TrainingRecord, u: TrainingUpdate): (r: TrainingRecord)
    ensures r.id == t.id
    ensures r.kind == (if u.SetKind? then u.kind else t.kind)
    ensures r.dateReceived == (if u.SetDate? then u.date else t.dateReceived)
    ensures r.expiryMonths == (if u.SetMonths? then u.months else t.expiryMonths)
  {
    match u
    case SetKind(k) => t.(kind := k)
    case SetDate(d) => t.(dateReceived := d)
    case SetMonths(m) => t.(expiryMonths := m)
  }

  /** The rows after `updateTrainingRow(id, ...)`. */
  function UpdatedRows(rows: seq<TrainingRecord>, id: int, u: TrainingUpdate): (r: seq<TrainingRecord>)
    ensures |r| == |rows|
    ensures forall i :: 0 <= i < |rows| ==> r[i] == if rows[i].id == id then Apply(rows[i], u) else rows[i]
  {
    seq(|rows|, i requires 0 <= i < |rows| => if rows[i].id == id then Apply(rows[i], u) else rows[i])
  }

  /** An update keeps every row's id in place, and repeating it changes
      nothing more. */
  lemma UpdatedRowsIdempotent(rows: seq<TrainingRecord>, id: int, u: TrainingUpdate)
    ensures forall i :: 0 <= i < |rows| ==> UpdatedRows(rows, id, u)[i].id == rows[i].id
    ensures UpdatedRows(UpdatedRows(rows, id, u), id, u) == UpdatedRows(rows, id, u)
  {
    var once := UpdatedRows(rows, id, u);
    forall i | 0 <= i < |rows| ensures UpdatedRows(once, id, u)[i] == once[i] {
      if rows[i].id == id {
        assert Apply(Apply(rows[i], u), u) == Apply(rows[i], u);
      }
    }
  }

  /** The rows after `removeTrainingRow(id)`. */
  function RemovedRows(rows: seq<TrainingRecord>, id: int): (r: seq<TrainingRecord>)
    ensures forall i :: 0 <= i < |r| ==> r[i].id != id
    ensures forall x :: multiset(r)[x] == if x.id == id then 0 else multiset(rows)[x]
  {
    var r := Filter(rows, (t: TrainingRecord) => t.id != id);
    assert forall i :: 0 <= i < |r| ==> r[i] in r;
    r
  }

  /** Removal keeps the order of the rows that stay: the list is handled
      part by part, and one row stays exactly when its id differs. */
  lemma RemovedRowsKeepOrder(a: seq<TrainingRecord>, b: seq<TrainingRecord>, id: int, t: TrainingRecord)
    ensures RemovedRows(a + b, id) == RemovedRows(a, id) + RemovedRows(b, id)
    ensures RemovedRows([t], id) == if t.id == id then [] else [t]
  {
    FilterConcat(a, b, (x: TrainingRecord) => x.id != id);
    assert [t][1..] == [];
  }

  /** Removing a row just added under a fresh id restores the list. */
  lemma RemoveAddedRow(rows: seq<TrainingRecord>, t: TrainingRecord)
    requires forall i :: 0 <= i < |rows| ==> rows[i].id != t.id
    ensures RemovedRows(rows + [t], t.id) == rows
  {
    FilterConcat(rows, [t], (x: TrainingRecord) => x.id != t.id);
  }

  // ---------------------------------------------------------------- the form

  /** The state of the form: the data being edited and the error shown per
      field. */
  class EmployeeFormState {
    var form: FormData
    var errors: map<FormField, string>

    /** The form opens on the employee being edited, or empty. */
    constructor (editing: Option<FormData>)
      ensures form == editing.GetOr(EmptyForm) && errors == map[]
    {
      form := editing.GetOr(EmptyForm);
      errors := map[];
    }

    /** `validateForm`: the errors are found field by field and replace the
        old ones; the form passes when there are none. */
    method Validate() returns (ok: bool)
      modifies this
      ensures form == old(form)
      ensures ExpectedErrors(form, errors)
      ensures ok <==> errors == map[]
    {
      var f := form;
      var blankName, blankProfession := Blank(f.name), Blank(f.profession);
      var found: map<FormField, string> := map[];
      if blankName {
        found := found[Name := NameRequired];
      }
      if blankProfession {
        found := found[Profession := ProfessionRequired];
      }
      if |f.trainingDate| == 0 {
        found := found[TrainingDate := TrainingDateRequired];
      }
      errors := found;
      ok := !blankName && !blankProfession && |f.trainingDate| > 0;
    }

    /** `handleChange`: the field takes the value; a shown error on that
        field is cleared, the other errors stay. */
    method HandleChange(field: FormField, value: string)
      modifies this
      ensures form == With(old(form), field, value)
      ensures field in old(errors) && old(errors)[field] != "" ==> errors == old(errors)[field := ""]
      ensures !(field in old(errors) && old(errors)[field] != "") ==> errors == old(errors)
    {
      form := With(form, field, value);
      if field in errors && errors[field] != "" {
        errors := errors[field := ""];
      }
    }

    /** `handleAddNewOrg`: the answer to the prompt (`None` when cancelled)
        becomes the organisation, trimmed, unless it is blank. */
    method HandleAddNewOrg(answer: Option<string>)
      modifies this
      ensures answer.Some? && |Trim(answer.value)| > 0 ==>
                form == old(form).(organization := Trim(answer.value))
      ensures !(answer.Some? && |Trim(answer.value)| > 0) ==> form == old(form)
      ensures errors == old(errors)
    {
      if answer.Some? && |Trim(answer.value)| > 0 {
        form := form.(organization := Trim(answer.value));
      }
    }

    /** `addTrainingRow`: one row is appended, identified by the current
        instant, received today and valid for twelve months. */
    method AddTrainingRow(now: int, today: CivilDate, types: seq<string>)
      modifies this
      ensures form == old(form).(additionalTrainings := old(form).additionalTrainings
                                  + [TrainingRecord(now, NewRowKind(types), Some(today), Some(12))])
      ensures errors == old(errors)
    {
      var row := TrainingRecord(now, NewRowKind(types), Some(today), Some(12));
      form := form.(additionalTrainings := form.additionalTrainings + [row]);
    }

    /** `removeTrainingRow(id)`. */
    method RemoveTrainingRow(id: int)
      modifies this
      ensures form == old(form).(additionalTrainings := RemovedRows(old(form).additionalTrainings, id))
      ensures errors == old(errors)
    {
      form := form.(additionalTrainings := RemovedRows(form.additionalTrainings, id));
    }

    /** `updateTrainingRow(id, field, value)`. */
    method UpdateTrainingRow(id: int, u: TrainingUpdate)
      modifies this
      ensures form == old(form).(additionalTrainings := UpdatedRows(old(form).additionalTrainings, id, u))
      ensures errors == old(errors)
    {
      form := form.(additionalTrainings := UpdatedRows(form.additionalTrainings, id, u));
    }
  }
}
