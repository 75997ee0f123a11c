/** The employee roster as the browser application holds it, and the
    three-way training status every view derives from it. */
module Roster {
  import opened Wrappers
  import opened Dates

  /** Days after the primary training at which it has expired. */
  const DaysThreshold: int := 90
  /** Days after the primary training from which it is about to expire. */
  const WarningThreshold: int := 75

  /** An additional training: its type label, the date it was received and
      its validity in months. The validity follows JavaScript truthiness:
      `None` is a falsy field (missing, the empty text or the number 0) and
      `Some(n)` a truthy one whose `parseInt` is `n`, so the text "0" typed
      into the form is `Some(0)`. */
  datatype TrainingRecord = TrainingRecord(
    id: int, kind: string, dateReceived: Option<CivilDate>, expiryMonths: Option<int>)

  /** An employee as the application holds it after loading. Optional text
      fields hold "" when absent; a missing date is `None`. */
  datatype Employee = Employee(
    id: int,
    name: string,
    profession: string,
    organization: string,
    responsible: string,
    birthDate: Option<CivilDate>,
    trainingDate: Option<CivilDate>,
    additionalTrainings: seq<TrainingRecord>,
    photoUrl: string,
    comment: string)

  datatype Status = Valid | Warning | Expired

  /** The three-way status of a primary training `days` days old; both
      thresholds belong to the later class. */
  function StatusByDays(days: int): (s: Status)
    ensures s == Expired <==> days >= DaysThreshold
    ensures s == Warning <==> WarningThreshold <= days < DaysThreshold
    ensures s == Valid <==> days < WarningThreshold
  {
    if days >= DaysThreshold then Expired
    else if days >= WarningThreshold then Warning
    else Valid
  }

  /** The instant `new Date(trainingDate)` denotes; `new Date(null)` is the epoch. */
  function TrainingInstant(d: Option<CivilDate>): int {
    match d
    case Some(c) => TimeValue(c)
    case None => 0
  }

  /** Whole days elapsed from the training date to `now`, rounded down. */
  function DaysDifference(now: int, trainingDate: Option<CivilDate>): (days: int)
    ensures days * MsPerDay <= now - TrainingInstant(trainingDate) < days * MsPerDay + MsPerDay
  {
    DaysBetween(TrainingInstant(trainingDate), now)
  }

  /** Elapsed days only grow as time passes. */
  lemma DaysDifferenceMonotone(now: int, later: int, d: Option<CivilDate>)
    requires now <= later
    ensures DaysDifference(now, d) <= DaysDifference(later, d)
  {
    var a, b := DaysDifference(now, d), DaysDifference(later, d);
    assert (a - b) * MsPerDay < MsPerDay;
  }

  /** The status only moves forward (valid, then warning, then expired) as time passes. */
  lemma StatusMonotone(now: int, later: int, d: Option<CivilDate>)
    requires now <= later
    ensures StatusByDays(DaysDifference(now, d)) == Expired ==> StatusByDays(DaysDifference(later, d)) == Expired
    ensures StatusByDays(DaysDifference(later, d)) == Valid ==> StatusByDays(DaysDifference(now, d)) == Valid
  {
    DaysDifferenceMonotone(now, later, d);
  }
}
