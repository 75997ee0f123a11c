/** The checks on additional trainings shared by the employee form and the
    roster views: a training expires when its validity in months has run out. */
module TrainingChecks {
  import opened Wrappers
  import opened Dates
  import opened Roster

  /** The instant at which a training received on `c` and valid for `months`
      months runs out, in a browser `zone` away from UTC:
      `start.setMonth(start.getMonth() + months)` on `start = new Date(c)`,
      which is midnight UTC. At or east of Greenwich that instant is still
      the local date `c`; west of it, it is the evening of the day before,
      and the month step starts from there. The time of day is kept, so the
      expiry is a UTC midnight either way. */
  function ExpiryInstant(c: CivilDate, months: int, zone: Offset): (t: int)
    ensures t % MsPerDay == 0
    ensures zone >= 0 || c.day > 1 ==> t == AddMonths(c, months)
  {
    if zone >= 0 then AddMonths(c, months)
    else AddMonths(PrevDay(c), months) + MsPerDay
  }

  /** West of UTC, a date received on the first of a month starts from the
      last day of the month before: a one-month training received on
      March 1, 2023 runs out on March 29, not April 1. */
  lemma WestOfUtcExpiry()
    ensures ExpiryInstant(CivilDate(2023, 2, 1), 1, -5 * 3600000) == TimeValue(CivilDate(2023, 2, 29))
    ensures ExpiryInstant(CivilDate(2023, 2, 1), 1, 0) == TimeValue(CivilDate(2023, 3, 1))
  {
    var p := PrevDay(CivilDate(2023, 2, 1));
    assert p == CivilDate(2023, 1, 28);
    assert MakeDay(2023, 2, 28) + 1 == MakeDay(2023, 2, 29);
  }

  /** `isTrainingExpired(dateReceived, expiryMonths)` at the instant `now`: a
      missing date or a falsy validity never expires; otherwise the training
      has expired strictly after its expiry instant. */
  predicate IsTrainingExpired(dateReceived: Option<CivilDate>, expiryMonths: Option<int>, now: int, zone: Offset) {
    dateReceived.Some? && expiryMonths.Some?
    && now > ExpiryInstant(dateReceived.value, expiryMonths.value, zone)
  }

  predicate RecordExpired(t: TrainingRecord, now: int, zone: Offset) {
    IsTrainingExpired(t.dateReceived, t.expiryMonths, now, zone)
  }

  /** `hasExpiredAdditional(trainings)`: an empty list has none; otherwise
      `trainings.some(isTrainingExpired)`. */
  predicate HasExpiredAdditional(trainings: seq<TrainingRecord>, now: int, zone: Offset) {
    trainings != [] && (RecordExpired(trainings[0], now, zone) || HasExpiredAdditional(trainings[1..], now, zone))
  }

  /** The list has an expired training exactly when one of its entries has. */
  lemma {:induction false} HasExpiredAdditionalIff(trainings: seq<TrainingRecord>, now: int, zone: Offset)
    ensures HasExpiredAdditional(trainings, now, zone)
        <==> exists i :: 0 <= i < |trainings| && RecordExpired(trainings[i], now, zone)
  {
    if trainings != [] {
      HasExpiredAdditionalIff(trainings[1..], now, zone);
      if exists i :: 0 <= i < |trainings| && RecordExpired(trainings[i], now, zone) {
        var i :| 0 <= i < |trainings| && RecordExpired(trainings[i], now, zone);
        if i > 0 { assert trainings[1..][i - 1] == trainings[i]; }
      }
      if HasExpiredAdditional(trainings[1..], now, zone) {
        var j :| 0 <= j < |trainings[1..]| && RecordExpired(trainings[1..][j], now, zone);
        assert RecordExpired(trainings[j + 1], now, zone);
      }
    }
  }

  /** Expiry is permanent: a list with an expired training still has one later. */
  lemma {:induction false} HasExpiredAdditionalPersists(trainings: seq<TrainingRecord>, now: int, later: int, zone: Offset)
    requires now <= later
    requires HasExpiredAdditional(trainings, now, zone)
    ensures HasExpiredAdditional(trainings, later, zone)
  {
    if !RecordExpired(trainings[0], now, zone) {
      HasExpiredAdditionalPersists(trainings[1..], now, later, zone);
    }
  }

  /** A training valid for `months > 0` months is still valid for at least 28
      days per month after it was received, and has expired once 31 days per
      month have passed, in every zone (west of UTC for a date the date input
      can produce). */
  lemma ExpiryWindow(c: CivilDate, months: nat, now: int, zone: Offset)
    requires months > 0
    requires zone >= 0 || ValidDate(c)
    ensures now <= TimeValue(c) + 28 * months * MsPerDay ==> !IsTrainingExpired(Some(c), Some(months), now, zone)
    ensures now > TimeValue(c) + 31 * months * MsPerDay ==> IsTrainingExpired(Some(c), Some(months), now, zone)
  {
    if zone >= 0 {
      AddMonthsBounds(c, months);
    } else {
      var p := PrevDay(c);
      AddMonthsBounds(p, months);
      assert ExpiryInstant(c, months, zone) - TimeValue(c) == AddMonths(p, months) - TimeValue(p);
    }
  }

  /** The month overflow of `setMonth`: a one-month training received on
      January 31, 2023 is valid through March 3, 2023, 00:00, and expired
      right after, in every zone. */
  lemma Jan31TrainingExpiry(zone: Offset)
    ensures !IsTrainingExpired(Some(CivilDate(2023, 0, 31)), Some(1), TimeValue(CivilDate(2023, 2, 3)), zone)
    ensures IsTrainingExpired(Some(CivilDate(2023, 0, 31)), Some(1), TimeValue(CivilDate(2023, 2, 3)) + 1, zone)
  {
    Jan31PlusOneMonth();
  }

  /** A validity typed as "0" is truthy and adds no months, so the training
      has expired from the instant after it was received; a falsy validity
      never expires. */
  lemma TypedZeroExpiresOnReceipt(c: CivilDate, now: int, zone: Offset)
    requires zone >= 0 || ValidDate(c)
    ensures IsTrainingExpired(Some(c), Some(0), now, zone) <==> now > TimeValue(c)
    ensures !IsTrainingExpired(Some(c), None, now, zone)
  {
    if zone < 0 {
      assert AddMonths(PrevDay(c), 0) == TimeValue(PrevDay(c));
    }
  }
}
