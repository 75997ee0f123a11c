/** The list of toast notifications: added at the end with the current
    instant as id, removed by id, or all at once. A notification shown for a
    positive duration has a timer that removes it; removing it earlier
    cancels that timer. The timers themselves are not modelled, only which
    notifications have one. */
module Notifications {
  import opened Wrappers
  import opened Lists

  datatype Notification = Notification(id: int, message: string, kind: string, hasTimer: bool)

  const DefaultKind: string := "success"
  const DefaultDuration: int := 4000

  /** The notification `addNotification` creates at the instant `now`; an
      omitted type or duration takes its default. */
  function NewNotification(message: string, kind: Option<string>, duration: Option<int>, now: int): (n: Notification)
    ensures n.id == now && n.message == message
    ensures kind.None? ==> n.kind == DefaultKind
    ensures kind.Some? ==> n.kind == kind.value
    ensures n.hasTimer <==> duration.None? || duration.value > 0
  {
    Notification(now, message, kind.GetOr(DefaultKind), duration.GetOr(DefaultDuration) > 0)
  }

  /** `prev.filter(n => n.id !== id)`. */
  function Without(ns: seq<Notification>, id: int): (r: seq<Notification>)
    ensures forall i :: 0 <= i < |r| ==> r[i].id != id
    ensures forall x :: multiset(r)[x] == if x.id == id then 0 else multiset(ns)[x]
    ensures (forall i :: 0 <= i < |ns| ==> ns[i].id != id) ==> r == ns
  {
    var r := Filter(ns, (n: Notification) => n.id != id);
    assert forall i :: 0 <= i < |r| ==> r[i] in r;
    r
  }

  /** Removing a notification just added under a fresh id restores the list. */
  lemma WithoutAdded(ns: seq<Notification>, n: Notification)
    requires forall i :: 0 <= i < |ns| ==> ns[i].id != n.id
    ensures Without(ns + [n], n.id) == ns
  {
    FilterConcat(ns, [n], (x: Notification) => x.id != n.id);
  }

  /** Removal keeps the order of the notifications that stay. */
  lemma WithoutKeepsOrder(a: seq<Notification>, b: seq<Notification>, id: int)
    ensures Without(a + b, id) == Without(a, id) + Without(b, id)
  {
    FilterConcat(a, b, (x: Notification) => x.id != id);
  }

  /** Whether `prev.find(n => n.id === id)` has a timer to cancel. */
  predicate FirstHasTimer(ns: seq<Notification>, id: int) {
    |ns| > 0 && if ns[0].id == id then ns[0].hasTimer else FirstHasTimer(ns[1..], id)
  }

  /** A timer is cancelled only for a notification that is there. */
  lemma {:induction false} FirstHasTimerPresent(ns: seq<Notification>, id: int)
    requires FirstHasTimer(ns, id)
    ensures exists i :: 0 <= i < |ns| && ns[i].id == id && ns[i].hasTimer
  {
    if ns[0].id != id {
      FirstHasTimerPresent(ns[1..], id);
      var i :| 0 <= i < |ns[1..]| && ns[1..][i].id == id && ns[1..][i].hasTimer;
      assert ns[i + 1] == ns[1..][i];
    }
  }

  /** The number of timers among the notifications. */
  function TimerCount(ns: seq<Notification>): (c: nat)
    ensures c <= |ns|
    ensures c == 0 <==> forall i :: 0 <= i < |ns| ==> !ns[i].hasTimer
  {
    if |ns| == 0 then 0
    else
      var init := ns[..|ns| - 1];
      var c := TimerCount(init);
      assert forall i :: 0 <= i < |init| ==> init[i] == ns[i];
      if ns[|ns| - 1].hasTimer then c + 1 else c
  }

  /** The notification list of the hook. */
  class NotificationList {
    var notifications: seq<Notification>

    constructor ()
      ensures notifications == []
    {
      notifications := [];
    }

    /** `addNotification(message, type, duration)`: appends one notification
        and answers its id, the instant `now`. */
    method Add(message: string, kind: Option<string>, duration: Option<int>, now: int) returns (id: int)
      modifies this
      ensures id == now
      ensures notifications == old(notifications) + [NewNotification(message, kind, duration, now)]
    {
      id := now;
      notifications := notifications + [NewNotification(message, kind, duration, now)];
    }

    /** `removeNotification(id)`: every notification with that id goes; the
        answer says whether the first of them had a timer to cancel. */
    method Remove(id: int) returns (cancelled: bool)
      modifies this
      ensures cancelled <==> FirstHasTimer(old(notifications), id)
      ensures notifications == Without(old(notifications), id)
    {
      cancelled := FirstHasTimer(notifications, id);
      notifications := Without(notifications, id);
    }

    /** `removeAllNotifications`: each timer is cancelled in turn and the
        list empties; the answer is how many timers were cancelled. */
    method RemoveAll() returns (cancelled: nat)
      modifies this
      ensures cancelled == TimerCount(old(notifications)) && cancelled <= |old(notifications)|
      ensures notifications == []
    {
      var prev := notifications;
      cancelled := 0;
      var i := 0;
      while i < |prev|
        invariant 0 <= i <= |prev|
        invariant cancelled == TimerCount(prev[..i])
      {
        assert prev[..i + 1][..i] == prev[..i];
        if prev[i].hasTimer {
          cancelled := cancelled + 1;
        }
        i := i + 1;
      }
      assert prev[..|prev|] == prev;
      notifications := [];
    }
  }
}
