/** The reminder ledger of the backend: a table of notifications, one per
    class occurrence a reminder was requested for, each with the instant it is
    due (`scheduledFor`, milliseconds) and whether it has been sent. */
module Notifications {
  import opened Db

  datatype Notification = Notification(
    classCode: string,
    className: string,
    startTime: string,
    room: string,
    scheduledFor: int,
    sent: bool)

  /** The pair a reminder is deduplicated on. */
  function DedupKey(n: Notification): (string, int) {
    (n.classCode, n.scheduledFor)
  }

  predicate HasKey(row: Row<Notification>, classCode: string, scheduledFor: int) {
    row.doc.classCode == classCode && row.doc.scheduledFor == scheduledFor
  }

  /** `scheduleNotification`: when a reminder for this class code and instant
      exists, the earliest such one's id is returned and nothing changes;
      otherwise one unsent reminder with the given fields is appended. */
  function ScheduleNotification(t: Table<Notification>, classCode: string, className: string,
                                startTime: string, room: string, scheduledFor: int): (r: Stored<Notification>)
    ensures (exists i :: 0 <= i < |t.rows| && HasKey(t.rows[i], classCode, scheduledFor)) ==>
      && r.table == t
      && (exists i :: 0 <= i < |t.rows| && HasKey(t.rows[i], classCode, scheduledFor) && r.id == t.rows[i].id
                    && forall j :: 0 <= j < i ==> !HasKey(t.rows[j], classCode, scheduledFor))
    ensures (forall i :: 0 <= i < |t.rows| ==> !HasKey(t.rows[i], classCode, scheduledFor)) ==>
      && r.table.rows == t.rows + [Row(r.id, Notification(classCode, className, startTime, room, scheduledFor, false))]
      && (Valid(t) ==> !HasId(t, r.id))
    ensures Valid(t) ==> Valid(r.table)
  {
    var doc := Notification(classCode, className, startTime, room, scheduledFor, false);
    var r := InsertIfAbsent(t, DedupKey, doc);
    assert forall i :: 0 <= i < |t.rows| ==> (HasKey(t.rows[i], classCode, scheduledFor) <==> DedupKey(t.rows[i].doc) == DedupKey(doc));
    if forall i :: 0 <= i < |t.rows| ==> !HasKey(t.rows[i], classCode, scheduledFor) then
      assert r.table.rows == r.table.rows[..|t.rows|] + [r.table.rows[|t.rows|]];
      r
    else
      r
  }

  /** A reminder is pending at `now` when it is due and not yet sent. */
  predicate Due(n: Notification, now: int) {
    n.scheduledFor <= now && !n.sent
  }

  /** The order of the `by_scheduled_time` index: by due instant, and among
      equal instants by creation (that is, by id). */
  predicate Before(a: Row<Notification>, b: Row<Notification>) {
    a.doc.scheduledFor < b.doc.scheduledFor || (a.doc.scheduledFor == b.doc.scheduledFor && a.id <= b.id)
  }

  predicate SortedByTime(s: seq<Row<Notification>>) {
    forall i, j :: 0 <= i < j < |s| ==> Before(s[i], s[j])
  }

  /** Places `x` into an index-ordered sequence. */
  function InsertByTime(x: Row<Notification>, s: seq<Row<Notification>>): (r: seq<Row<Notification>>)
    requires SortedByTime(s)
    ensures SortedByTime(r)
    ensures multiset(r) == multiset(s) + multiset{x}
  {
    if |s| == 0 then [x]
    else if Before(x, s[0]) then [x] + s
    else
      var rest := InsertByTime(x, s[1..]);
      assert s == [s[0]] + s[1..];
      assert forall k :: 0 <= k < |rest| ==> Before(s[0], rest[k]) by {
        forall k | 0 <= k < |rest|
          ensures Before(s[0], rest[k])
        {
          assert rest[k] in multiset(rest);
          assert rest[k] == x || rest[k] in multiset(s[1..]);
          if rest[k] != x {
            var m :| 0 <= m < |s[1..]| && s[1..][m] == rest[k];
            assert s[m + 1] == rest[k];
          }
        }
      }
      [s[0]] + rest
  }

  /** The rows of a scan rearranged into index order. */
  function SortByTime(s: seq<Row<Notification>>): (r: seq<Row<Notification>>)
    ensures SortedByTime(r)
    ensures multiset(r) == multiset(s)
  {
    if |s| == 0 then []
    else
      assert s == [s[0]] + s[1..];
      InsertByTime(s[0], SortByTime(s[1..]))
  }

  /** `getPendingNotifications` at instant `now`: exactly the due, unsent
      reminders, each as often as it is stored, earliest due first. */
  function GetPendingNotifications(t: Table<Notification>, now: int): (r: seq<Row<Notification>>)
    ensures forall x :: x in r <==> x in t.rows && Due(x.doc, now)
    ensures forall x :: multiset(r)[x] == if Due(x.doc, now) then multiset(t.rows)[x] else 0
    ensures forall i, j :: 0 <= i < j < |r| ==> r[i].doc.scheduledFor <= r[j].doc.scheduledFor
    ensures SortedByTime(r)
  {
    var due := Filter(t.rows, (row: Row<Notification>) => Due(row.doc, now));
    var r := SortByTime(due);
    assert forall x :: x in r <==> x in multiset(due);
    assert forall i, j :: 0 <= i < j < |r| ==> Before(r[i], r[j]);
    r
  }

  function MarkSent(n: Notification): Notification {
    n.(sent := true)
  }

  /** `markNotificationSent`: sets `sent` on the reminder with this id and on
      nothing else; an unknown id is an error. */
  function MarkNotificationSent(t: Table<Notification>, id: Id): (r: Patched<Notification>)
    ensures r.NotFound? <==> !HasId(t, id)
    ensures r.Ok? ==> |r.table.rows| == |t.rows| && r.table.nextId == t.nextId
    ensures r.Ok? && Valid(t) ==> Valid(r.table)
    ensures r.Ok? && Valid(t) ==> forall i :: 0 <= i < |t.rows| ==>
      if t.rows[i].id == id then
        r.table.rows[i] == Row(id, t.rows[i].doc.(sent := true))
      else
        r.table.rows[i] == t.rows[i]
  {
    Patch(t, id, MarkSent)
  }

  /** Asking twice for the same reminder gives the same id and table as asking once. */
  lemma ScheduleNotificationIdempotent(t: Table<Notification>, classCode: string, className: string,
                                       startTime: string, room: string, scheduledFor: int)
    ensures var once := ScheduleNotification(t, classCode, className, startTime, room, scheduledFor);
            ScheduleNotification(once.table, classCode, className, startTime, room, scheduledFor) == once
  {
    InsertIfAbsentIdempotent(t, DedupKey, Notification(classCode, className, startTime, room, scheduledFor, false));
  }

  /** At most one reminder per (class code, instant) before a call means at most one after it. */
  lemma ScheduleNotificationKeepsKeysUnique(t: Table<Notification>, classCode: string, className: string,
                                            startTime: string, room: string, scheduledFor: int)
    requires UniqueBy(t.rows, DedupKey)
    ensures UniqueBy(ScheduleNotification(t, classCode, className, startTime, room, scheduledFor).table.rows, DedupKey)
  {
    InsertIfAbsentKeepsUnique(t, DedupKey, Notification(classCode, className, startTime, room, scheduledFor, false));
  }

  /** Marking the same reminder twice leaves what marking it once left. */
  lemma MarkNotificationSentIdempotent(t: Table<Notification>, id: Id)
    requires Valid(t)
    requires MarkNotificationSent(t, id).Ok?
    ensures MarkNotificationSent(MarkNotificationSent(t, id).table, id) == MarkNotificationSent(t, id)
  {
    var once := MarkNotificationSent(t, id).table;
    assert HasId(once, id) by {
      var i :| 0 <= i < |t.rows| && t.rows[i].id == id;
      assert once.rows[i].id == id;
    }
    var twice := MarkNotificationSent(once, id).table;
    assert twice.rows == once.rows;
  }

  /** Marking never changes a reminder's dedup key, so keys stay unique. */
  lemma MarkNotificationSentKeepsKeysUnique(t: Table<Notification>, id: Id)
    requires Valid(t) && UniqueBy(t.rows, DedupKey)
    requires MarkNotificationSent(t, id).Ok?
    ensures UniqueBy(MarkNotificationSent(t, id).table.rows, DedupKey)
  {
    var u := MarkNotificationSent(t, id).table;
    assert forall i :: 0 <= i < |t.rows| ==> DedupKey(u.rows[i].doc) == DedupKey(t.rows[i].doc);
  }

  /** Once marked, a reminder is never pending again, whatever the instant. */
  lemma MarkedIsNotPending(t: Table<Notification>, id: Id, now: int)
    requires Valid(t)
    requires MarkNotificationSent(t, id).Ok?
    ensures forall x :: x in GetPendingNotifications(MarkNotificationSent(t, id).table, now) ==> x.id != id
  {
    var u := MarkNotificationSent(t, id).table;
    forall x | x in GetPendingNotifications(u, now)
      ensures x.id != id
    {
      var i :| 0 <= i < |u.rows| && u.rows[i] == x;
    }
  }

  /** A freshly scheduled reminder is pending from its due instant on, until
      it is marked sent. */
  lemma ScheduledThenPendingUntilSent(t: Table<Notification>, classCode: string, className: string,
                                      startTime: string, room: string, scheduledFor: int, now: int)
    requires Valid(t)
    requires forall i :: 0 <= i < |t.rows| ==> !HasKey(t.rows[i], classCode, scheduledFor)
    requires scheduledFor <= now
    ensures var s := ScheduleNotification(t, classCode, className, startTime, room, scheduledFor);
      && Row(s.id, Notification(classCode, className, startTime, room, scheduledFor, false))
           in GetPendingNotifications(s.table, now)
      && MarkNotificationSent(s.table, s.id).Ok?
      && forall x :: x in GetPendingNotifications(MarkNotificationSent(s.table, s.id).table, now) ==> x.id != s.id
  {
    var s := ScheduleNotification(t, classCode, className, startTime, room, scheduledFor);
    var row := Row(s.id, Notification(classCode, className, startTime, room, scheduledFor, false));
    assert s.table.rows[|t.rows|] == row;
    assert HasId(s.table, s.id);
    MarkedIsNotPending(s.table, s.id, now);
  }
}
