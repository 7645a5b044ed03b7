/** Notifications between users: a notification is never sent to its own
  * sender, is created unread, and is marked read at most once. */
module Notifications {
  import opened Common
  import opened Sorting

  /** `Notification.EVENT_TYPE_CHOICES`. */
  predicate IsEventType(s: string) {
    s == "LEAVE_REQUEST" || s == "LEAVE_APPROVAL_REQUIRED" || s == "LEAVE_CANCELLED"
    || s == "LEAVE_APPROVED" || s == "LEAVE_REJECTED" || s == "PROJECT_ASSIGNED" || s == "TASK_ASSIGNED"
  }

  /** The columns of a notification other than its time stamps. */
  datatype Notice = Notice(
    sender: int,
    receiver: int,
    notificationType: string,
    notificationTypeId: Option<int>,
    message: string,
    isRead: bool,
    readAt: Option<Time>)

  /** A stored row: the notice and the columns its save stamps. */
  datatype Row = Row(notice: Notice, createdAt: Time, deletedAt: Option<Time>)

  /** An unsaved `Notification(...)`: the read state takes its defaults. */
  function NewNotice(sender: int, receiver: int, notificationType: string, message: string,
                     notificationTypeId: Option<int>): (n: Notice)
    ensures !n.isRead && n.readAt.None?
    ensures n.sender == sender && n.receiver == receiver && n.notificationType == notificationType
    ensures n.message == message && n.notificationTypeId == notificationTypeId
  {
    Notice(sender, receiver, notificationType, notificationTypeId, message, false, None)
  }

  /** `Notification.mark_as_read`: an unread notice becomes read at `now`; a
    * read one keeps its state, `read_at` included. */
  function Read(n: Notice, now: Time): (r: Notice)
    ensures r.isRead
    ensures !n.isRead ==> r.readAt == Some(now)
    ensures n.isRead ==> r == n
    ensures r.(isRead := n.isRead, readAt := n.readAt) == n
  {
    if n.isRead then n else n.(isRead := true, readAt := Some(now))
  }

  /** Marking twice is marking once: the second call finds the notice read. */
  lemma {:induction false} ReadIdempotent(n: Notice, t1: Time, t2: Time)
    ensures Read(Read(n, t1), t2) == Read(n, t1)
  {
  }

  /** `create_notification`: nothing when sender and receiver coincide,
    * otherwise an unsaved unread notice carrying exactly the given fields. */
  function CreateNotification(sender: int, receiver: int, notificationType: string, message: string,
                              notificationTypeId: Option<int>): (r: Option<Notice>)
    ensures r.None? <==> sender == receiver
    ensures r.Some? ==> r.value == NewNotice(sender, receiver, notificationType, message, notificationTypeId)
  {
    if sender == receiver then None
    else Some(NewNotice(sender, receiver, notificationType, message, notificationTypeId))
  }

  /** The notices `create_bulk_notifications` builds for a receiver list: one
    * per receiver other than the sender, in list order. */
  function Bulk(sender: int, receivers: seq<int>, notificationType: string, message: string,
                notificationTypeId: Option<int>): (r: seq<Notice>)
    ensures |r| <= |receivers|
    ensures forall k :: 0 <= k < |r| ==>
      r[k] == NewNotice(sender, r[k].receiver, notificationType, message, notificationTypeId)
  {
    if receivers == [] then []
    else
      var r := Bulk(sender, receivers[..|receivers| - 1], notificationType, message, notificationTypeId);
      var x := receivers[|receivers| - 1];
      if x != sender then r + [NewNotice(sender, x, notificationType, message, notificationTypeId)] else r
  }

  function Receivers(ns: seq<Notice>): (r: seq<int>)
    ensures |r| == |ns|
    ensures forall k :: 0 <= k < |ns| ==> r[k] == ns[k].receiver
  {
    if ns == [] then [] else Receivers(ns[..|ns| - 1]) + [ns[|ns| - 1].receiver]
  }

  function NotSender(sender: int): int -> bool {
    x => x != sender
  }

  /** The receivers of the bulk notices are the receiver list with every
    * occurrence of the sender dropped: the order and the repetitions of the
    * list are kept. */
  lemma {:induction false} BulkReceivers(sender: int, receivers: seq<int>, notificationType: string,
                                         message: string, notificationTypeId: Option<int>)
    ensures Receivers(Bulk(sender, receivers, notificationType, message, notificationTypeId))
            == Filter(receivers, NotSender(sender))
  {
    if receivers != [] {
      var front := receivers[..|receivers| - 1];
      var x := receivers[|receivers| - 1];
      BulkReceivers(sender, front, notificationType, message, notificationTypeId);
      assert receivers == front + [x];
      FilterSnoc(front, x, NotSender(sender));
    }
  }

  lemma {:induction false} FilterSnoc<T>(s: seq<T>, x: T, p: T -> bool)
    ensures Filter(s + [x], p) == Filter(s, p) + (if p(x) then [x] else [])
  {
    if s != [] {
      assert (s + [x])[1..] == s[1..] + [x];
      FilterSnoc(s[1..], x, p);
    }
  }

  /** A `bulk_create` of `ns` at `now`: the rows it adds, each created now
    * and live, or an `IntegrityError` when a notice has no type id, since the
    * `notification_type_id` column is NOT NULL. */
  function Saved(ns: seq<Notice>, now: Time): (r: Result<seq<Row>, NotificationError>)
    ensures r.Ok? <==> forall k :: 0 <= k < |ns| ==> ns[k].notificationTypeId.Some?
    ensures r.Ok? ==> |r.value| == |ns| && forall k :: 0 <= k < |ns| ==> r.value[k] == Row(ns[k], now, None)
    ensures r.Err? ==> r.error == NullTypeId
  {
    if ns == [] then Ok([])
    else
      var prev := Saved(ns[..|ns| - 1], now);
      var last := ns[|ns| - 1];
      if prev.Err? || last.notificationTypeId.None? then Err(NullTypeId)
      else Ok(prev.value + [Row(last, now, None)])
  }

  /** Why `mark_as_read` raises (not found, not the caller's own), or the
    * `IntegrityError` of a NULL `notification_type_id`. */
  datatype NotificationError = NotificationNotFound | NotOwnNotification | NullTypeId

  /** The filter of both unread queries: the receiver's unread, live rows. */
  function UnreadFor(user: int): Row -> bool {
    (row: Row) => row.notice.receiver == user && !row.notice.isRead && row.deletedAt.None?
  }

  function NewestFirst(row: Row): int {
    -row.createdAt
  }

  /** `get_unread_count`. */
  function GetUnreadCount(rows: seq<Row>, user: int): (r: nat)
    ensures r == |GetUnreadNotifications(rows, user)|
  {
    QueryCount(rows, UnreadFor(user), NewestFirst);
    Count(rows, UnreadFor(user))
  }

  /** `get_unread_notifications`: the ids of the user's unread, live
    * notifications, each once, newest first. */
  function GetUnreadNotifications(rows: seq<Row>, user: int): (r: seq<int>)
    ensures forall k :: 0 <= k < |r| ==> 0 <= r[k] < |rows| && rows[r[k]].notice.receiver == user
                                          && !rows[r[k]].notice.isRead && rows[r[k]].deletedAt.None?
    ensures forall i :: (0 <= i < |rows| && rows[i].notice.receiver == user && !rows[i].notice.isRead
                         && rows[i].deletedAt.None?) ==> i in r
    ensures forall j, k :: 0 <= j < k < |r| ==> rows[r[j]].createdAt >= rows[r[k]].createdAt
    ensures Distinct(r)
  {
    Query(rows, UnreadFor(user), NewestFirst)
  }

  /** A `Notification` instance. */
  class Notification {
    const sender: int
    const receiver: int
    const notificationType: string
    const notificationTypeId: Option<int>
    const message: string
    var isRead: bool
    var readAt: Option<Time>

    function Value(): Notice
      reads this
    {
      Notice(sender, receiver, notificationType, notificationTypeId, message, isRead, readAt)
    }

    /** A new instance: unread, never read. */
    constructor (sender: int, receiver: int, notificationType: string, message: string,
                 notificationTypeId: Option<int>)
      ensures Value() == NewNotice(sender, receiver, notificationType, message, notificationTypeId)
    {
      this.sender, this.receiver, this.notificationType := sender, receiver, notificationType;
      this.notificationTypeId, this.message := notificationTypeId, message;
      isRead, readAt := false, None;
    }

    /** `mark_as_read`: only an unread instance is written. */
    method MarkAsRead(now: Time)
      modifies this
      ensures Value() == Read(old(Value()), now)
    {
      if !isRead {
        isRead := true;
        readAt := Some(now);
      }
    }
  }

  /** The `notifications` table. */
  class NotificationStore {
    var rows: seq<Row>

    constructor ()
      ensures rows == []
    {
      rows := [];
    }

    /** `create_bulk_notifications`: builds the notices in receiver order,
      * then stores them in one batch at `now`, or stores nothing when there
      * are none. The batch fails as a whole when the type id is `None`, its
      * default, and there is a notice to store. */
    method CreateBulkNotifications(sender: int, receivers: seq<int>, notificationType: string, message: string,
                                   notificationTypeId: Option<int>, now: Time)
      returns (r: Result<seq<Notice>, NotificationError>)
      modifies this
      ensures var ns := Bulk(sender, receivers, notificationType, message, notificationTypeId);
              if ns != [] && notificationTypeId.None? then r == Err(NullTypeId) && rows == old(rows)
              else r == Ok(ns) && Saved(ns, now).Ok? && rows == old(rows) + Saved(ns, now).value
    {
      var ns := [];
      var i := 0;
      while i < |receivers|
        invariant 0 <= i <= |receivers|
        invariant ns == Bulk(sender, receivers[..i], notificationType, message, notificationTypeId)
      {
        assert receivers[..i + 1][..i] == receivers[..i];
        if sender != receivers[i] {
          ns := ns + [NewNotice(sender, receivers[i], notificationType, message, notificationTypeId)];
        }
        i := i + 1;
      }
      assert receivers[..i] == receivers;
      if ns != [] {
        var saved := Saved(ns, now);
        if saved.Err? {
          return Err(NullTypeId);
        }
        rows := rows + saved.value;
      }
      r := Ok(ns);
    }

    /** `NotificationService.mark_as_read`: the live notification `id` is
      * marked read when the caller is its SENDER (the check compares with
      * `sender_id`); a read notification is left as it is. */
    method MarkAsRead(id: int, user: int, now: Time) returns (r: Result<Notice, NotificationError>)
      modifies this
      ensures !(0 <= id < |old(rows)| && old(rows)[id].deletedAt.None?) ==>
                r == Err(NotificationNotFound) && rows == old(rows)
      ensures 0 <= id < |old(rows)| && old(rows)[id].deletedAt.None? && old(rows)[id].notice.sender != user ==>
                r == Err(NotOwnNotification) && rows == old(rows)
      ensures 0 <= id < |old(rows)| && old(rows)[id].deletedAt.None? && old(rows)[id].notice.sender == user ==>
                r == Ok(Read(old(rows)[id].notice, now))
                && rows == old(rows)[id := old(rows)[id].(notice := Read(old(rows)[id].notice, now))]
    {
      if !(0 <= id < |rows| && rows[id].deletedAt.None?) {
        return Err(NotificationNotFound);
      }
      var n := rows[id].notice;
      if n.sender != user {
        return Err(NotOwnNotification);
      }
      if !n.isRead {
        rows := rows[id := rows[id].(notice := n.(isRead := true, readAt := Some(now)))];
      }
      r := Ok(rows[id].notice);
    }
  }

  /** A second `mark_as_read` by the same caller changes nothing: it returns
    * the notice as the first call left it. */
  lemma {:induction false} MarkTwice(rows: seq<Row>, id: int, t1: Time, t2: Time)
    requires 0 <= id < |rows|
    ensures var once := rows[id := rows[id].(notice := Read(rows[id].notice, t1))];
            once[id := once[id].(notice := Read(once[id].notice, t2))] == once
  {
    ReadIdempotent(rows[id].notice, t1, t2);
  }

  /** Marking a notice read takes it out of its receiver's unread list and
    * count, and leaves every other user's unread notifications as they were. */
  lemma {:induction false} MarkReducesUnread(rows: seq<Row>, id: int, now: Time)
    requires 0 <= id < |rows| && rows[id].deletedAt.None? && !rows[id].notice.isRead
    ensures var after := rows[id := rows[id].(notice := Read(rows[id].notice, now))];
            var u := rows[id].notice.receiver;
            GetUnreadCount(after, u) + 1 == GetUnreadCount(rows, u)
            && id !in GetUnreadNotifications(after, u)
            && forall v :: v != u ==> GetUnreadCount(after, v) == GetUnreadCount(rows, v)
  {
    var after := rows[id := rows[id].(notice := Read(rows[id].notice, now))];
    var u := rows[id].notice.receiver;
    CountUpdate(rows, id, after[id], UnreadFor(u));
    forall v | v != u
      ensures GetUnreadCount(after, v) == GetUnreadCount(rows, v)
    {
      CountUpdate(rows, id, after[id], UnreadFor(v));
    }
  }

  /** Replacing one element changes a count by the change at that element. */
  lemma {:induction false} CountUpdate<T>(s: seq<T>, i: int, x: T, p: T -> bool)
    requires 0 <= i < |s|
    ensures Count(s[i := x], p) == Count(s, p) - (if p(s[i]) then 1 else 0) + (if p(x) then 1 else 0)
  {
    if i > 0 {
      assert s[i := x][1..] == s[1..][i - 1 := x];
      CountUpdate(s[1..], i - 1, x, p);
    } else {
      assert s[i := x][1..] == s[1..];
    }
  }
}
