/** The assignee serializers of projects, tasks, designs, sales records and
  * meetings, which share one shape: an assignee row links an owner record
  * to a user, at most one live row per (owner, user), and (except for
  * meetings) at most one live primary assignee per owner. */
module AssigneeSerializers {
  import opened Common
  import opened Sorting
  import opened Validation

  /** A `ProjectAssignee`, `TaskAssignee`, `DesignAssignee`,
    * `SalesAssignee` or `MeetingAssignee` row; `owner` is the project, task,
    * design, sales record or meeting. A meeting row is never primary. */
  datatype Assignee = Assignee(owner: int, user: int, isPrimary: bool, createdAt: Time, deletedAt: Option<Time>)

  /** The validator's input: a field the request leaves out is `None`. */
  datatype AssigneeInput = AssigneeInput(owner: Option<int>, user: Option<int>, isPrimary: Option<bool>)

  function LiveRow(): Assignee -> bool {
    (a: Assignee) => a.deletedAt.None?
  }

  function LivePrimary(): Assignee -> bool {
    (a: Assignee) => a.deletedAt.None? && a.isPrimary
  }

  function Pair(a: Assignee): (int, int) {
    (a.owner, a.user)
  }

  function OwnerOf(a: Assignee): int {
    a.owner
  }

  /** The invariant the validators keep: no user twice on one owner, and
    * one primary assignee at most per owner, both among live rows. */
  predicate Sound(rows: seq<Assignee>) {
    UniqueOn(rows, LiveRow(), Pair) && UniqueOn(rows, LivePrimary(), OwnerOf)
  }

  /** The row being updated, when there is one. */
  predicate Instance(rows: seq<Assignee>, self: Option<int>) {
    self.Some? ==> 0 <= self.value < |rows|
  }

  function StoredOwner(rows: seq<Assignee>, self: Option<int>): Option<int>
    requires Instance(rows, self)
  {
    if self.Some? then Some(rows[self.value].owner) else None
  }

  function StoredUser(rows: seq<Assignee>, self: Option<int>): Option<int>
    requires Instance(rows, self)
  {
    if self.Some? then Some(rows[self.value].user) else None
  }

  /** `is_primary` as `validate` reads it: the input's value, else `False`
    * on create and the stored value on update. */
  function ResolvedPrimary(rows: seq<Assignee>, data: AssigneeInput, self: Option<int>): (b: bool)
    requires Instance(rows, self)
    ensures data.isPrimary.Some? ==> b == data.isPrimary.value
    ensures data.isPrimary.None? && self.None? ==> !b
    ensures data.isPrimary.None? && self.Some? ==> b == rows[self.value].isPrimary
  {
    if data.isPrimary.Some? then data.isPrimary.value
    else if self.Some? then rows[self.value].isPrimary
    else false
  }

  /** `validate` of the project, task, design and sales assignee
    * serializers: a live row other than `self` already pairing the owner
    * with the user rejects on `user`; otherwise, for a primary assignee,
    * a live primary row of the same owner other than `self` rejects on
    * `is_primary`. The input is returned unchanged. */
  function ValidateAssignee(rows: seq<Assignee>, data: AssigneeInput, self: Option<int>): (r: Result<AssigneeInput, Rejection>)
    requires Instance(rows, self)
    ensures var owner := OrRef(data.owner, StoredOwner(rows, self));
            var user := OrRef(data.user, StoredUser(rows, self));
            var dup := owner.Some? && user.Some? && Taken(rows, LiveRow(), Pair, (owner.value, user.value), self);
            var primary := ResolvedPrimary(rows, data, self) && owner.Some?
                           && Taken(rows, LivePrimary(), OwnerOf, owner.value, self);
            (r == Err(Rejection("user")) <==> dup)
            && (r == Err(Rejection("is_primary")) <==> !dup && primary)
            && (r == Ok(data) <==> !dup && !primary)
  {
    var owner := OrRef(data.owner, StoredOwner(rows, self));
    var user := OrRef(data.user, StoredUser(rows, self));
    if owner.Some? && user.Some? && Taken(rows, LiveRow(), Pair, (owner.value, user.value), self) then
      Err(Rejection("user"))
    else if ResolvedPrimary(rows, data, self) && owner.Some? && Taken(rows, LivePrimary(), OwnerOf, owner.value, self) then
      Err(Rejection("is_primary"))
    else
      Ok(data)
  }

  /** `MeetingAssigneeModelSerializer.validate`: only the (meeting, user)
    * duplicate check. */
  function ValidateAttendee(rows: seq<Assignee>, data: AssigneeInput, self: Option<int>): (r: Result<AssigneeInput, Rejection>)
    requires Instance(rows, self)
    ensures var owner := OrRef(data.owner, StoredOwner(rows, self));
            var user := OrRef(data.user, StoredUser(rows, self));
            (r == Err(Rejection("user")) <==>
               owner.Some? && user.Some? && Taken(rows, LiveRow(), Pair, (owner.value, user.value), self))
            && (r.Err? || r == Ok(data))
  {
    var owner := OrRef(data.owner, StoredOwner(rows, self));
    var user := OrRef(data.user, StoredUser(rows, self));
    if owner.Some? && user.Some? && Taken(rows, LiveRow(), Pair, (owner.value, user.value), self) then
      Err(Rejection("user"))
    else
      Ok(data)
  }

  /** The row a create with complete input stores at `now`. */
  function Created(data: AssigneeInput, now: Time): Assignee
    requires data.owner.Some? && data.user.Some?
  {
    Assignee(data.owner.value, data.user.value, data.isPrimary.Some? && data.isPrimary.value, now, None)
  }

  /** The row `n` after an update with the given input. */
  function Updated(rows: seq<Assignee>, n: int, data: AssigneeInput): Assignee
    requires 0 <= n < |rows|
  {
    rows[n].(owner := OrRef(data.owner, Some(rows[n].owner)).value,
             user := OrRef(data.user, Some(rows[n].user)).value,
             isPrimary := ResolvedPrimary(rows, data, Some(n)))
  }

  /** A create the validator accepts keeps both uniqueness rules. */
  lemma {:induction false} CreateKeepsSound(rows: seq<Assignee>, data: AssigneeInput, now: Time)
    requires Sound(rows) && data.owner.Some? && data.user.Some?
    requires ValidateAssignee(rows, data, None).Ok?
    ensures Sound(rows + [Created(data, now)])
  {
    var x := Created(data, now);
    InsertKeepsUnique(rows, LiveRow(), Pair, x);
    InsertKeepsUnique(rows, LivePrimary(), OwnerOf, x);
  }

  /** An update the validator accepts keeps both uniqueness rules. */
  lemma {:induction false} UpdateKeepsSound(rows: seq<Assignee>, n: int, data: AssigneeInput)
    requires Sound(rows) && 0 <= n < |rows|
    requires ValidateAssignee(rows, data, Some(n)).Ok?
    ensures Sound(rows[n := Updated(rows, n, data)])
  {
    var x := Updated(rows, n, data);
    UpdateKeepsUnique(rows, LiveRow(), Pair, n, x);
    UpdateKeepsUnique(rows, LivePrimary(), OwnerOf, n, x);
  }

  /** A create the validator rejects would have broken a uniqueness rule:
    * the checks reject exactly the creates that break `Sound`. */
  lemma {:induction false} CreateRejectedOnlyIfUnsound(rows: seq<Assignee>, data: AssigneeInput, now: Time)
    requires data.owner.Some? && data.user.Some?
    requires ValidateAssignee(rows, data, None).Err?
    ensures !Sound(rows + [Created(data, now)])
  {
    var x := Created(data, now);
    if ValidateAssignee(rows, data, None) == Err(Rejection("user")) {
      TakenBreaksUnique(rows, LiveRow(), Pair, x);
    } else {
      TakenBreaksUnique(rows, LivePrimary(), OwnerOf, x);
    }
  }

  /** The meeting validator keeps the (meeting, user) rule on create. */
  lemma {:induction false} AttendeeCreateKeepsUnique(rows: seq<Assignee>, data: AssigneeInput, now: Time)
    requires UniqueOn(rows, LiveRow(), Pair) && data.owner.Some? && data.user.Some?
    requires ValidateAttendee(rows, data, None).Ok?
    ensures UniqueOn(rows + [Created(data, now)], LiveRow(), Pair)
  {
    InsertKeepsUnique(rows, LiveRow(), Pair, Created(data, now));
  }

  function LiveOf(owner: int): Assignee -> bool {
    (a: Assignee) => a.owner == owner && a.deletedAt.None?
  }

  /** `obj.assignees.filter(deleted_at__isnull=True)` for the project, task,
    * sales and meeting assignees, whose models declare no ordering. */
  function AssigneeIds(rows: seq<Assignee>, owner: int): (r: seq<int>)
    ensures forall k :: 0 <= k < |r| ==> 0 <= r[k] < |rows| && rows[r[k]].owner == owner && rows[r[k]].deletedAt.None?
    ensures forall i :: (0 <= i < |rows| && rows[i].owner == owner && rows[i].deletedAt.None?) ==> i in r
    ensures forall j, k :: 0 <= j < k < |r| ==> r[j] < r[k]
  {
    Matching(rows, LiveOf(owner))
  }

  function NewestFirst(a: Assignee): int {
    -a.createdAt
  }

  /** The same query for `DesignAssignee`, ordered `-created_at`. */
  function DesignAssigneeIds(rows: seq<Assignee>, owner: int): (r: seq<int>)
    ensures forall k :: 0 <= k < |r| ==> 0 <= r[k] < |rows| && rows[r[k]].owner == owner && rows[r[k]].deletedAt.None?
    ensures forall i :: (0 <= i < |rows| && rows[i].owner == owner && rows[i].deletedAt.None?) ==> i in r
    ensures forall j, k :: 0 <= j < k < |r| ==> rows[r[j]].createdAt >= rows[r[k]].createdAt
    ensures Distinct(r)
  {
    Query(rows, LiveOf(owner), NewestFirst)
  }

  /** `get_assignees_count`: the `.count()` of the same filter, equal to
    * the length of the list `get_assignees` returns, in either order. */
  function AssigneesCount(rows: seq<Assignee>, owner: int): (r: nat)
    ensures r == |AssigneeIds(rows, owner)|
    ensures r == |DesignAssigneeIds(rows, owner)|
  {
    QueryCount(rows, LiveOf(owner), NewestFirst);
    Count(rows, LiveOf(owner))
  }

  /** One entry of an assignee list. */
  datatype AssigneeView = AssigneeView(id: int, user: int, isPrimary: bool, createdAt: Time)

  function ViewOf(rows: seq<Assignee>, id: int): AssigneeView
    requires 0 <= id < |rows|
  {
    AssigneeView(id, rows[id].user, rows[id].isPrimary, rows[id].createdAt)
  }

  /** `get_assignees` of the project and task serializers: one entry per
    * live assignee of the owner, in query order, appended in a loop. */
  method GetAssignees(rows: seq<Assignee>, owner: int) returns (result: seq<AssigneeView>)
    ensures |result| == AssigneesCount(rows, owner)
    ensures forall k :: 0 <= k < |result| ==> result[k] == ViewOf(rows, AssigneeIds(rows, owner)[k])
  {
    var ids := AssigneeIds(rows, owner);
    result := [];
    var i := 0;
    while i < |ids|
      invariant 0 <= i <= |ids|
      invariant |result| == i
      invariant forall k :: 0 <= k < i ==> result[k] == ViewOf(rows, ids[k])
    {
      result := result + [ViewOf(rows, ids[i])];
      i := i + 1;
    }
  }
}
