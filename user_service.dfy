/** `UserService`: appointing and removing department managers, looking a
  * manager up, and creating users in bulk. Each call is one transaction:
  * when it fails, nothing it would have written is kept. */
module UserService {
  import opened Common
  import opened Calendar
  import opened Org

  datatype UserError =
    | DepartmentNotFound   // `Department.DoesNotExist`, reported as a validation error
    | ManagerExists        // the department already has a live manager
    | UserNotFound         // `User.DoesNotExist` from the user lookup; it is not caught
    | NotInDepartment      // the user belongs to another department
    | NoManager            // nothing to remove
    | UidConflict          // `bulk_create` hit the unique `user_uid` constraint

  predicate LiveUser(users: seq<User>, id: int) {
    0 <= id < |users| && users[id].deletedAt.None?
  }

  predicate HasActiveManager(managers: seq<Manager>, d: int) {
    exists k :: 0 <= k < |managers| && ActiveManagerOf(managers[k], d)
  }

  /** `assign_department_manager`: the department must exist and have no live
    * manager, the user must be live and belong to it; then a live manager
    * record is added. */
  method AssignDepartmentManager(org: Org, d: int, u: int) returns (r: Result<int, UserError>)
    requires org.Valid()
    modifies org
    ensures org.Valid()
    ensures org.departments == old(org.departments) && org.users == old(org.users)
    ensures org.positions == old(org.positions)
    ensures !(0 <= d < |org.departments|) ==> r == Err(DepartmentNotFound)
    ensures (0 <= d < |org.departments| && HasActiveManager(old(org.managers), d))
            ==> r == Err(ManagerExists)
    ensures (0 <= d < |org.departments| && !HasActiveManager(old(org.managers), d) && !LiveUser(org.users, u))
            ==> r == Err(UserNotFound)
    ensures (0 <= d < |org.departments| && !HasActiveManager(old(org.managers), d) && LiveUser(org.users, u)
             && org.users[u].departmentId != d)
            ==> r == Err(NotInDepartment)
    ensures r.Err? ==> org.managers == old(org.managers)
    ensures r.Ok? <==> (0 <= d < |org.departments| && !HasActiveManager(old(org.managers), d)
                        && LiveUser(org.users, u) && org.users[u].departmentId == d)
    ensures r.Ok? ==> r.value == |old(org.managers)|
                      && org.managers == old(org.managers) + [Manager(d, u, None)]
                      && org.GetManager(d) == Some(u)
  {
    if !(0 <= d < |org.departments|) {
      return Err(DepartmentNotFound);
    }
    if ManagerOf(org.managers, d).Some? {
      return Err(ManagerExists);
    }
    if !LiveUser(org.users, u) {
      return Err(UserNotFound);
    }
    if org.users[u].departmentId != d {
      return Err(NotInDepartment);
    }
    AppointKeepsOneActive(org.managers, d, u);
    r := Ok(|org.managers|);
    org.managers := org.managers + [Manager(d, u, None)];
    ManagerOfUnique(org.managers, d, |org.managers| - 1);
  }

  /** Appending a live record for a department that has none keeps the unique
    * constraint. */
  lemma {:induction false} AppointKeepsOneActive(managers: seq<Manager>, d: int, u: int)
    requires OneActiveManager(managers) && !HasActiveManager(managers, d)
    ensures OneActiveManager(managers + [Manager(d, u, None)])
  {
    var after := managers + [Manager(d, u, None)];
    forall i, j | 0 <= i < j < |after| && after[i].deletedAt.None? && after[j].deletedAt.None?
      ensures after[i].department != after[j].department
    {
      if j == |managers| {
        assert !ActiveManagerOf(managers[i], d);
      }
    }
  }

  /** The index of the first live manager record of `d`, if any. */
  function ActiveIndex(managers: seq<Manager>, d: int): (r: Option<int>)
    ensures r.None? <==> !HasActiveManager(managers, d)
    ensures r.Some? ==> 0 <= r.value < |managers| && ActiveManagerOf(managers[r.value], d)
  {
    if managers == [] then None
    else
      var rest := ActiveIndex(managers[..|managers| - 1], d);
      if rest.Some? then Some(rest.value)
      else if ActiveManagerOf(managers[|managers| - 1], d) then Some(|managers| - 1)
      else
        assert forall k :: 0 <= k < |managers| - 1 ==> managers[k] == managers[..|managers| - 1][k];
        None
  }

  /** `remove_department_manager`: the department must exist and have a live
    * manager; that record gets `deleted_at`. */
  method RemoveDepartmentManager(org: Org, d: int, now: Time) returns (r: Result<bool, UserError>)
    requires org.Valid()
    modifies org
    ensures org.Valid()
    ensures org.departments == old(org.departments) && org.users == old(org.users)
    ensures org.positions == old(org.positions)
    ensures !(0 <= d < |org.departments|) ==> r == Err(DepartmentNotFound)
    ensures (0 <= d < |org.departments| && !HasActiveManager(old(org.managers), d)) ==> r == Err(NoManager)
    ensures r.Err? ==> org.managers == old(org.managers)
    ensures r.Ok? <==> (0 <= d < |org.departments| && HasActiveManager(old(org.managers), d))
    ensures r.Ok? ==> r.value && org.managers == Retired(old(org.managers), d, now)
                      && org.GetManager(d).None?
  {
    if !(0 <= d < |org.departments|) {
      return Err(DepartmentNotFound);
    }
    var k := ActiveIndex(org.managers, d);
    if k.None? {
      return Err(NoManager);
    }
    RemoveOnlyActive(org.managers, d, k.value, now);
    org.managers := org.managers[k.value := org.managers[k.value].(deletedAt := Some(now))];
    return Ok(true);
  }

  /** Under the unique constraint, stamping the one live record of `d` is the
    * same as retiring every live record of `d`, and leaves the constraint
    * and no live manager. */
  lemma {:induction false} RemoveOnlyActive(managers: seq<Manager>, d: int, k: int, now: Time)
    requires OneActiveManager(managers) && 0 <= k < |managers| && ActiveManagerOf(managers[k], d)
    ensures managers[k := managers[k].(deletedAt := Some(now))] == Retired(managers, d, now)
    ensures OneActiveManager(Retired(managers, d, now))
    ensures !HasActiveManager(Retired(managers, d, now), d)
  {
    var after := Retired(managers, d, now);
    forall i | 0 <= i < |managers|
      ensures managers[k := managers[k].(deletedAt := Some(now))][i] == after[i]
    {
    }
  }

  /** `get_department_manager`. */
  function GetDepartmentManager(org: Org, d: int): (r: Result<Option<int>, UserError>)
    reads org
    requires org.Valid()
    ensures !(0 <= d < |org.departments|) <==> r == Err(DepartmentNotFound)
    ensures r.Ok? ==> r.value == org.GetManager(d)
    ensures r.Ok? && r.value.Some? ==>
              exists k :: 0 <= k < |org.managers| && ActiveManagerOf(org.managers[k], d) && org.managers[k].user == r.value.value
  {
    if 0 <= d < |org.departments| then Ok(org.GetManager(d)) else Err(DepartmentNotFound)
  }

  /** One validated record of the bulk input; `password` is the raw password. */
  datatype NewUser = NewUser(
    uid: string, name: string, email: string, positionId: int, departmentId: int,
    joinedAt: Option<Day>, password: string)

  /** `User(**user_data)` without the password: the other columns take their defaults. */
  function Unsaved(n: NewUser): (u: User)
    ensures u.uid == n.uid && u.name == n.name && u.email == n.email
    ensures u.positionId == n.positionId && u.departmentId == n.departmentId && u.joinedAt == n.joinedAt
    ensures u.password == NoPassword && !u.accountLocked && u.loginAttempts == 0 && u.deletedAt.None?
  {
    User(n.uid, n.name, n.email, n.positionId, n.departmentId, false, 0, n.joinedAt, NoPassword, None)
  }

  /** The user rows a bulk insert of `input` stores. */
  function Created(input: seq<NewUser>): (r: seq<User>)
    ensures |r| == |input|
    ensures forall i :: 0 <= i < |input| ==> r[i] == Unsaved(input[i]).(password := Hashed(input[i].password))
  {
    seq(|input|, i requires 0 <= i < |input| => Unsaved(input[i]).(password := Hashed(input[i].password)))
  }

  /** `bulk_create` fails: a `user_uid` repeats within the input or is
    * already taken by a stored user, deleted or not. */
  predicate Conflicts(users: seq<User>, input: seq<NewUser>) {
    (exists i, j :: 0 <= i < j < |input| && input[i].uid == input[j].uid)
    || (exists i, k :: 0 <= i < |input| && 0 <= k < |users| && input[i].uid == users[k].uid)
  }

  /** `bulk_create_users`. */
  method BulkCreateUsers(org: Org, input: seq<NewUser>) returns (r: Result<seq<int>, UserError>)
    requires org.Valid()
    modifies org
    ensures org.Valid()
    ensures org.departments == old(org.departments) && org.managers == old(org.managers)
    ensures org.positions == old(org.positions)
    ensures r.Err? <==> Conflicts(old(org.users), input)
    ensures r.Err? ==> r.error == UidConflict && org.users == old(org.users)
    ensures r.Ok? ==> org.users == old(org.users) + Created(input)
                      && r.value == RangeFrom(|old(org.users)|, |old(org.users)| + |input|)
  {
    var pending: seq<User> := [];
    var passwords: seq<string> := [];
    var i := 0;
    while i < |input|
      invariant 0 <= i <= |input|
      invariant |pending| == i && |passwords| == i
      invariant forall k :: 0 <= k < i ==> pending[k] == Unsaved(input[k]) && passwords[k] == input[k].password
    {
      pending := pending + [Unsaved(input[i])];
      passwords := passwords + [input[i].password];
      i := i + 1;
    }
    if Conflicts(org.users, input) {
      return Err(UidConflict);
    }
    var saved := seq(|pending|, k requires 0 <= k < |pending| => pending[k].(password := Hashed(passwords[k])));
    assert saved == Created(input);
    r := Ok(RangeFrom(|org.users|, |org.users| + |input|));
    org.users := org.users + saved;
  }

  /** A successful bulk insert returns one user per distinct `user_uid`, each
    * holding the hash of its own password. */
  lemma {:induction false} BulkCreateOnePerUid(users: seq<User>, input: seq<NewUser>, i: int, j: int)
    requires !Conflicts(users, input) && 0 <= i < |input| && 0 <= j < |input|
    ensures (users + Created(input))[|users| + i].uid == input[i].uid
    ensures (users + Created(input))[|users| + i].password == Hashed(input[i].password)
    ensures i != j ==> (users + Created(input))[|users| + i].uid != (users + Created(input))[|users| + j].uid
  {
    if i < j {
      assert input[i].uid != input[j].uid;
    } else if j < i {
      assert input[j].uid != input[i].uid;
    }
  }
}
