/** The organisation tables of the users app: departments in a parent tree,
  * positions, users, and the department-manager records of which at most
  * one per department is live. */
module Org {
  import opened Common
  import opened Calendar

  const BUSINESS_UNIT: string := "BUSINESS_UNIT"

  /** A `Department` row; `parent` is the id of `parent_department`. */
  datatype Department = Department(name: string, orgType: string, parent: Option<int>)

  /** A `Position` row. */
  datatype Position = Position(title: string, hierarchyLevel: int, isExecutive: bool)

  /** A stored password: the hash `set_password` makes of a raw password. */
  datatype Password = NoPassword | Hashed(raw: string)

  /** A `User` row (the columns the modelled rules read or write). */
  datatype User = User(
    uid: string,
    name: string,
    email: string,
    positionId: int,
    departmentId: int,
    accountLocked: bool,
    loginAttempts: int,
    joinedAt: Option<Day>,
    password: Password,
    deletedAt: Option<Time>)

  /** A `DepartmentManager` row. */
  datatype Manager = Manager(department: int, user: int, deletedAt: Option<Time>)

  predicate ActiveManagerOf(m: Manager, dept: int) {
    m.department == dept && m.deletedAt.None?
  }

  /** The partial unique constraint `unique_active_department_manager`. */
  predicate OneActiveManager(managers: seq<Manager>) {
    forall i, j :: 0 <= i < j < |managers| && managers[i].deletedAt.None? && managers[j].deletedAt.None?
      ==> managers[i].department != managers[j].department
  }

  /** `get_manager`: the user of the first live manager record, if any. */
  function ManagerOf(managers: seq<Manager>, dept: int): (r: Option<int>)
    ensures r.None? <==> forall k :: 0 <= k < |managers| ==> !ActiveManagerOf(managers[k], dept)
    ensures r.Some? ==> exists k :: 0 <= k < |managers| && ActiveManagerOf(managers[k], dept) && managers[k].user == r.value
  {
    if managers == [] then None
    else if ActiveManagerOf(managers[0], dept) then Some(managers[0].user)
    else
      var rest := ManagerOf(managers[1..], dept);
      assert forall k :: 1 <= k < |managers| ==> managers[k] == managers[1..][k - 1];
      if rest.Some? then
        var k :| 0 <= k < |managers[1..]| && ActiveManagerOf(managers[1..][k], dept) && managers[1..][k].user == rest.value;
        assert managers[k + 1] == managers[1..][k];
        rest
      else rest
  }

  /** Under the unique constraint the live manager record is the one `get_manager` finds. */
  lemma {:induction false} ManagerOfUnique(managers: seq<Manager>, dept: int, k: int)
    requires OneActiveManager(managers) && 0 <= k < |managers| && ActiveManagerOf(managers[k], dept)
    ensures ManagerOf(managers, dept) == Some(managers[k].user)
  {
    var r := ManagerOf(managers, dept);
    var j :| 0 <= j < |managers| && ActiveManagerOf(managers[j], dept) && managers[j].user == r.value;
    assert j == k;
  }

  /** The manager table after `filter(department=d, deleted_at__isnull=True).update(deleted_at=now)`. */
  function Retired(managers: seq<Manager>, dept: int, now: Time): (r: seq<Manager>)
    ensures |r| == |managers|
    ensures forall k :: 0 <= k < |r| ==>
              r[k] == if ActiveManagerOf(managers[k], dept) then managers[k].(deletedAt := Some(now)) else managers[k]
  {
    seq(|managers|, k requires 0 <= k < |managers| =>
      if ActiveManagerOf(managers[k], dept) then managers[k].(deletedAt := Some(now)) else managers[k])
  }

  /** Retiring a department's managers and appending a live record for `u`
    * keeps at most one live manager per department, and that one is `u`. */
  lemma {:induction false} RetireThenAppoint(managers: seq<Manager>, dept: int, u: int, now: Time)
    requires OneActiveManager(managers)
    ensures var after := Retired(managers, dept, now) + [Manager(dept, u, None)];
            OneActiveManager(after) && ManagerOf(after, dept) == Some(u)
            && forall k :: 0 <= k < |after| && ActiveManagerOf(after[k], dept) ==> k == |managers|
  {
    var after := Retired(managers, dept, now) + [Manager(dept, u, None)];
    forall i, j | 0 <= i < j < |after| && after[i].deletedAt.None? && after[j].deletedAt.None?
      ensures after[i].department != after[j].department
    {
    }
    ManagerOfUnique(after, dept, |managers|);
  }

  class Org {
    var departments: seq<Department>
    var positions: seq<Position>
    var users: seq<User>
    var managers: seq<Manager>
    /** Depth of each department in the tree: a parent is strictly shallower. */
    ghost var rank: seq<nat>

    ghost predicate Valid()
      reads this
    {
      |rank| == |departments|
      && (forall d :: 0 <= d < |departments| && departments[d].parent.Some? ==>
            0 <= departments[d].parent.value < |departments|
            && rank[departments[d].parent.value] < rank[d])
      && OneActiveManager(managers)
    }

    constructor (departments0: seq<Department>, positions0: seq<Position>, users0: seq<User>,
                 managers0: seq<Manager>, ghost rank0: seq<nat>)
      requires |rank0| == |departments0| && OneActiveManager(managers0)
      requires forall d :: 0 <= d < |departments0| && departments0[d].parent.Some? ==>
                 0 <= departments0[d].parent.value < |departments0|
                 && rank0[departments0[d].parent.value] < rank0[d]
      ensures Valid()
      ensures departments == departments0 && positions == positions0
      ensures users == users0 && managers == managers0
    {
      departments, positions, users, managers := departments0, positions0, users0, managers0;
      rank := rank0;
    }

    /** The strict ancestors of `d`, nearest first. */
    ghost function Ancestors(d: int): seq<int>
      reads this
      requires Valid() && 0 <= d < |departments|
      decreases rank[d]
    {
      match departments[d].parent
      case None => []
      case Some(p) => [p] + Ancestors(p)
    }

    lemma {:induction false} AncestorsInRange(d: int)
      requires Valid() && 0 <= d < |departments|
      ensures forall k :: 0 <= k < |Ancestors(d)| ==>
                (0 <= Ancestors(d)[k] < |departments| && rank[Ancestors(d)[k]] < rank[d])
      decreases rank[d]
    {
      if departments[d].parent.Some? {
        AncestorsInRange(departments[d].parent.value);
      }
    }

    /** `get_top_level_department`: follow parent links up to a department
      * without a parent; that is `d` itself when it has none. */
    method GetTopLevelDepartment(d: int) returns (top: int)
      requires Valid() && 0 <= d < |departments|
      ensures 0 <= top < |departments| && departments[top].parent.None?
      ensures top == d || top in Ancestors(d)
      ensures departments[d].parent.None? ==> top == d
    {
      top := d;
      while departments[top].parent.Some?
        invariant 0 <= top < |departments|
        invariant top == d || top in Ancestors(d)
        invariant departments[d].parent.None? ==> top == d
        decreases rank[top]
      {
        AncestorsAreClosed(d, top);
        top := departments[top].parent.value;
      }
    }

    /** The parent of `d` or of any ancestor of `d` is again an ancestor of `d`. */
    lemma {:induction false} AncestorsAreClosed(d: int, a: int)
      requires Valid() && 0 <= d < |departments| && 0 <= a < |departments|
      requires a == d || a in Ancestors(d)
      requires departments[a].parent.Some?
      ensures departments[a].parent.value in Ancestors(d)
      decreases rank[d]
    {
      if a != d {
        var p := departments[d].parent.value;
        AncestorsAreClosed(p, a);
      }
    }

    /** `is_sub_department_of`: whether `other` is a strict ancestor of `d`. */
    method IsSubDepartmentOf(d: int, other: int) returns (b: bool)
      requires Valid() && 0 <= d < |departments|
      ensures b <==> other in Ancestors(d)
    {
      var current := departments[d].parent;
      while current.Some?
        invariant current.Some? ==> 0 <= current.value < |departments|
        invariant current.Some? ==> (other in Ancestors(d) <==> other in [current.value] + Ancestors(current.value))
        invariant current.None? ==> other !in Ancestors(d)
        decreases if current.Some? then rank[current.value] + 1 else 0
      {
        if current.value == other {
          return true;
        }
        current := departments[current.value].parent;
      }
      return false;
    }

    /** No department is a sub-department of itself. */
    lemma {:induction false} NotOwnAncestor(d: int)
      requires Valid() && 0 <= d < |departments|
      ensures d !in Ancestors(d)
    {
      AncestorsInRange(d);
    }

    /** `get_manager`. */
    function GetManager(d: int): (r: Option<int>)
      reads this
      requires Valid()
      ensures forall k :: 0 <= k < |managers| && ActiveManagerOf(managers[k], d) ==> r == Some(managers[k].user)
      ensures r.None? <==> forall k :: 0 <= k < |managers| ==> !ActiveManagerOf(managers[k], d)
    {
      ManagerOfUniqueAll(managers, d);
      ManagerOf(managers, d)
    }

    /** `set_manager`: retire the department's live manager records, then add
      * a live one for `u`. */
    method SetManager(d: int, u: int, now: Time)
      requires Valid()
      modifies this
      ensures Valid()
      ensures departments == old(departments) && positions == old(positions) && users == old(users)
      ensures managers == Retired(old(managers), d, now) + [Manager(d, u, None)]
      ensures GetManager(d) == Some(u)
    {
      RetireThenAppoint(managers, d, u, now);
      managers := Retired(managers, d, now) + [Manager(d, u, None)];
    }

    /** `is_business_unit`. */
    predicate IsBusinessUnit(d: int)
      reads this
      requires 0 <= d < |departments|
    {
      departments[d].orgType == BUSINESS_UNIT
    }
  }

  lemma {:induction false} ManagerOfUniqueAll(managers: seq<Manager>, dept: int)
    requires OneActiveManager(managers)
    ensures forall k :: 0 <= k < |managers| && ActiveManagerOf(managers[k], dept) ==> ManagerOf(managers, dept) == Some(managers[k].user)
  {
    forall k | 0 <= k < |managers| && ActiveManagerOf(managers[k], dept)
      ensures ManagerOf(managers, dept) == Some(managers[k].user)
    {
      ManagerOfUnique(managers, dept, k);
    }
  }
}
