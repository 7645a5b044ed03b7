/** `ApprovalService`: generating a request's lines from the matching
  * policy, and approving, rejecting and cancelling. Approvers are resolved
  * against the organisation tables. */
module Approvals {
  import opened Common
  import opened Sorting
  import opened Org
  import opened ApprovalModels

  datatype ApprovalError =
    | RequestNotFound          // `ApprovalRequest.DoesNotExist`
    | LinesExist               // the request already has live lines
    | RequesterDeptNotFound    // the requester's department does not exist
    | DeptHasNoManager         // `_is_manager` found no manager for the department
    | NoPolicy                 // no live policy matches
    | NoSteps                  // the policy has no live steps
    | NoApprover(stepOrder: int)  // a step's approver could not be resolved
    | StepOrderTaken           // `bulk_create` hit the unique (request, step_order) constraint
    | LineNotFound             // `ApprovalLine.DoesNotExist`
    | NotApprover              // the caller is not the line's approver
    | AlreadyActed             // the line is no longer PENDING
    | NotRequester             // the caller is not the requester
    | AlreadyCancelled
    | RejectedCannotCancel

  /** `u` holds a live manager record of department `d`. */
  predicate ManagedBy(managers: seq<Manager>, d: int, u: int) {
    exists k :: 0 <= k < |managers| && ActiveManagerOf(managers[k], d) && managers[k].user == u
  }

  /** The executive position with the highest hierarchy level (the first such
    * row on a tie), as `order_by('-hierarchy_level').first()` finds it. */
  function TopExecutive(positions: seq<Position>): (r: Option<int>)
    ensures r.None? <==> forall q :: 0 <= q < |positions| ==> !positions[q].isExecutive
    ensures r.Some? ==> 0 <= r.value < |positions| && positions[r.value].isExecutive
    ensures r.Some? ==> forall q :: 0 <= q < |positions| && positions[q].isExecutive ==>
                          positions[q].hierarchyLevel <= positions[r.value].hierarchyLevel
    decreases |positions|
  {
    if positions == [] then None
    else
      var init := positions[..|positions| - 1];
      var last := |positions| - 1;
      var best := TopExecutive(init);
      assert forall q :: 0 <= q < last ==> init[q] == positions[q];
      if !positions[last].isExecutive then best
      else if best.None? || positions[best.value].hierarchyLevel < positions[last].hierarchyLevel then Some(last)
      else best
  }

  /** The first live user holding position `p`. */
  function FirstHolder(users: seq<User>, p: int): (r: Option<int>)
    ensures r.None? <==> forall u :: 0 <= u < |users| ==> !(users[u].positionId == p && users[u].deletedAt.None?)
    ensures r.Some? ==> 0 <= r.value < |users| && users[r.value].positionId == p && users[r.value].deletedAt.None?
    ensures r.Some? ==> forall u :: 0 <= u < r.value ==> !(users[u].positionId == p && users[u].deletedAt.None?)
  {
    if users == [] then None
    else if users[0].positionId == p && users[0].deletedAt.None? then Some(0)
    else
      var rest := FirstHolder(users[1..], p);
      assert forall u :: 1 <= u < |users| ==> users[u] == users[1..][u - 1];
      if rest.Some? then Some(rest.value + 1) else None
  }

  /** `_get_ceo_user`: a live user holding the top executive position. Only
    * that one position is consulted: with nobody live in it the result is
    * `None`, whoever holds the other executive positions. */
  function GetCeoUser(org: Org): (r: Option<int>)
    reads org
    ensures r.Some? ==> 0 <= r.value < |org.users| && org.users[r.value].deletedAt.None?
    ensures r.Some? ==> TopExecutive(org.positions).Some?
                        && org.users[r.value].positionId == TopExecutive(org.positions).value
    ensures TopExecutive(org.positions).None? ==> r.None?
  {
    var top := TopExecutive(org.positions);
    if top.None? then None else FirstHolder(org.users, top.value)
  }

  /** `_is_manager`: whether the user is the manager of their department;
    * an error when the department or its manager is missing. */
  function IsManager(org: Org, u: int): (r: Result<bool, ApprovalError>)
    reads org
    requires org.Valid() && 0 <= u < |org.users|
    ensures !(0 <= org.users[u].departmentId < |org.departments|) ==> r == Err(RequesterDeptNotFound)
    ensures (0 <= org.users[u].departmentId < |org.departments|
             && !HasManager(org.managers, org.users[u].departmentId)) ==> r == Err(DeptHasNoManager)
    ensures r.Ok? <==> 0 <= org.users[u].departmentId < |org.departments|
                       && HasManager(org.managers, org.users[u].departmentId)
    ensures r.Ok? ==> (r.value <==> ManagedBy(org.managers, org.users[u].departmentId, u))
  {
    var d := org.users[u].departmentId;
    if !(0 <= d < |org.departments|) then Err(RequesterDeptNotFound)
    else
      var m := org.GetManager(d);
      if m.None? then Err(DeptHasNoManager)
      else
        assert ManagedBy(org.managers, d, u) ==> m.value == u;
        Ok(m.value == u)
  }

  /** Department `d` has a live manager record. */
  predicate HasManager(managers: seq<Manager>, d: int) {
    exists k :: 0 <= k < |managers| && ActiveManagerOf(managers[k], d)
  }

  /** `_resolve_approver`: who approves a step of the given selector for a
    * requester; `dept` is the requester's department when the caller
    * already has it. */
  function ResolveApprover(org: Org, selector: string, requester: int, dept: Option<int>): (r: Option<int>)
    reads org
    requires org.Valid() && 0 <= requester < |org.users|
    requires dept.Some? ==> 0 <= dept.value < |org.departments|
    ensures var d := if dept.Some? then dept.value else org.users[requester].departmentId;
            (!(0 <= d < |org.departments|) ==> r.None?)
            && (0 <= d < |org.departments| && selector == DEPT_MANAGER ==>
                  (r.Some? <==> HasManager(org.managers, d)) && (r.Some? ==> ManagedBy(org.managers, d, r.value)))
            && (0 <= d < |org.departments| && selector == PARENT_DEPT_MANAGER ==>
                  (org.departments[d].parent.None? ==> r.None?)
                  && (org.departments[d].parent.Some? ==>
                        (r.Some? <==> HasManager(org.managers, org.departments[d].parent.value))
                        && (r.Some? ==> ManagedBy(org.managers, org.departments[d].parent.value, r.value))))
            && (0 <= d < |org.departments| && selector == CEO ==> r == GetCeoUser(org))
            && (!IsSelector(selector) ==> r.None?)
  {
    var d := if dept.Some? then dept.value else org.users[requester].departmentId;
    if !(0 <= d < |org.departments|) then None
    else if selector == DEPT_MANAGER then ManagerIn(org, d)
    else if selector == PARENT_DEPT_MANAGER then
      (if org.departments[d].parent.Some? then ManagerIn(org, org.departments[d].parent.value) else None)
    else if selector == CEO then GetCeoUser(org)
    else None
  }

  /** `get_manager` of department `d`, described by the manager records. */
  function ManagerIn(org: Org, d: int): (r: Option<int>)
    reads org
    requires org.Valid()
    ensures r.Some? <==> HasManager(org.managers, d)
    ensures r.Some? ==> ManagedBy(org.managers, d, r.value)
  {
    var m := org.GetManager(d);
    if m.Some? then
      var k :| 0 <= k < |org.managers| && ActiveManagerOf(org.managers[k], d);
      m
    else m
  }

  /** The first live policy for the request type, department type and role. */
  function SelectPolicy(policies: seq<Policy>, requestType: string, deptType: string, role: string): (r: Option<int>)
    ensures r.None? <==> forall k :: 0 <= k < |policies| ==> !PolicyMatches(policies[k], requestType, deptType, role)
    ensures r.Some? ==> 0 <= r.value < |policies| && PolicyMatches(policies[r.value], requestType, deptType, role)
    ensures r.Some? ==> forall k :: 0 <= k < r.value ==> !PolicyMatches(policies[k], requestType, deptType, role)
  {
    if policies == [] then None
    else if PolicyMatches(policies[0], requestType, deptType, role) then Some(0)
    else
      var rest := SelectPolicy(policies[1..], requestType, deptType, role);
      assert forall k :: 1 <= k < |policies| ==> policies[k] == policies[1..][k - 1];
      if rest.Some? then Some(rest.value + 1) else None
  }

  predicate PolicyMatches(p: Policy, requestType: string, deptType: string, role: string) {
    p.requestType == requestType && p.deptType == deptType && p.role == role && p.deletedAt.None?
  }

  /** The live steps of policy `p`, by ascending `step_order`. */
  function PolicySteps(steps: seq<PolicyStep>, p: int): (r: seq<int>)
    requires StepsUnique(steps)
    ensures forall k :: 0 <= k < |r| ==> 0 <= r[k] < |steps| && steps[r[k]].policy == p && steps[r[k]].deletedAt.None?
    ensures forall i :: 0 <= i < |steps| && steps[i].policy == p && steps[i].deletedAt.None? ==> i in r
    ensures forall j, k :: 0 <= j < k < |r| ==> steps[r[j]].stepOrder < steps[r[k]].stepOrder
  {
    var q := Query(steps, (s: PolicyStep) => s.policy == p && s.deletedAt.None?, (s: PolicyStep) => s.stepOrder);
    forall j, k | 0 <= j < k < |q|
      ensures steps[q[j]].stepOrder < steps[q[k]].stepOrder
    {
      assert q[j] != q[k];
      if q[j] < q[k] {
        assert steps[q[j]].stepOrder != steps[q[k]].stepOrder;
      } else {
        assert steps[q[k]].stepOrder != steps[q[j]].stepOrder;
      }
    }
    q
  }

  /** The lines for the steps `ids`, in order, or `None` when some step's
    * approver cannot be resolved. */
  function PlanLines(org: Org, request: int, requester: int, dept: int, steps: seq<PolicyStep>, ids: seq<int>)
    : (r: Option<seq<ApprovalLine>>)
    reads org
    requires org.Valid() && 0 <= requester < |org.users| && 0 <= dept < |org.departments|
    requires forall k :: 0 <= k < |ids| ==> 0 <= ids[k] < |steps|
    ensures r.Some? <==> forall k :: 0 <= k < |ids| ==>
                           ResolveApprover(org, steps[ids[k]].selector, requester, Some(dept)).Some?
    ensures r.Some? ==> |r.value| == |ids|
    ensures r.Some? ==> forall k :: 0 <= k < |ids| ==>
              r.value[k] == NewLine(request, steps[ids[k]].stepOrder,
                                    ResolveApprover(org, steps[ids[k]].selector, requester, Some(dept)).value)
    decreases |ids|
  {
    if ids == [] then Some([])
    else
      var init := PlanLines(org, request, requester, dept, steps, ids[..|ids| - 1]);
      var a := ResolveApprover(org, steps[ids[|ids| - 1]].selector, requester, Some(dept));
      if init.None? || a.None? then None
      else Some(init.value + [NewLine(request, steps[ids[|ids| - 1]].stepOrder, a.value)])
  }

  /** The step orders of the steps `ids`. */
  function StepOrders(steps: seq<PolicyStep>, ids: seq<int>): (r: set<int>)
    requires forall k :: 0 <= k < |ids| ==> 0 <= ids[k] < |steps|
    ensures forall k :: 0 <= k < |ids| ==> steps[ids[k]].stepOrder in r
  {
    set k | 0 <= k < |ids| :: steps[ids[k]].stepOrder
  }

  /** The loop of `create_approval_lines`: one line per step in order,
    * stopping at the first step whose approver cannot be resolved and
    * giving its `step_order`. */
  method BuildLines(org: Org, request: int, requester: int, dept: int, steps: seq<PolicyStep>, ids: seq<int>)
    returns (r: Result<seq<ApprovalLine>, int>)
    requires org.Valid() && 0 <= requester < |org.users| && 0 <= dept < |org.departments|
    requires forall k :: 0 <= k < |ids| ==> 0 <= ids[k] < |steps|
    ensures r.Ok? <==> PlanLines(org, request, requester, dept, steps, ids).Some?
    ensures r.Ok? ==> r.value == PlanLines(org, request, requester, dept, steps, ids).value
    ensures r.Err? ==> exists k :: 0 <= k < |ids| && steps[ids[k]].stepOrder == r.error
                         && ResolveApprover(org, steps[ids[k]].selector, requester, Some(dept)).None?
  {
    var added: seq<ApprovalLine> := [];
    var i := 0;
    while i < |ids|
      invariant 0 <= i <= |ids|
      invariant PlanLines(org, request, requester, dept, steps, ids[..i]) == Some(added)
    {
      assert ids[..i + 1][..i] == ids[..i];
      var approver := ResolveApprover(org, steps[ids[i]].selector, requester, Some(dept));
      if approver.None? {
        PlanFailsAt(org, request, requester, dept, steps, ids, i);
        return Err(steps[ids[i]].stepOrder);
      }
      added := added + [NewLine(request, steps[ids[i]].stepOrder, approver.value)];
      i := i + 1;
    }
    assert ids[..i] == ids;
    return Ok(added);
  }

  /** Some stored line of the request already uses one of the new step orders. */
  predicate StepOrderClash(lines: seq<ApprovalLine>, request: int, added: seq<ApprovalLine>) {
    exists i, j :: 0 <= i < |lines| && 0 <= j < |added| && lines[i].request == request
                   && lines[i].stepOrder == added[j].stepOrder
  }

  predicate HasLiveLines(lines: seq<ApprovalLine>, request: int) {
    exists k :: 0 <= k < |lines| && lines[k].request == request && lines[k].deletedAt.None?
  }

  /** The choices, the check constraints and the unique constraints. */
  ghost predicate Tables(requests: seq<ApprovalRequest>, lines: seq<ApprovalLine>, steps: seq<PolicyStep>) {
    (forall k :: 0 <= k < |requests| ==> IsRequestStatus(requests[k].status) && RequestChecks(requests[k]))
    && (forall k :: 0 <= k < |lines| ==> IsLineStatus(lines[k].status) && 0 <= lines[k].request < |requests|)
    && LinesUnique(lines)
    && StepsUnique(steps)
  }

  /** Storing PENDING lines with step orders new to the request, and moving
    * the request to IN_PROGRESS, keeps the constraints. */
  lemma {:induction false} CreateKeepsTables(requests: seq<ApprovalRequest>, lines: seq<ApprovalLine>, steps: seq<PolicyStep>,
                          id: int, added: seq<ApprovalLine>)
    requires Tables(requests, lines, steps) && 0 <= id < |requests|
    requires LinesUnique(added) && !StepOrderClash(lines, id, added)
    requires forall k :: 0 <= k < |added| ==> added[k].request == id && added[k].status == PENDING
    ensures Tables(requests[id := requests[id].(status := IN_PROGRESS)], lines + added, steps)
  {
    AppendKeepsUnique(lines, id, added);
    var all := lines + added;
    forall k | 0 <= k < |all|
      ensures IsLineStatus(all[k].status) && 0 <= all[k].request < |requests|
    {
      if k >= |lines| {
        assert all[k] == added[k - |lines|];
      }
    }
  }

  /** Rewriting one line in place, with its request and step order kept and
    * a valid status, keeps the constraints. */
  lemma {:induction false} LineUpdateKeepsTables(requests: seq<ApprovalRequest>, lines: seq<ApprovalLine>,
                                                 steps: seq<PolicyStep>, i: int, l: ApprovalLine)
    requires Tables(requests, lines, steps) && 0 <= i < |lines|
    requires l.request == lines[i].request && l.stepOrder == lines[i].stepOrder && IsLineStatus(l.status)
    ensures Tables(requests, lines[i := l], steps)
  {
    var after := lines[i := l];
    forall j, k | 0 <= j < k < |after| && after[j].request == after[k].request
      ensures after[j].stepOrder != after[k].stepOrder
    {
      assert lines[j].request == lines[k].request;
    }
  }

  /** Rewriting one request with a valid status that meets the check
    * constraints keeps the constraints. */
  lemma {:induction false} RequestUpdateKeepsTables(requests: seq<ApprovalRequest>, lines: seq<ApprovalLine>,
                                                    steps: seq<PolicyStep>, id: int, q: ApprovalRequest)
    requires Tables(requests, lines, steps) && 0 <= id < |requests|
    requires IsRequestStatus(q.status) && RequestChecks(q)
    ensures Tables(requests[id := q], lines, steps)
  {
  }

  /** The result of `create_approval_lines` for request `id`, case by case
    * in the order the code checks them. */
  ghost predicate LinesOutcome(org: Org, requests: seq<ApprovalRequest>, lines: seq<ApprovalLine>,
                               policies: seq<Policy>, steps: seq<PolicyStep>, id: int,
                               r: Result<seq<ApprovalLine>, ApprovalError>)
    reads org
    requires org.Valid() && StepsUnique(steps)
    requires 0 <= id < |requests| && requests[id].deletedAt.None? ==> 0 <= requests[id].requester < |org.users|
  {
    if !(0 <= id < |requests| && requests[id].deletedAt.None?) then r == Err(RequestNotFound)
    else if HasLiveLines(lines, id) then r == Err(LinesExist)
    else
      var u := requests[id].requester;
      var d := org.users[u].departmentId;
      if !(0 <= d < |org.departments|) then r == Err(RequesterDeptNotFound)
      else
        var leader := IsManager(org, u);
        if leader.Err? then r == Err(DeptHasNoManager)
        else
          var role := if leader.value then LEADER else EMPLOYEE;
          var p := SelectPolicy(policies, requests[id].requestType, org.departments[d].orgType, role);
          if p.None? then r == Err(NoPolicy)
          else StepsOutcome(org, lines, steps, id, u, d, PolicySteps(steps, p.value), r)
  }

  /** The rest of `create_approval_lines` once the policy's steps `ids` are
    * known: no steps, an unresolvable step, a step order already used by a
    * stored line of the request, or the new lines. */
  ghost predicate StepsOutcome(org: Org, lines: seq<ApprovalLine>, steps: seq<PolicyStep>, id: int, u: int, d: int,
                               ids: seq<int>, r: Result<seq<ApprovalLine>, ApprovalError>)
    reads org
    requires org.Valid() && 0 <= u < |org.users| && 0 <= d < |org.departments|
    requires forall k :: 0 <= k < |ids| ==> 0 <= ids[k] < |steps|
  {
    if ids == [] then r == Err(NoSteps)
    else
      var plan := PlanLines(org, id, u, d, steps, ids);
      if plan.None? then r.Err? && r.error.NoApprover? && r.error.stepOrder in StepOrders(steps, ids)
      else if StepOrderClash(lines, id, plan.value) then r == Err(StepOrderTaken)
      else r == Ok(plan.value)
  }

  /** The approval tables. */
  class ApprovalStore {
    var requests: seq<ApprovalRequest>
    var lines: seq<ApprovalLine>
    var policies: seq<Policy>
    var steps: seq<PolicyStep>

    /** The choices, the check constraints and the unique constraints. */
    ghost predicate Valid()
      reads this
    {
      Tables(requests, lines, steps)
    }

    constructor (requests0: seq<ApprovalRequest>, lines0: seq<ApprovalLine>, policies0: seq<Policy>, steps0: seq<PolicyStep>)
      requires forall k :: 0 <= k < |requests0| ==> IsRequestStatus(requests0[k].status) && RequestChecks(requests0[k])
      requires forall k :: 0 <= k < |lines0| ==> IsLineStatus(lines0[k].status) && 0 <= lines0[k].request < |requests0|
      requires LinesUnique(lines0) && StepsUnique(steps0)
      ensures Valid()
      ensures requests == requests0 && lines == lines0 && policies == policies0 && steps == steps0
    {
      requests, lines, policies, steps := requests0, lines0, policies0, steps0;
    }

    predicate LiveRequest(id: int)
      reads this
    {
      0 <= id < |requests| && requests[id].deletedAt.None?
    }

    predicate LiveLine(id: int)
      reads this
    {
      0 <= id < |lines| && lines[id].deletedAt.None?
    }

    /** The checks and the loop of `create_approval_lines`, which write
      * nothing: the lines to store, or why there are none. */
    method PlanApprovalLines(org: Org, id: int) returns (r: Result<seq<ApprovalLine>, ApprovalError>)
      requires Valid() && org.Valid()
      requires LiveRequest(id) ==> 0 <= requests[id].requester < |org.users|
      ensures LinesOutcome(org, requests, lines, policies, steps, id, r)
      ensures r.Ok? ==> LiveRequest(id) && LinesUnique(r.value) && !StepOrderClash(lines, id, r.value)
                        && forall k :: 0 <= k < |r.value| ==> r.value[k].request == id && r.value[k].status == PENDING
    {
      if !LiveRequest(id) {
        return Err(RequestNotFound);
      }
      if HasLiveLines(lines, id) {
        return Err(LinesExist);
      }
      var u := requests[id].requester;
      var d := org.users[u].departmentId;
      if !(0 <= d < |org.departments|) {
        return Err(RequesterDeptNotFound);
      }
      var leader := IsManager(org, u);
      if leader.Err? {
        return Err(leader.error);
      }
      var role := if leader.value then LEADER else EMPLOYEE;
      var p := SelectPolicy(policies, requests[id].requestType, org.departments[d].orgType, role);
      if p.None? {
        return Err(NoPolicy);
      }
      r := PlanStepLines(org, id, u, d, PolicySteps(steps, p.value));
    }

    /** The rest of `create_approval_lines` once the policy's steps `ids`
      * are known, in `step_order` order. */
    method PlanStepLines(org: Org, id: int, u: int, d: int, ids: seq<int>)
      returns (r: Result<seq<ApprovalLine>, ApprovalError>)
      requires org.Valid() && 0 <= u < |org.users| && 0 <= d < |org.departments|
      requires forall k :: 0 <= k < |ids| ==> 0 <= ids[k] < |steps|
      requires forall j, k :: 0 <= j < k < |ids| ==> steps[ids[j]].stepOrder < steps[ids[k]].stepOrder
      ensures StepsOutcome(org, lines, steps, id, u, d, ids, r)
      ensures r.Ok? ==> LinesUnique(r.value) && !StepOrderClash(lines, id, r.value)
                        && forall k :: 0 <= k < |r.value| ==> r.value[k].request == id && r.value[k].status == PENDING
    {
      if ids == [] {
        return Err(NoSteps);
      }
      var plan := BuildLines(org, id, u, d, steps, ids);
      if plan.Err? {
        return Err(NoApprover(plan.error));
      }
      var added := plan.value;
      if StepOrderClash(lines, id, added) {
        return Err(StepOrderTaken);
      }
      FreshLinesUnique(org, id, u, d, steps, ids, added);
      r := Ok(added);
    }

    /** `create_approval_lines`: for a live request without live lines, pick
      * the policy for its type, the requester's department type and the
      * requester's role, resolve an approver per step in `step_order`
      * order, store one PENDING line per step and set the request
      * IN_PROGRESS. */
    method CreateApprovalLines(org: Org, id: int) returns (r: Result<seq<ApprovalLine>, ApprovalError>)
      requires Valid() && org.Valid()
      requires LiveRequest(id) ==> 0 <= requests[id].requester < |org.users|
      modifies this
      ensures Valid()
      ensures policies == old(policies) && steps == old(steps)
      ensures LinesOutcome(org, old(requests), old(lines), policies, steps, id, r)
      ensures r.Err? ==> requests == old(requests) && lines == old(lines)
      ensures r.Ok? ==> lines == old(lines) + r.value
                        && requests == old(requests)[id := old(requests)[id].(status := IN_PROGRESS)]
    {
      r := PlanApprovalLines(org, id);
      if r.Ok? {
        CreateKeepsTables(requests, lines, steps, id, r.value);
        lines := lines + r.value;
        requests := requests[id := requests[id].(status := IN_PROGRESS)];
      }
    }

    /** `approve_approval_line`: the caller must be the line's approver and
      * the line PENDING. The line becomes APPROVED (the comment is replaced
      * only by a non-empty one); the request becomes APPROVED when no live
      * PENDING line of it has a greater `step_order`. Earlier steps and the
      * request's own status are not consulted. */
    method ApproveApprovalLine(lineId: int, user: int, comment: Option<string>, now: Time)
      returns (r: Result<ApprovalLine, ApprovalError>)
      requires Valid()
      modifies this
      ensures Valid()
      ensures policies == old(policies) && steps == old(steps)
      ensures r.Err? ==> requests == old(requests) && lines == old(lines)
      ensures !old(LiveLine(lineId)) ==> r == Err(LineNotFound)
      ensures old(LiveLine(lineId)) && old(lines)[lineId].approver != user ==> r == Err(NotApprover)
      ensures old(LiveLine(lineId)) && old(lines)[lineId].approver == user && old(lines)[lineId].status != PENDING
              ==> r == Err(AlreadyActed)
      ensures r.Ok? <==> old(LiveLine(lineId)) && old(lines)[lineId].approver == user
                         && old(lines)[lineId].status == PENDING
      ensures r.Ok? ==>
                var l := old(lines)[lineId];
                var req := l.request;
                lines == old(lines)[lineId := Approved(l, comment, now)] && r.value == lines[lineId]
                && (LaterPending(lines, req, l.stepOrder) ==> requests == old(requests))
                && (!LaterPending(lines, req, l.stepOrder) ==>
                      requests == old(requests)[req := old(requests)[req].(status := APPROVED, approvedAt := Some(now))])
    {
      if !LiveLine(lineId) {
        return Err(LineNotFound);
      }
      var l := lines[lineId];
      if l.approver != user {
        return Err(NotApprover);
      }
      if l.status != PENDING {
        return Err(AlreadyActed);
      }
      LineUpdateKeepsTables(requests, lines, steps, lineId, Approved(l, comment, now));
      lines := lines[lineId := Approved(l, comment, now)];
      var next := NextPending(lines, l.request, l.stepOrder);
      if next == [] {
        var q := requests[l.request].(status := APPROVED, approvedAt := Some(now));
        RequestUpdateKeepsTables(requests, lines, steps, l.request, q);
        requests := requests[l.request := q];
      }
      r := Ok(lines[lineId]);
    }

    /** `reject_approval_line`: the caller must be the line's approver and
      * the line PENDING. The line becomes REJECTED with the comment, and the
      * request REJECTED whatever its other lines say. */
    method RejectApprovalLine(lineId: int, user: int, comment: string, now: Time)
      returns (r: Result<ApprovalLine, ApprovalError>)
      requires Valid()
      modifies this
      ensures Valid()
      ensures policies == old(policies) && steps == old(steps)
      ensures r.Err? ==> requests == old(requests) && lines == old(lines)
      ensures !old(LiveLine(lineId)) ==> r == Err(LineNotFound)
      ensures old(LiveLine(lineId)) && old(lines)[lineId].approver != user ==> r == Err(NotApprover)
      ensures old(LiveLine(lineId)) && old(lines)[lineId].approver == user && old(lines)[lineId].status != PENDING
              ==> r == Err(AlreadyActed)
      ensures r.Ok? <==> old(LiveLine(lineId)) && old(lines)[lineId].approver == user
                         && old(lines)[lineId].status == PENDING
      ensures r.Ok? ==>
                var l := old(lines)[lineId];
                lines == old(lines)[lineId := Rejected(l, comment, now)] && r.value == lines[lineId]
                && requests == old(requests)[l.request := old(requests)[l.request].(status := REJECTED, rejectedAt := Some(now))]
    {
      if !LiveLine(lineId) {
        return Err(LineNotFound);
      }
      var l := lines[lineId];
      if l.approver != user {
        return Err(NotApprover);
      }
      if l.status != PENDING {
        return Err(AlreadyActed);
      }
      LineUpdateKeepsTables(requests, lines, steps, lineId, Rejected(l, comment, now));
      lines := lines[lineId := Rejected(l, comment, now)];
      var q := requests[l.request].(status := REJECTED, rejectedAt := Some(now));
      RequestUpdateKeepsTables(requests, lines, steps, l.request, q);
      requests := requests[l.request := q];
      r := Ok(lines[lineId]);
    }

    /** `cancel_approval_request`: only the requester may cancel, and not a
      * request already CANCELLED or REJECTED; anything else, APPROVED
      * included, becomes CANCELLED. */
    method CancelApprovalRequest(id: int, user: int, now: Time) returns (r: Result<ApprovalRequest, ApprovalError>)
      requires Valid()
      modifies this
      ensures Valid()
      ensures lines == old(lines) && policies == old(policies) && steps == old(steps)
      ensures r.Err? ==> requests == old(requests)
      ensures !old(LiveRequest(id)) ==> r == Err(RequestNotFound)
      ensures old(LiveRequest(id)) && old(requests)[id].requester != user ==> r == Err(NotRequester)
      ensures old(LiveRequest(id)) && old(requests)[id].requester == user && old(requests)[id].status == CANCELLED
              ==> r == Err(AlreadyCancelled)
      ensures old(LiveRequest(id)) && old(requests)[id].requester == user && old(requests)[id].status == REJECTED
              ==> r == Err(RejectedCannotCancel)
      ensures r.Ok? <==> old(LiveRequest(id)) && old(requests)[id].requester == user
                         && old(requests)[id].status != CANCELLED && old(requests)[id].status != REJECTED
      ensures r.Ok? ==> requests == old(requests)[id := old(requests)[id].(status := CANCELLED, cancelledAt := Some(now))]
                        && r.value == requests[id]
    {
      if !LiveRequest(id) {
        return Err(RequestNotFound);
      }
      var q := requests[id];
      if q.requester != user {
        return Err(NotRequester);
      }
      if q.status == CANCELLED {
        return Err(AlreadyCancelled);
      }
      if q.status == REJECTED {
        return Err(RejectedCannotCancel);
      }
      RequestUpdateKeepsTables(requests, lines, steps, id, q.(status := CANCELLED, cancelledAt := Some(now)));
      requests := requests[id := q.(status := CANCELLED, cancelledAt := Some(now))];
      r := Ok(requests[id]);
    }
  }

  /** The line after approval: APPROVED at `now`, the comment replaced only
    * by a non-empty one. */
  function Approved(l: ApprovalLine, comment: Option<string>, now: Time): (r: ApprovalLine)
    ensures r.status == APPROVED && r.actedAt == Some(now)
    ensures r.comment == if TruthyStr(comment) then comment else l.comment
    ensures r.(status := l.status, actedAt := l.actedAt, comment := l.comment) == l
  {
    l.(status := APPROVED, actedAt := Some(now), comment := OrStr(comment, l.comment))
  }

  /** The line after rejection: REJECTED at `now` with the comment. */
  function Rejected(l: ApprovalLine, comment: string, now: Time): (r: ApprovalLine)
    ensures r.status == REJECTED && r.actedAt == Some(now) && r.comment == Some(comment)
    ensures r.(status := l.status, actedAt := l.actedAt, comment := l.comment) == l
  {
    l.(status := REJECTED, actedAt := Some(now), comment := Some(comment))
  }

  /** A live PENDING line of the request comes after step `order`. */
  predicate LaterPending(lines: seq<ApprovalLine>, request: int, order: int) {
    exists k :: 0 <= k < |lines| && IsLaterPending(lines[k], request, order)
  }

  predicate IsLaterPending(l: ApprovalLine, request: int, order: int) {
    l.request == request && l.stepOrder > order && l.status == PENDING && l.deletedAt.None?
  }

  /** The query for the next line: live PENDING lines of the request after
    * step `order`, by `step_order`. */
  function NextPending(lines: seq<ApprovalLine>, request: int, order: int): (r: seq<int>)
    ensures r == [] <==> !LaterPending(lines, request, order)
    ensures forall k :: 0 <= k < |r| ==> 0 <= r[k] < |lines| && IsLaterPending(lines[r[k]], request, order)
    ensures forall j, k :: 0 <= j < k < |r| ==> lines[r[j]].stepOrder <= lines[r[k]].stepOrder
  {
    var q := Query(lines, (l: ApprovalLine) => IsLaterPending(l, request, order), (l: ApprovalLine) => l.stepOrder);
    if q == [] then
      assert !LaterPending(lines, request, order) by {
        forall k | 0 <= k < |lines|
          ensures !IsLaterPending(lines[k], request, order)
        {
        }
      }
      q
    else
      assert IsLaterPending(lines[q[0]], request, order);
      q
  }

  /** Where the walk over the steps stops at the first unresolvable step,
    * the whole plan fails. */
  lemma {:induction false} PlanFailsAt(org: Org, request: int, requester: int, dept: int, steps: seq<PolicyStep>,
                                       ids: seq<int>, i: int)
    requires org.Valid() && 0 <= requester < |org.users| && 0 <= dept < |org.departments|
    requires forall k :: 0 <= k < |ids| ==> 0 <= ids[k] < |steps|
    requires 0 <= i < |ids| && ResolveApprover(org, steps[ids[i]].selector, requester, Some(dept)).None?
    ensures PlanLines(org, request, requester, dept, steps, ids).None?
  {
  }

  /** The planned lines of one request have pairwise different step orders. */
  lemma {:induction false} FreshLinesUnique(org: Org, request: int, requester: int, dept: int, steps: seq<PolicyStep>,
                         ids: seq<int>, added: seq<ApprovalLine>)
    requires org.Valid() && 0 <= requester < |org.users| && 0 <= dept < |org.departments|
    requires forall k :: 0 <= k < |ids| ==> 0 <= ids[k] < |steps|
    requires forall j, k :: 0 <= j < k < |ids| ==> steps[ids[j]].stepOrder < steps[ids[k]].stepOrder
    requires PlanLines(org, request, requester, dept, steps, ids) == Some(added)
    ensures LinesUnique(added)
    ensures forall k :: 0 <= k < |added| ==> added[k].request == request && added[k].status == PENDING
    ensures forall j, k :: 0 <= j < k < |added| ==> added[j].stepOrder < added[k].stepOrder
  {
  }

  /** Appending lines with added step orders for one request keeps the
    * unique constraint. */
  lemma {:induction false} AppendKeepsUnique(lines: seq<ApprovalLine>, request: int, added: seq<ApprovalLine>)
    requires LinesUnique(lines) && LinesUnique(added)
    requires forall k :: 0 <= k < |added| ==> added[k].request == request
    requires !StepOrderClash(lines, request, added)
    ensures LinesUnique(lines + added)
  {
    var all := lines + added;
    forall i, j | 0 <= i < j < |all| && all[i].request == all[j].request
      ensures all[i].stepOrder != all[j].stepOrder
    {
      if i < |lines| && j >= |lines| {
        assert added[j - |lines|] == all[j];
      } else if i >= |lines| {
        assert added[i - |lines|] == all[i] && added[j - |lines|] == all[j];
      }
    }
  }
}
