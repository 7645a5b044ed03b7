/** The approval tables: requests, their step lines, and the policies with
  * their ordered steps that lines are generated from. */
module ApprovalModels {
  import opened Common

  const LEAVE: string := "LEAVE"
  const PURCHASE: string := "PURCHASE"
  const EXPENSE: string := "EXPENSE"
  const PROJECT: string := "PROJECT"

  const PENDING: string := "PENDING"
  const IN_PROGRESS: string := "IN_PROGRESS"
  const APPROVED: string := "APPROVED"
  const REJECTED: string := "REJECTED"
  const CANCELLED: string := "CANCELLED"

  const EMPLOYEE: string := "EMPLOYEE"
  const LEADER: string := "LEADER"

  const DEPT_MANAGER: string := "DEPT_MANAGER"
  const PARENT_DEPT_MANAGER: string := "PARENT_DEPT_MANAGER"
  const CEO: string := "CEO"

  /** `REQUEST_TYPE_CHOICES`, shared by requests and policies. */
  predicate IsRequestType(s: string) {
    s == LEAVE || s == PURCHASE || s == EXPENSE || s == PROJECT
  }

  /** `ApprovalRequest.STATUS_CHOICES`. */
  predicate IsRequestStatus(s: string) {
    s == PENDING || s == IN_PROGRESS || s == APPROVED || s == REJECTED || s == CANCELLED
  }

  /** `ApprovalLine.STATUS_CHOICES`. */
  predicate IsLineStatus(s: string) {
    s == PENDING || s == APPROVED || s == REJECTED
  }

  /** `ApprovalPolicy.APPLIES_TO_ROLE`. */
  predicate IsRole(s: string) {
    s == EMPLOYEE || s == LEADER
  }

  /** `APPROVER_SELECTOR_TYPE_CHOICES`. */
  predicate IsSelector(s: string) {
    s == DEPT_MANAGER || s == PARENT_DEPT_MANAGER || s == CEO
  }

  /** An `ApprovalRequest` row; `requestTypeId` is the id of the request it
    * approves (a leave request for LEAVE). */
  datatype ApprovalRequest = ApprovalRequest(
    requester: int,
    requestType: string,
    requestTypeId: int,
    status: string,
    submittedAt: Time,
    approvedAt: Option<Time>,
    rejectedAt: Option<Time>,
    cancelledAt: Option<Time>,
    deletedAt: Option<Time>)

  /** An `ApprovalLine` row: one step of a request, acted on by its approver. */
  datatype ApprovalLine = ApprovalLine(
    request: int,
    stepOrder: int,
    approver: int,
    status: string,
    actedAt: Option<Time>,
    comment: Option<string>,
    deletedAt: Option<Time>)

  /** An `ApprovalPolicy` row. */
  datatype Policy = Policy(requestType: string, deptType: string, role: string, deletedAt: Option<Time>)

  /** An `ApprovalPolicyStep` row. */
  datatype PolicyStep = PolicyStep(policy: int, stepOrder: int, selector: string, deletedAt: Option<Time>)

  /** A request as created: the status takes its default. */
  function NewRequest(requester: int, requestType: string, requestTypeId: int, now: Time): (r: ApprovalRequest)
    ensures r.status == PENDING && IsRequestStatus(r.status)
    ensures r.approvedAt.None? && r.rejectedAt.None? && r.cancelledAt.None? && r.deletedAt.None?
    ensures r.requester == requester && r.requestType == requestType && r.requestTypeId == requestTypeId
    ensures r.submittedAt == now
    ensures RequestChecks(r)
  {
    ApprovalRequest(requester, requestType, requestTypeId, PENDING, now, None, None, None, None)
  }

  /** A line as `create_approval_lines` builds it. */
  function NewLine(request: int, stepOrder: int, approver: int): (l: ApprovalLine)
    ensures l.status == PENDING && IsLineStatus(l.status)
    ensures l.request == request && l.stepOrder == stepOrder && l.approver == approver
    ensures l.actedAt.None? && l.comment.None? && l.deletedAt.None?
  {
    ApprovalLine(request, stepOrder, approver, PENDING, None, None, None)
  }

  /** The check constraints `ck_approval_request_approved_at` and
    * `ck_approval_request_rejected_at`. */
  predicate RequestChecks(r: ApprovalRequest) {
    (r.status == APPROVED ==> r.approvedAt.Some?) && (r.status == REJECTED ==> r.rejectedAt.Some?)
  }

  /** `unique_together = [['approval_request', 'step_order']]`, over every
    * row, soft-deleted ones included. */
  predicate LinesUnique(lines: seq<ApprovalLine>) {
    forall i, j :: 0 <= i < j < |lines| && lines[i].request == lines[j].request ==>
      lines[i].stepOrder != lines[j].stepOrder
  }

  /** `unique_together = [['policy', 'step_order']]`. */
  predicate StepsUnique(steps: seq<PolicyStep>) {
    forall i, j :: 0 <= i < j < |steps| && steps[i].policy == steps[j].policy ==>
      steps[i].stepOrder != steps[j].stepOrder
  }

  /** `ApprovalRequest.get_leave_request`: the leave request linked to
    * request `id` through its one-to-one field, given as each leave
    * request's `approval_request` id; `None` when there is none. */
  function GetLeaveRequest(links: seq<Option<int>>, id: int): (r: Option<int>)
    ensures r.Some? ==> 0 <= r.value < |links| && links[r.value] == Some(id)
    ensures r.None? <==> forall k :: 0 <= k < |links| ==> links[k] != Some(id)
  {
    if links == [] then None
    else if links[0] == Some(id) then Some(0)
    else
      var rest := GetLeaveRequest(links[1..], id);
      assert forall k :: 1 <= k < |links| ==> links[k] == links[1..][k - 1];
      if rest.Some? then Some(rest.value + 1) else None
  }
}
