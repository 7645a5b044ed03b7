/** The approval serializers: the approve and reject inputs, the choice
  * checks of policies, steps, lines and requests, the per-policy step order
  * rule, and the leave request an approval request shows. */
module ApprovalSerializers {
  import opened Common
  import opened Validation
  import opened ApprovalModels

  /** `ApprovalLineApproveInputSerializer`: `comment` is optional and may be
    * blank; a given comment is trimmed, as DRF's `CharField` does. */
  function ApproveInput(comment: Option<string>): (r: Result<Option<string>, Rejection>)
    ensures r.Ok?
    ensures comment.None? ==> r.value.None?
    ensures comment.Some? ==> r.value == Some(Strip(comment.value))
  {
    if comment.None? then Ok(None) else Ok(Some(Strip(comment.value)))
  }

  /** `ApprovalLineRejectInputSerializer`: `comment` is required and, once
    * trimmed, must not be empty. */
  function RejectInput(comment: Option<string>): (r: Result<string, Rejection>)
    ensures r.Ok? <==> comment.Some? && !IsBlank(comment.value)
    ensures r.Ok? ==> r.value == Strip(comment.value) && r.value != ""
    ensures r.Err? ==> r.error.field == "comment"
  {
    if comment.None? then Err(Rejection("comment"))
    else
      var c := Strip(comment.value);
      if c == "" then Err(Rejection("comment")) else Ok(c)
  }

  /** A comment of white space alone is a missing reason. */
  lemma {:induction false} BlankReasonRejected(comment: string)
    requires forall k :: 0 <= k < |comment| ==> IsSpace(comment[k])
    ensures RejectInput(Some(comment)).Err?
  {
  }

  /** `validate_approver_selector_type`. */
  function ValidateSelector(value: string): (r: Result<string, Rejection>)
    ensures r.Ok? <==> IsSelector(value)
    ensures r.Ok? ==> r.value == value
  {
    ValidateChoice("approver_selector_type", value, [DEPT_MANAGER, PARENT_DEPT_MANAGER, CEO])
  }

  /** `validate_request_type` of both the policy and the request
    * serializers, whose choice lists are the same. */
  function ValidateRequestType(value: string): (r: Result<string, Rejection>)
    ensures r.Ok? <==> IsRequestType(value)
    ensures r.Ok? ==> r.value == value
  {
    ValidateChoice("request_type", value, [LEAVE, PURCHASE, EXPENSE, PROJECT])
  }

  /** `validate_applies_to_role`. */
  function ValidateRole(value: string): (r: Result<string, Rejection>)
    ensures r.Ok? <==> IsRole(value)
  {
    ValidateChoice("applies_to_role", value, [EMPLOYEE, LEADER])
  }

  /** `validate_applies_to_dept_type` against `ORGANIZATION_TYPE_CHOICES`,
    * passed in. */
  function ValidateDeptType(value: string, orgTypes: seq<string>): (r: Result<string, Rejection>)
    ensures r.Ok? <==> value in orgTypes
  {
    ValidateChoice("applies_to_dept_type", value, orgTypes)
  }

  /** `ApprovalLineModelSerializer.validate_status`. */
  function ValidateLineStatus(value: string): (r: Result<string, Rejection>)
    ensures r.Ok? <==> IsLineStatus(value)
  {
    ValidateChoice("status", value, [PENDING, APPROVED, REJECTED])
  }

  /** `ApprovalRequestModelSerializer.validate_status`. */
  function ValidateRequestStatus(value: string): (r: Result<string, Rejection>)
    ensures r.Ok? <==> IsRequestStatus(value)
  {
    ValidateChoice("status", value, [PENDING, IN_PROGRESS, APPROVED, REJECTED, CANCELLED])
  }

  function LiveStep(): PolicyStep -> bool {
    (s: PolicyStep) => s.deletedAt.None?
  }

  function PolicyOrder(s: PolicyStep): (int, int) {
    (s.policy, s.stepOrder)
  }

  /** `ApprovalPolicyStepModelSerializer.validate`: the policy and the step
    * order from the input or the stored step `self`, the order through
    * `or` (so a 0 in the input falls back, and with no stored step is
    * missing); with both known, a live step other than `self` of the same
    * policy and order rejects on `step_order`. */
  function ValidateStep(steps: seq<PolicyStep>, policy: Option<int>, stepOrder: Option<int>, self: Option<int>): (r: Option<Rejection>)
    requires self.Some? ==> 0 <= self.value < |steps|
    ensures var p := OrRef(policy, if self.Some? then Some(steps[self.value].policy) else None);
            var o := OrInt(stepOrder, if self.Some? then Some(steps[self.value].stepOrder) else None);
            r.Some? <==> p.Some? && o.Some? && Taken(steps, LiveStep(), PolicyOrder, (p.value, o.value), self)
    ensures r.Some? ==> r.value.field == "step_order"
  {
    var p := OrRef(policy, if self.Some? then Some(steps[self.value].policy) else None);
    var o := OrInt(stepOrder, if self.Some? then Some(steps[self.value].stepOrder) else None);
    if p.Some? && o.Some? && Taken(steps, LiveStep(), PolicyOrder, (p.value, o.value), self) then
      Some(Rejection("step_order"))
    else None
  }

  /** A new step whose non-zero order the check accepted keeps step orders
    * unique per policy among live steps. */
  lemma {:induction false} StepCreateKeepsUnique(steps: seq<PolicyStep>, policy: int, stepOrder: int, selector: string)
    requires UniqueOn(steps, LiveStep(), PolicyOrder) && stepOrder != 0
    requires ValidateStep(steps, Some(policy), Some(stepOrder), None).None?
    ensures UniqueOn(steps + [PolicyStep(policy, stepOrder, selector, None)], LiveStep(), PolicyOrder)
  {
    InsertKeepsUnique(steps, LiveStep(), PolicyOrder, PolicyStep(policy, stepOrder, selector, None));
  }

  /** A new step with order 0 is never compared: the `or` turns the 0 into a
    * missing value, so a second live step 0 of the same policy passes. */
  lemma {:induction false} ZeroOrderUnchecked(policy: int, selector: string)
    ensures var steps := [PolicyStep(policy, 0, selector, None)];
            UniqueOn(steps, LiveStep(), PolicyOrder)
            && ValidateStep(steps, Some(policy), Some(0), None).None?
            && !UniqueOn(steps + [PolicyStep(policy, 0, selector, None)], LiveStep(), PolicyOrder)
  {
    var steps := [PolicyStep(policy, 0, selector, None)];
    var after := steps + [PolicyStep(policy, 0, selector, None)];
    assert PolicyOrder(after[0]) == PolicyOrder(after[1]);
  }

  /** `get_leave_request_id`: for a LEAVE request, the leave request linked
    * to it, or `None` when there is none (the `except` around the reverse
    * lookup); `None` for every other type. */
  function LeaveRequestId(request: ApprovalRequest, id: int, links: seq<Option<int>>): (r: Option<int>)
    ensures r.Some? <==> request.requestType == LEAVE && exists k :: 0 <= k < |links| && links[k] == Some(id)
    ensures r.Some? ==> 0 <= r.value < |links| && links[r.value] == Some(id)
  {
    if request.requestType == LEAVE then GetLeaveRequest(links, id) else None
  }
}
