/** The leave serializers' validators. Amounts are half-days, dates day
  * numbers; a field the request leaves out is `None` and falls back to the
  * stored row through `or`, so a falsy value (`0`, `""`) also falls back. */
module LeaveSerializers {
  import opened Common
  import opened Validation
  import LeaveRules

  /** How a `validate` call ends: the data is accepted, a
    * `ValidationError` keyed by a field is raised, or Python raises
    * something else (a `TypeError` from comparing with `None`, or DRF's
    * assertion that `validate` returned the data). */
  datatype Verdict = Accepted | Rejected(field: string) | Crashed

  /** `LeaveGrant.GRANT_TYPE_CHOICES`. */
  const GRANT_TYPES: seq<string> := ["ANNUAL", "MONTH"]

  /** `LeaveGrantModelSerializer.validate_grant_type`. */
  function ValidateGrantType(value: string): (r: Result<string, Rejection>)
    ensures r.Ok? <==> value == "ANNUAL" || value == "MONTH"
  {
    ValidateChoice("grant_type", value, GRANT_TYPES)
  }

  /** The stored amounts of the grant being updated. */
  datatype GrantAmounts = GrantAmounts(total: int, remaining: int)

  /** The amounts `validate` reads: the input's when truthy, else the
    * stored ones, else `None`. */
  function StoredTotal(instance: Option<GrantAmounts>): Option<int> {
    if instance.Some? then Some(instance.value.total) else None
  }

  function StoredRemaining(instance: Option<GrantAmounts>): Option<int> {
    if instance.Some? then Some(instance.value.remaining) else None
  }

  /** `LeaveGrantModelSerializer.validate` as written: the bounds are
    * checked only when one of the two amounts is falsy, and comparing with
    * a missing amount raises. */
  function ValidateGrant(total: Option<int>, remaining: Option<int>, instance: Option<GrantAmounts>): (r: Verdict)
    ensures var t := OrInt(total, StoredTotal(instance));
            var m := OrInt(remaining, StoredRemaining(instance));
            (TruthyInt(t) && TruthyInt(m) ==> r == Accepted)
            && (!(TruthyInt(t) && TruthyInt(m)) ==>
                  (m.None? ==> r == Crashed)
                  && (m.Some? && m.value < 0 ==> r == Rejected("remaining_days"))
                  && (m.Some? && m.value >= 0 && t.None? ==> r == Crashed)
                  && (m.Some? && m.value >= 0 && t.Some? ==>
                        (r == Accepted <==> m.value <= t.value)
                        && (r != Accepted ==> r == Rejected("remaining_days"))))
  {
    var t := OrInt(total, StoredTotal(instance));
    var m := OrInt(remaining, StoredRemaining(instance));
    if TruthyInt(t) && TruthyInt(m) then Accepted
    else if m.None? then Crashed
    else if m.value < 0 then Rejected("remaining_days")
    else if t.None? then Crashed
    else if m.value > t.value then Rejected("remaining_days")
    else Accepted
  }

  /** With both amounts given and non-zero nothing is compared: a grant
    * whose remainder exceeds its total (one day granted, two remaining) is
    * accepted. */
  lemma {:induction false} GrantBoundsSkipped()
    ensures ValidateGrant(Some(2), Some(4), None) == Accepted
  {
  }

  /** The same checks applied whenever both amounts are known, which is
    * what the error messages describe. */
  function ValidateGrantBounds(total: Option<int>, remaining: Option<int>, instance: Option<GrantAmounts>): (r: Verdict)
    ensures r != Crashed
    ensures r != Accepted ==> r == Rejected("remaining_days")
  {
    var t := OrInt(total, StoredTotal(instance));
    var m := OrInt(remaining, StoredRemaining(instance));
    if m.None? || t.None? then Accepted
    else if m.value < 0 then Rejected("remaining_days")
    else if m.value > t.value then Rejected("remaining_days")
    else Accepted
  }

  /** The corrected check accepts known amounts exactly when the remainder
    * lies between 0 and the total. */
  lemma {:induction false} GrantBoundsHold(total: Option<int>, remaining: Option<int>, instance: Option<GrantAmounts>)
    ensures var t := OrInt(total, StoredTotal(instance));
            var m := OrInt(remaining, StoredRemaining(instance));
            t.Some? && m.Some? ==>
              (ValidateGrantBounds(total, remaining, instance) == Accepted <==> 0 <= m.value <= t.value)
  {
  }

  /** The stored fields of the leave request being updated. */
  datatype RequestFields = RequestFields(start: int, end: int, leaveType: string, total: int)

  /** `LeaveRequestModelSerializer.validate` after the `or` fallbacks, on
    * resolved values. */
  function CheckRequest(start: Option<int>, end: Option<int>, leaveType: Option<string>, total: Option<int>): (r: Verdict)
    ensures start.Some? && end.Some? && start.value > end.value ==> r == Rejected("end_date")
    ensures r == Accepted ==> start.Some? && end.Some? ==> start.value <= end.value
    ensures (leaveType.Some? && LeaveRules.IsHalfDayType(leaveType.value)) ==>
              (r == Accepted <==> (start.Some? && end.Some? ==> start.value == end.value) && (total.Some? ==> total.value == 1))
    ensures !(leaveType.Some? && LeaveRules.IsHalfDayType(leaveType.value)) ==>
              (r == Accepted <==>
                 start.Some? && end.Some? && start.value <= end.value && total.Some? && total.value > 0
                 && total.value == 2 * (end.value - start.value + 1))
    ensures (!(leaveType.Some? && LeaveRules.IsHalfDayType(leaveType.value)) && total.Some? && total.value <= 0
             && !(start.Some? && end.Some? && start.value > end.value)) ==> r == Rejected("total_days")
    ensures (!(leaveType.Some? && LeaveRules.IsHalfDayType(leaveType.value)) && (start.None? || end.None? || total.None?)
             && !(total.Some? && total.value <= 0) && !(start.Some? && end.Some? && start.value > end.value))
            ==> r == Crashed
  {
    if start.Some? && end.Some? && start.value > end.value then Rejected("end_date")
    else if leaveType.Some? && LeaveRules.IsHalfDayType(leaveType.value) then
      if start.Some? && end.Some? && start.value != end.value then Rejected("end_date")
      else if total.Some? && total.value != 1 then Rejected("total_days")
      else Accepted
    else if total.Some? && total.value <= 0 then Rejected("total_days")
    else if start.Some? && end.Some? && TruthyInt(total) then
      if 2 * (end.value - start.value + 1) != total.value then Rejected("total_days") else Accepted
    else Crashed
  }

  /** `LeaveRequestModelSerializer.validate`: each field from the input or
    * the stored request; the full-day path that does not compare the day
    * count falls off the end of the method, so DRF's check that `validate`
    * returned the data raises. */
  function ValidateRequest(start: Option<int>, end: Option<int>, leaveType: Option<string>, total: Option<int>,
                           instance: Option<RequestFields>): (r: Verdict)
    ensures r == CheckRequest(OrRef(start, if instance.Some? then Some(instance.value.start) else None),
                              OrRef(end, if instance.Some? then Some(instance.value.end) else None),
                              OrStr(leaveType, if instance.Some? then Some(instance.value.leaveType) else None),
                              OrInt(total, if instance.Some? then Some(instance.value.total) else None))
  {
    var s := OrRef(start, if instance.Some? then Some(instance.value.start) else None);
    var e := OrRef(end, if instance.Some? then Some(instance.value.end) else None);
    var t := OrStr(leaveType, if instance.Some? then Some(instance.value.leaveType) else None);
    var n := OrInt(total, if instance.Some? then Some(instance.value.total) else None);
    CheckRequest(s, e, t, n)
  }

  /** A request the serializer accepts with every field known passes every
    * check of `create_leave_request` except the balance: the service can
    * only reject it for a missing or short balance. */
  lemma {:induction false} AcceptedPassesShapeChecks(grants: seq<LeaveRules.Grant>, user: int, leaveType: string,
                                  start: int, end: int, total: int, today: int)
    requires CheckRequest(Some(start), Some(end), Some(leaveType), Some(total)) == Accepted
    ensures var r := LeaveRules.CheckLeaveRequest(grants, user, leaveType, start, end, total, today);
            r.None? || r == Some(LeaveRules.NoBalance) || r == Some(LeaveRules.InsufficientBalance)
  {
  }

  /** `validate_leave_type` and `validate_status` compare with
    * `LeaveRequest.LEAVE_TYPE_CHOICES` and `LeaveRequest.STATUS_CHOICES`;
    * the lists are passed in. */
  function ValidateLeaveType(value: string, choices: seq<string>): (r: Result<string, Rejection>)
    ensures r.Ok? <==> value in choices
  {
    ValidateChoice("leave_type", value, choices)
  }

  function ValidateStatus(value: string, choices: seq<string>): (r: Result<string, Rejection>)
    ensures r.Ok? <==> value in choices
  {
    ValidateChoice("status", value, choices)
  }

  /** `LeaveUsageModelSerializer.validate_used_days`. */
  function ValidateUsedDays(value: int): (r: Result<int, Rejection>)
    ensures r.Ok? <==> value > 0
    ensures r.Ok? ==> r.value == value
  {
    if value <= 0 then Err(Rejection("used_days")) else Ok(value)
  }
}
