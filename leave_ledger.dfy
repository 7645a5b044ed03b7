/** `LeaveService` over the three leave tables: creating requests, consuming
  * grants for an approved request, rolling a consumption back, cancelling a
  * request, and the anniversary accrual. Each call is all-or-nothing, as the
  * source's transactions make it. */
module LeaveLedger {
  import opened Common
  import opened Calendar
  import opened Sorting
  import opened LeaveRules

  /** Whether `id` names a request that is not deleted (`.get(id=…, deleted_at__isnull=True)`). */
  predicate Found(requests: seq<LeaveRequest>, id: int) {
    0 <= id < |requests| && requests[id].deletedAt.None?
  }

  class Ledger {
    var grants: seq<Grant>
    var requests: seq<LeaveRequest>
    var usages: seq<Usage>

    /** Every usage names an existing grant (the foreign key). */
    predicate Valid()
      reads this
    {
      UsagesIn(usages, |grants|)
    }

    constructor (grants0: seq<Grant>, requests0: seq<LeaveRequest>, usages0: seq<Usage>)
      requires UsagesIn(usages0, |grants0|)
      ensures Valid()
      ensures grants == grants0 && requests == requests0 && usages == usages0
    {
      grants := grants0;
      requests := requests0;
      usages := usages0;
    }

    /** `create_leave_request`: validate, then store a PENDING request. */
    method CreateLeaveRequest(user: UserId, leaveType: string, start: Day, end: Day, total: Halves,
                              reason: string, delegate: UserId, today: Day)
      returns (r: Result<int, LeaveError>)
      requires Valid()
      modifies this
      ensures Valid()
      ensures grants == old(grants) && usages == old(usages)
      ensures var check := CheckLeaveRequest(old(grants), user, leaveType, start, end, total, today);
              (check.Some? ==> r == Err(check.value) && requests == old(requests))
              && (check.None? ==>
                    r == Ok(|old(requests)|)
                    && requests == old(requests)
                       + [LeaveRequest(user, leaveType, start, end, total, reason, delegate, PENDING, None, None, None)])
    {
      if start > end {
        return Err(StartAfterEnd);
      }
      if IsHalfDayType(leaveType) {
        if start != end {
          return Err(HalfDayNotSingleDay);
        }
        if total != 1 {
          return Err(HalfDayNotHalf);
        }
      }
      if total <= 0 {
        return Err(NonPositiveDays);
      }
      var remaining := GetLeaveRemaining(grants, user, today);
      if remaining.None? {
        return Err(NoBalance);
      }
      if remaining.value < total {
        return Err(InsufficientBalance);
      }
      r := Ok(|requests|);
      requests := requests + [LeaveRequest(user, leaveType, start, end, total, reason, delegate, PENDING, None, None, None)];
    }

    /** `create_leave_usage`: charge the grants for an approved request.
      * A half-day takes 0.5 from the oldest drawable ANNUAL grant; any other
      * type walks the drawable grants of that type oldest first, taking
      * `min(still needed, remainder)` from each, and fails when days remain. */
    method CreateLeaveUsage(requestId: int, now: Time) returns (r: Result<seq<Usage>, LeaveError>)
      requires Valid()
      modifies this
      ensures Valid()
      ensures requests == old(requests)
      ensures r.Err? ==> grants == old(grants) && usages == old(usages)
      ensures !Found(old(requests), requestId) ==> r == Err(RequestNotFound)
      ensures (Found(old(requests), requestId) && old(requests)[requestId].status != APPROVED)
        ==> r == Err(NotApproved)
      ensures (Found(old(requests), requestId) && old(requests)[requestId].status == APPROVED
                && HasActiveUsage(old(usages), requestId))
        ==> r == Err(AlreadyUsed)
      ensures (Found(old(requests), requestId) && old(requests)[requestId].status == APPROVED
                && !HasActiveUsage(old(usages), requestId)
                && IsHalfDayType(old(requests)[requestId].leaveType))
        ==> var req := old(requests)[requestId];
                    var ids := Available(old(grants), req.user, ANNUAL);
                    (ids == [] ==> r == Err(NoAnnualGrant))
                    && (ids != [] ==>
                          var row := HalfDayRow(req.user, ids[0], requestId, req.startDate);
                          r == Ok([row])
                          && grants == old(grants)[ids[0] := Deduct(old(grants)[ids[0]], 1, now)]
                          && usages == old(usages) + [row])
      ensures (Found(old(requests), requestId) && old(requests)[requestId].status == APPROVED
                && !HasActiveUsage(old(usages), requestId)
                && !IsHalfDayType(old(requests)[requestId].leaveType))
        ==> var req := old(requests)[requestId];
                    var ids := Available(old(grants), req.user, req.leaveType);
                    var taken := Takes(req.totalDays, Remainders(old(grants), ids));
                    (Sum(taken) < req.totalDays ==> r == Err(Uncovered))
                    && (Sum(taken) >= req.totalDays ==>
                          var rows := FullDayRows(req.user, requestId, req.startDate, ids, taken);
                          r == Ok(rows)
                          && grants == Charged(old(grants), ids, taken, now)
                          && usages == old(usages) + rows)
    {
      if !Found(requests, requestId) {
        return Err(RequestNotFound);
      }
      var req := requests[requestId];
      if req.status != APPROVED {
        return Err(NotApproved);
      }
      if exists k :: 0 <= k < |usages| && ActiveUsageOf(usages[k], requestId) {
        return Err(AlreadyUsed);
      }
      if IsHalfDayType(req.leaveType) {
        r := ConsumeHalfDay(requestId, req.user, req.startDate, now);
      } else {
        r := ConsumeFullDay(requestId, req.user, req.leaveType, req.startDate, req.totalDays, now);
      }
    }

    /** The half-day branch of `create_leave_usage`: half a day from the
      * oldest drawable ANNUAL grant, recorded with `used_at`. */
    method ConsumeHalfDay(requestId: int, user: UserId, start: Day, now: Time)
      returns (r: Result<seq<Usage>, LeaveError>)
      requires Valid()
      modifies this
      ensures Valid()
      ensures requests == old(requests)
      ensures var ids := Available(old(grants), user, ANNUAL);
              (ids == [] ==> r == Err(NoAnnualGrant) && grants == old(grants) && usages == old(usages))
              && (ids != [] ==>
                    var row := HalfDayRow(user, ids[0], requestId, start);
                    r == Ok([row])
                    && grants == old(grants)[ids[0] := Deduct(old(grants)[ids[0]], 1, now)]
                    && usages == old(usages) + [row])
    {
      var ids := Available(grants, user, ANNUAL);
      if ids == [] {
        return Err(NoAnnualGrant);
      }
      var grant := grants[ids[0]];
      var row := HalfDayRow(user, ids[0], requestId, start);
      var left := grant.remainingDays - 1;
      var g := grant.(remainingDays := left);
      if left == 0 {
        g := g.(deletedAt := Some(now));
      }
      assert g == Deduct(grant, 1, now);
      UsageAppended(usages, row, |grants|);
      grants := grants[ids[0] := g];
      usages := usages + [row];
      r := Ok([row]);
    }

    /** The full-day branch of `create_leave_usage`: the FIFO walk over the
      * drawable grants of the request's type, failing when days remain. */
    method ConsumeFullDay(requestId: int, user: UserId, leaveType: string, start: Day, total: Halves, now: Time)
      returns (r: Result<seq<Usage>, LeaveError>)
      requires Valid()
      modifies this
      ensures Valid()
      ensures requests == old(requests)
      ensures var ids := Available(old(grants), user, leaveType);
              var taken := Takes(total, Remainders(old(grants), ids));
              (Sum(taken) < total ==> r == Err(Uncovered) && grants == old(grants) && usages == old(usages))
              && (Sum(taken) >= total ==>
                    var rows := FullDayRows(user, requestId, start, ids, taken);
                    r == Ok(rows)
                    && grants == Charged(old(grants), ids, taken, now)
                    && usages == old(usages) + rows)
    {
      var ids := Available(grants, user, leaveType);
      var charged, rows, toUse := FullDayWalk(grants, ids, user, requestId, start, total, now);
      if toUse > 0 {
        return Err(Uncovered);
      }
      ghost var taken := Takes(total, Remainders(grants, ids));
      FullDayRowsAreRowsFor(user, requestId, start, ids, taken);
      AppendedRows(usages, rows, requestId, ids, taken, |grants|);
      grants := charged;
      usages := usages + rows;
      r := Ok(rows);
    }

    /** `rollback_leave_usage`: give each live usage of the request back to
      * its grant (each write starting from the grant as read), then remove
      * those usages. */
    method RollbackLeaveUsage(requestId: int)
      requires Valid()
      modifies this
      ensures Valid()
      ensures requests == old(requests)
      ensures grants == Returned(old(grants), old(usages), ActiveUsageIds(old(usages), requestId))
      ensures usages == WithoutActiveUsages(old(usages), requestId)
    {
      var rows := usages;
      var active := ActiveUsageIds(rows, requestId);
      var restored := ReturnUsages(grants, rows, active);
      grants := restored;
      usages := WithoutActiveUsages(rows, requestId);
      FilterKeepsUsagesIn(rows, |grants|, u => !ActiveUsageOf(u, requestId));
    }

    /** `cancel_leave_request`: a request that is not deleted and not already
      * cancelled becomes CANCELLED. Its usages are rolled back only when its
      * status is something other than APPROVED. */
    method CancelLeaveRequest(requestId: int, reason: string, now: Time) returns (r: Result<LeaveRequest, LeaveError>)
      requires Valid()
      modifies this
      ensures Valid()
      ensures !Found(old(requests), requestId) ==> r == Err(RequestNotFound) && unchanged(this)
      ensures (Found(old(requests), requestId) && old(requests)[requestId].status == CANCELLED)
        ==> r == Err(AlreadyCancelled) && unchanged(this)
      ensures (Found(old(requests), requestId) && old(requests)[requestId].status != CANCELLED)
        ==> var req := old(requests)[requestId];
                    var done := req.(status := CANCELLED, cancelledAt := Some(now), cancelReason := Some(reason));
                    var rollback := req.status != APPROVED && HasActiveUsage(old(usages), requestId);
                    r == Ok(done)
                    && requests == old(requests)[requestId := done]
                    && (rollback ==>
                          grants == Returned(old(grants), old(usages), ActiveUsageIds(old(usages), requestId))
                          && usages == WithoutActiveUsages(old(usages), requestId))
                    && (!rollback ==> grants == old(grants) && usages == old(usages))
                    && (grants, usages) == CancelTables(old(grants), old(usages), requestId, req.status)
    {
      if !Found(requests, requestId) {
        return Err(RequestNotFound);
      }
      var req := requests[requestId];
      if req.status == CANCELLED {
        return Err(AlreadyCancelled);
      }
      if req.status != APPROVED {
        if exists k :: 0 <= k < |usages| && ActiveUsageOf(usages[k], requestId) {
          RollbackLeaveUsage(requestId);
        }
      }
      req := req.(status := CANCELLED, cancelledAt := Some(now), cancelReason := Some(reason));
      requests := requests[requestId := req];
      r := Ok(req);
    }

    /** `create_annual_leave_grant`: store the grant the accrual rule makes
      * for `target` (if any); `grantedAt` is the wall-clock `now`. */
    method CreateAnnualLeaveGrant(user: UserId, joined: Option<Day>, target: Day, now: Time)
      returns (r: Result<seq<Grant>, LeaveError>)
      requires Valid()
      modifies this
      ensures Valid()
      ensures requests == old(requests) && usages == old(usages)
      ensures var plan := PlanAnnualGrant(joined, target);
              (plan.Err? ==> r == Err(plan.error) && grants == old(grants))
              && (plan.Ok? && plan.value.None? ==> r == Ok([]) && grants == old(grants))
              && (plan.Ok? && plan.value.Some? ==>
                    var g := Grant(user, ANNUAL, plan.value.value.days, plan.value.value.days,
                                   now, plan.value.value.expiresAt, None);
                    r == Ok([g]) && grants == old(grants) + [g])
    {
      var plan := PlanAnnualGrant(joined, target);
      if plan.Err? {
        return Err(plan.error);
      }
      if plan.value.None? {
        return Ok([]);
      }
      var ng := plan.value.value;
      var g := Grant(user, ANNUAL, ng.days, ng.days, now, ng.expiresAt, None);
      grants := grants + [g];
      r := Ok([g]);
    }
  }

  /** The loop of `rollback_leave_usage` and its `bulk_update`: for each
    * usage `active` names, take its grant as read (`base`), add the days
    * back, clear `deleted_at` when the grant is then positive and collect it;
    * then write the collected grants. */
  method ReturnUsages(base: seq<Grant>, rows: seq<Usage>, active: seq<int>) returns (restored: seq<Grant>)
    requires UsagesIn(rows, |base|) && forall j :: 0 <= j < |active| ==> 0 <= active[j] < |rows|
    ensures restored == Returned(base, rows, active)
  {
    var toUpdate: seq<(int, Grant)> := [];
    var k := 0;
    while k < |active|
      invariant 0 <= k <= |active|
      invariant ReturnObjects(base, rows, active[..k], toUpdate)
    {
      var u := rows[active[k]];
      var g := base[u.grant];
      var back := g.remainingDays + u.usedDays;
      g := g.(remainingDays := back);
      if back > 0 && g.deletedAt.Some? {
        g := g.(deletedAt := None);
      }
      assert g == Restore(base[u.grant], u.usedDays);
      toUpdate := toUpdate + [(u.grant, g)];
      k := k + 1;
      assert active[..k][..k - 1] == active[..k - 1];
    }
    assert active[..k] == active;
    BulkUpdateReturns(base, rows, active, toUpdate);
    restored := BulkUpdate(base, toUpdate);
  }

  /** The loop of `create_leave_usage` for a full-day request: visit the
    * grants `ids` in order, take `min(still needed, remainder)` from each,
    * record a usage dated `start` advanced by the whole days used so far, and
    * soft-delete a grant that reaches 0. Returns the charged table, the usage
    * rows and what is left uncovered. */
  method FullDayWalk(base: seq<Grant>, ids: seq<int>, user: UserId, requestId: int, start: Day,
                     total: Halves, now: Time)
    returns (charged: seq<Grant>, rows: seq<Usage>, toUse: Halves)
    requires IdsIn(ids, |base|) && Distinct(ids)
    ensures var taken := Takes(total, Remainders(base, ids));
            charged == Charged(base, ids, taken, now)
            && rows == FullDayRows(user, requestId, start, ids, taken)
            && toUse == total - Sum(taken)
  {
    charged := base;
    rows := [];
    ghost var taken: seq<Halves> := [];
    toUse := total;
    var current := start;
    var i := 0;
    while i < |ids|
      invariant WalkState(base, ids, user, requestId, start, total, now, i, taken, charged, rows, toUse, current)
    {
      WalkStep(base, ids, user, requestId, start, total, now, i, taken, charged, rows, toUse, current);
      var grant := charged[ids[i]];
      var dailyUse := Min(toUse, grant.remainingDays);
      rows := rows + [Usage(user, ids[i], requestId, dailyUse, Some(current), None, None)];
      var left := grant.remainingDays - dailyUse;
      var g := grant.(remainingDays := left);
      if left == 0 {
        g := g.(deletedAt := Some(now));
      }
      assert g == Deduct(grant, dailyUse, now);
      charged := charged[ids[i] := g];
      taken := taken + [dailyUse];
      toUse := toUse - dailyUse;
      current := current + WholeDays(dailyUse);
      i := i + 1;
    }
    WalkDone(base, ids, user, requestId, start, total, now, taken, charged, rows, toUse, current);
  }

  /** Removing usages keeps every remaining one pointing at an existing grant. */
  lemma {:induction false} FilterKeepsUsagesIn(usages: seq<Usage>, n: nat, p: Usage -> bool)
    requires UsagesIn(usages, n)
    ensures UsagesIn(Filter(usages, p), n)
  {
    var f := Filter(usages, p);
    forall k | 0 <= k < |f| ensures 0 <= f[k].grant < n {
      var x := f[k];
      assert x in usages;
    }
  }
}
