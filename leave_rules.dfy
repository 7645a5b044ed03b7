/** The value-level rules of the leave ledger (apps/domain/leaves/service.py):
  * records, the balance, request validation, the FIFO split of a request
  * over grants, the grant updates of consumption and rollback, and the
  * anniversary accrual rule. Leave amounts are integer half-days. */
module LeaveRules {
  import opened Common
  import opened Calendar
  import opened Sorting

  type UserId = int

  /** A leave amount in half-days: 1 is 0.5 day, 2 is one day. */
  type Halves = int

  const ANNUAL: string := "ANNUAL"
  const HALF_MORNING: string := "HALF_MORNING"
  const HALF_AFTERNOON: string := "HALF_AFTERNOON"

  const PENDING: string := "PENDING"
  const APPROVED: string := "APPROVED"
  const CANCELLED: string := "CANCELLED"

  predicate IsHalfDayType(t: string) {
    t == HALF_MORNING || t == HALF_AFTERNOON
  }

  /** A `LeaveGrant` row; its id is its position in the grant table. */
  datatype Grant = Grant(
    user: UserId,
    grantType: string,
    totalDays: Halves,
    remainingDays: Halves,
    grantedAt: Time,
    expiresAt: Day,
    deletedAt: Option<Time>)

  /** A `LeaveRequest` row; its id is its position in the request table. */
  datatype LeaveRequest = LeaveRequest(
    user: UserId,
    leaveType: string,
    startDate: Day,
    endDate: Day,
    totalDays: Halves,
    reason: string,
    delegate: UserId,
    status: string,
    cancelledAt: Option<Time>,
    cancelReason: Option<string>,
    deletedAt: Option<Time>)

  /** A `LeaveUsage` row: `grant` and `request` are row ids. A full-day usage
    * records `usedDate`, a half-day usage records `usedAt`. */
  datatype Usage = Usage(
    user: UserId,
    grant: int,
    request: int,
    usedDays: Halves,
    usedDate: Option<Day>,
    usedAt: Option<Day>,
    deletedAt: Option<Time>)

  /** Why a leave operation raises. */
  datatype LeaveError =
    | StartAfterEnd
    | HalfDayNotSingleDay
    | HalfDayNotHalf
    | NonPositiveDays
    | NoBalance             // the balance is None and `None < total_days` raises
    | InsufficientBalance
    | RequestNotFound
    | NotApproved
    | AlreadyUsed
    | NoAnnualGrant
    | Uncovered
    | AlreadyCancelled
    | NoJoinDate
    | InvalidDate           // `date(y, m, d)` raises ValueError
    | DecimalDays           // `timedelta(days=...)` of a `Decimal` raises TypeError
    | DuplicateKey          // an INSERT under a key the table holds raises IntegrityError

  // ---------------------------------------------------------------------
  // Balance
  // ---------------------------------------------------------------------

  /** A grant counted in the balance as of `asOf`. */
  predicate Counted(g: Grant, user: UserId, asOf: Day) {
    g.user == user && g.deletedAt.None? && g.expiresAt > asOf
  }

  function SumRemaining(gs: seq<Grant>): int {
    if gs == [] then 0 else gs[0].remainingDays + SumRemaining(gs[1..])
  }

  /** `get_leave_remaining`: the SQL sum of `remaining_days` over the user's
    * live, unexpired grants, which is `None` when no row matches. */
  function GetLeaveRemaining(grants: seq<Grant>, user: UserId, asOf: Day): (r: Option<Halves>)
    ensures r.None? <==> forall i :: 0 <= i < |grants| ==> !Counted(grants[i], user, asOf)
    ensures r.Some? ==> r.value == SumRemaining(Filter(grants, g => Counted(g, user, asOf)))
  {
    if grants == [] then None
    else
      var rest := GetLeaveRemaining(grants[1..], user, asOf);
      assert forall i :: 1 <= i < |grants| ==> grants[i] == grants[1..][i - 1];
      if Counted(grants[0], user, asOf) then
        Some(grants[0].remainingDays + (if rest.Some? then rest.value else 0))
      else rest
  }

  // ---------------------------------------------------------------------
  // Request validation
  // ---------------------------------------------------------------------

  /** The checks of `create_leave_request`, in order: `None` when the request
    * may be created, else the first failing check. */
  function CheckLeaveRequest(grants: seq<Grant>, user: UserId, leaveType: string,
                             start: Day, end: Day, total: Halves, today: Day): (r: Option<LeaveError>)
    ensures r.None? <==>
      start <= end
      && (IsHalfDayType(leaveType) ==> start == end && total == 1)
      && total > 0
      && GetLeaveRemaining(grants, user, today).Some?
      && GetLeaveRemaining(grants, user, today).value >= total
    ensures start > end ==> r == Some(StartAfterEnd)
    ensures r == Some(NoBalance) ==> GetLeaveRemaining(grants, user, today).None?
  {
    if start > end then Some(StartAfterEnd)
    else if IsHalfDayType(leaveType) && start != end then Some(HalfDayNotSingleDay)
    else if IsHalfDayType(leaveType) && total != 1 then Some(HalfDayNotHalf)
    else if total <= 0 then Some(NonPositiveDays)
    else
      var remaining := GetLeaveRemaining(grants, user, today);
      if remaining.None? then Some(NoBalance)
      else if remaining.value < total then Some(InsufficientBalance)
      else None
  }

  // ---------------------------------------------------------------------
  // Which grants a usage may draw on
  // ---------------------------------------------------------------------

  /** A grant the consumption query returns: the user's, of the type, with a
    * positive remainder, not deleted. Expiry is not consulted. */
  predicate Drawable(g: Grant, user: UserId, grantType: string) {
    g.user == user && g.grantType == grantType && g.remainingDays > 0 && g.deletedAt.None?
  }

  /** Ids of the drawable grants in `granted_at` order (`order_by('granted_at')`). */
  function Available(grants: seq<Grant>, user: UserId, grantType: string): (r: seq<int>)
    ensures forall k :: 0 <= k < |r| ==> 0 <= r[k] < |grants| && Drawable(grants[r[k]], user, grantType)
    ensures forall i :: 0 <= i < |grants| && Drawable(grants[i], user, grantType) ==> i in r
    ensures forall j, k :: 0 <= j < k < |r| ==> grants[r[j]].grantedAt <= grants[r[k]].grantedAt
    ensures Distinct(r)
  {
    Query(grants, (g: Grant) => Drawable(g, user, grantType), (g: Grant) => g.grantedAt)
  }

  function Remainders(grants: seq<Grant>, ids: seq<int>): (r: seq<Halves>)
    requires forall k :: 0 <= k < |ids| ==> 0 <= ids[k] < |grants|
    ensures |r| == |ids| && forall k :: 0 <= k < |ids| ==> r[k] == grants[ids[k]].remainingDays
  {
    seq(|ids|, k requires 0 <= k < |ids| => grants[ids[k]].remainingDays)
  }

  // ---------------------------------------------------------------------
  // The FIFO split: daily_use = min(remaining_to_use, grant.remaining_days)
  // ---------------------------------------------------------------------

  function Sum(s: seq<int>): int {
    if s == [] then 0 else Sum(s[..|s| - 1]) + s[|s| - 1]
  }

  /** The amounts the walk takes from the first `k` grants when `need` is
    * requested and the grants hold `rems`. */
  function TakesPrefix(need: Halves, rems: seq<Halves>, k: nat): (t: seq<Halves>)
    requires k <= |rems|
    ensures |t| == k
  {
    if k == 0 then []
    else
      var prev := TakesPrefix(need, rems, k - 1);
      prev + [Min(need - Sum(prev), rems[k - 1])]
  }

  function Takes(need: Halves, rems: seq<Halves>): (t: seq<Halves>)
    ensures |t| == |rems|
  {
    TakesPrefix(need, rems, |rems|)
  }

  lemma {:induction false} SumAppend(s: seq<int>, x: int)
    ensures Sum(s + [x]) == Sum(s) + x
  {
    assert (s + [x])[..|s|] == s;
  }

  lemma {:induction false} SumPrefixGrows(rems: seq<Halves>, j: nat, k: nat)
    requires j <= k <= |rems|
    requires forall i :: 0 <= i < |rems| ==> rems[i] >= 0
    ensures Sum(rems[..j]) <= Sum(rems[..k])
  {
    if j < k {
      SumPrefixGrows(rems, j, k - 1);
      assert rems[..k] == rems[..k - 1] + [rems[k - 1]];
      SumAppend(rems[..k - 1], rems[k - 1]);
    }
  }

  /** The walk takes as much as is needed and no more than the grants hold:
    * after `k` grants it has taken `min(need, sum of their remainders)`. */
  lemma {:induction false} TakesPrefixSum(need: Halves, rems: seq<Halves>, k: nat)
    requires need >= 0 && k <= |rems|
    requires forall i :: 0 <= i < |rems| ==> rems[i] >= 0
    ensures Sum(TakesPrefix(need, rems, k)) == Min(need, Sum(rems[..k]))
  {
    if k > 0 {
      var prev := TakesPrefix(need, rems, k - 1);
      TakesPrefixSum(need, rems, k - 1);
      SumAppend(prev, Min(need - Sum(prev), rems[k - 1]));
      assert rems[..k] == rems[..k - 1] + [rems[k - 1]];
      SumAppend(rems[..k - 1], rems[k - 1]);
    }
  }

  lemma {:induction false} TakesPrefixExtends(need: Halves, rems: seq<Halves>, j: nat, k: nat)
    requires j <= k <= |rems|
    ensures TakesPrefix(need, rems, k)[..j] == TakesPrefix(need, rems, j)
  {
    if j < k {
      TakesPrefixExtends(need, rems, j, k - 1);
      var prev := TakesPrefix(need, rems, k - 1);
      assert TakesPrefix(need, rems, k)[..k - 1] == prev;
      assert TakesPrefix(need, rems, k)[..j] == prev[..j];
    }
  }

  /** The `j`-th amount is `min(still needed, what grant j holds)`. */
  lemma {:induction false} TakeAt(need: Halves, rems: seq<Halves>, j: nat)
    requires j < |rems|
    ensures Takes(need, rems)[j] == Min(need - Sum(TakesPrefix(need, rems, j)), rems[j])
  {
    var t := Takes(need, rems);
    var p := TakesPrefix(need, rems, j);
    var next := TakesPrefix(need, rems, j + 1);
    assert next == p + [Min(need - Sum(p), rems[j])];
    TakesPrefixExtends(need, rems, j + 1, |rems|);
    assert t[..j + 1] == next;
    assert t[j] == t[..j + 1][j];
  }

  /** Each grant gives between nothing and all it holds. */
  lemma {:induction false} TakeBounds(need: Halves, rems: seq<Halves>, j: nat)
    requires need >= 0 && j < |rems|
    requires forall i :: 0 <= i < |rems| ==> rems[i] >= 0
    ensures 0 <= Takes(need, rems)[j] <= rems[j]
  {
    TakeAt(need, rems, j);
    TakesPrefixSum(need, rems, j);
  }

  /** The whole split sums to the request when the grants hold enough, and to
    * everything they hold otherwise. */
  lemma {:induction false} TakesTotal(need: Halves, rems: seq<Halves>)
    requires need >= 0
    requires forall i :: 0 <= i < |rems| ==> rems[i] >= 0
    ensures Sum(Takes(need, rems)) == Min(need, Sum(rems))
  {
    TakesPrefixSum(need, rems, |rems|);
    assert rems[..|rems|] == rems;
  }

  /** First in, first out: a grant is left with something only when the
    * request is already covered, and then every later grant gives 0 (the
    * walk still visits them and records 0-day usages). */
  lemma {:induction false} TakesFifo(need: Halves, rems: seq<Halves>, j: nat, l: nat)
    requires need >= 0 && j < l < |rems|
    requires forall i :: 0 <= i < |rems| ==> rems[i] >= 0
    requires Takes(need, rems)[j] < rems[j]
    ensures Takes(need, rems)[l] == 0
  {
    CoveredAfter(need, rems, j);
    TakesPrefixSum(need, rems, j + 1);
    SumPrefixGrows(rems, j + 1, l);
    TakesPrefixSum(need, rems, l);
    assert Sum(TakesPrefix(need, rems, l)) == need;
    TakeAt(need, rems, l);
  }

  /** A grant left with something covers the rest of the request. */
  lemma {:induction false} CoveredAfter(need: Halves, rems: seq<Halves>, j: nat)
    requires j < |rems|
    requires Takes(need, rems)[j] < rems[j]
    ensures Sum(TakesPrefix(need, rems, j + 1)) == need
  {
    var tj := Takes(need, rems)[j];
    var pj := TakesPrefix(need, rems, j);
    TakeAt(need, rems, j);
    assert TakesPrefix(need, rems, j + 1) == pj + [tj];
    TopsUp(pj, tj, need, rems[j]);
  }

  /** Taking less than a grant holds means taking all that was still needed. */
  lemma {:induction false} TopsUp(prev: seq<Halves>, t: Halves, need: Halves, rem: Halves)
    requires t == Min(need - Sum(prev), rem) && t < rem
    ensures Sum(prev + [t]) == need
  {
    SumAppend(prev, t);
  }

  // ---------------------------------------------------------------------
  // What consumption writes
  // ---------------------------------------------------------------------

  /** `remaining_days -= amount`, and `deleted_at = now` when it reaches 0. */
  function Deduct(g: Grant, amount: Halves, now: Time): (r: Grant)
    ensures r.remainingDays == g.remainingDays - amount
    ensures r.deletedAt == if r.remainingDays == 0 then Some(now) else g.deletedAt
    ensures r.(remainingDays := g.remainingDays, deletedAt := g.deletedAt) == g
  {
    var left := g.remainingDays - amount;
    g.(remainingDays := left, deletedAt := if left == 0 then Some(now) else g.deletedAt)
  }

  /** `remaining_days += amount`, and `deleted_at = None` when it is then positive. */
  function Restore(g: Grant, amount: Halves): (r: Grant)
    ensures r.remainingDays == g.remainingDays + amount
    ensures r.deletedAt == if r.remainingDays > 0 then None else g.deletedAt
    ensures r.(remainingDays := g.remainingDays, deletedAt := g.deletedAt) == g
  {
    var back := g.remainingDays + amount;
    g.(remainingDays := back, deletedAt := if back > 0 && g.deletedAt.Some? then None else g.deletedAt)
  }

  /** Rolling a deduction back from a live grant gives the grant back exactly. */
  lemma {:induction false} RestoreUndoesDeduct(g: Grant, amount: Halves, now: Time)
    requires g.deletedAt.None? && g.remainingDays > 0
    ensures Restore(Deduct(g, amount, now), amount) == g
  {
  }

  predicate IdsIn(ids: seq<int>, n: nat) {
    forall k :: 0 <= k < |ids| ==> 0 <= ids[k] < n
  }

  /** The grant table after the first `|taken|` grants of `ids` were charged:
    * each charged row is computed from the row as it was read (`base`). */
  function Charged(base: seq<Grant>, ids: seq<int>, taken: seq<Halves>, now: Time): (r: seq<Grant>)
    requires IdsIn(ids, |base|) && |taken| <= |ids|
    ensures |r| == |base|
  {
    if taken == [] then base
    else
      var k := |taken| - 1;
      Charged(base, ids, taken[..k], now)[ids[k] := Deduct(base[ids[k]], taken[k], now)]
  }

  /** A charged grant drops by exactly what was taken from it. */
  lemma {:induction false} ChargedHit(base: seq<Grant>, ids: seq<int>, taken: seq<Halves>, now: Time, j: nat)
    requires IdsIn(ids, |base|) && |taken| <= |ids| && Distinct(ids) && j < |taken|
    ensures Charged(base, ids, taken, now)[ids[j]] == Deduct(base[ids[j]], taken[j], now)
  {
    var k := |taken| - 1;
    if j < k {
      ChargedHit(base, ids, taken[..k], now, j);
    }
  }

  /** A grant outside the charged ones is untouched. */
  lemma {:induction false} ChargedMiss(base: seq<Grant>, ids: seq<int>, taken: seq<Halves>, now: Time, i: nat)
    requires IdsIn(ids, |base|) && |taken| <= |ids| && i < |base|
    requires forall k :: 0 <= k < |taken| ==> ids[k] != i
    ensures Charged(base, ids, taken, now)[i] == base[i]
  {
    if taken != [] {
      ChargedMiss(base, ids, taken[..|taken| - 1], now, i);
    }
  }

  /** Whole days a date advances by after using `t` half-days:
    * `date + timedelta(days=t/2)` keeps only the whole-day part. */
  function WholeDays(t: Halves): int { t / 2 }

  function Advance(taken: seq<Halves>): int {
    if taken == [] then 0 else Advance(taken[..|taken| - 1]) + WholeDays(taken[|taken| - 1])
  }

  /** The usage rows of a full-day walk over the first `|taken|` grants. */
  function FullDayRows(user: UserId, requestId: int, start: Day, ids: seq<int>, taken: seq<Halves>): (r: seq<Usage>)
    requires |taken| <= |ids|
    ensures |r| == |taken|
  {
    if taken == [] then []
    else
      var k := |taken| - 1;
      FullDayRows(user, requestId, start, ids, taken[..k])
        + [Usage(user, ids[k], requestId, taken[k], Some(start + Advance(taken[..k])), None, None)]
  }

  lemma {:induction false} FullDayRowsAt(user: UserId, requestId: int, start: Day, ids: seq<int>, taken: seq<Halves>, j: nat)
    requires |taken| <= |ids| && j < |taken|
    ensures FullDayRows(user, requestId, start, ids, taken)[j]
         == Usage(user, ids[j], requestId, taken[j], Some(start + Advance(taken[..j])), None, None)
  {
    var k := |taken| - 1;
    if j < k {
      FullDayRowsAt(user, requestId, start, ids, taken[..k], j);
      assert taken[..k][..j] == taken[..j];
    }
  }

  // ---------------------------------------------------------------------
  // The full-day loop and the batch insert as written
  // ---------------------------------------------------------------------

  /** A Python number: an `int`, or a `Decimal` (the value of a
    * `DecimalField` and of arithmetic on one), here in half-days. */
  datatype PyNumber = PyInt(i: int) | PyDecimal(halves: Halves)

  /** `timedelta(days=n)` in whole days: an `int` is accepted, a `Decimal`
    * raises `TypeError`. */
  function TimedeltaDays(n: PyNumber): (r: Result<int, LeaveError>)
    ensures r.Ok? <==> n.PyInt?
    ensures r.Ok? ==> r.value == n.i
    ensures r.Err? ==> r.error == DecimalDays
  {
    match n
    case PyInt(i) => Ok(i)
    case PyDecimal(_) => Err(DecimalDays)
  }

  /** What the full-day loop hands to `timedelta(days=...)`: `daily_use`
    * itself, a `Decimal`, or `int(daily_use)`, its whole days. */
  datatype DaysArgument = DecimalArgument | WholeDaysArgument

  function DaysValue(kind: DaysArgument, d: Halves): PyNumber {
    if kind == DecimalArgument then PyDecimal(d) else PyInt(WholeDays(d))
  }

  /** The full-day loop of `create_leave_usage` step by step: each grant of
    * `ids` gets its usage dated `current`, is charged `min(still needed,
    * remainder)`, and then the date moves on by `timedelta(days=...)` of
    * what was used. Gives the charged table, the rows and what is left, or
    * the error a step raised. */
  function FullDayLoop(kind: DaysArgument, base: seq<Grant>, ids: seq<int>, user: UserId, requestId: int,
                       current: Day, toUse: Halves, now: Time): (r: Result<(seq<Grant>, seq<Usage>, Halves), LeaveError>)
    requires IdsIn(ids, |base|)
    ensures kind == DecimalArgument ==> (r.Ok? <==> ids == []) && (r.Err? ==> r.error == DecimalDays)
    ensures kind == WholeDaysArgument ==> r.Ok?
    ensures r.Ok? ==> |r.value.0| == |base| && |r.value.1| == |ids|
    ensures r.Ok? ==> forall k :: 0 <= k < |ids| ==> r.value.1[k].grant == ids[k]
    decreases |ids|
  {
    if ids == [] then Ok((base, [], toUse))
    else
      var grant := base[ids[0]];
      var dailyUse := Min(toUse, grant.remainingDays);
      var row := Usage(user, ids[0], requestId, dailyUse, Some(current), None, None);
      var charged := base[ids[0] := Deduct(grant, dailyUse, now)];
      match TimedeltaDays(DaysValue(kind, dailyUse))
      case Err(e) => Err(e)
      case Ok(n) =>
        match FullDayLoop(kind, charged, ids[1..], user, requestId, current + n, toUse - dailyUse, now)
        case Err(e) => Err(e)
        case Ok(out) => Ok((out.0, [row] + out.1, out.2))
  }

  /** As written the loop passes the `Decimal` `daily_use` to `timedelta`:
    * once there is a grant to draw from, the first step raises, where
    * passing its whole days walks every grant. */
  lemma {:induction false} DecimalDaysRaise(base: seq<Grant>, ids: seq<int>, user: UserId, requestId: int,
                                            start: Day, total: Halves, now: Time)
    requires IdsIn(ids, |base|) && ids != []
    ensures FullDayLoop(DecimalArgument, base, ids, user, requestId, start, total, now) == Err(DecimalDays)
    ensures FullDayLoop(WholeDaysArgument, base, ids, user, requestId, start, total, now).Ok?
  {
  }

  /** A usage object: `pk` is set once it has been saved. */
  datatype UsageObject = UsageObject(pk: Option<int>, row: Usage)

  /** `LeaveUsage.objects.create(...)` for each row in turn, on a table whose
    * keys are its positions: each object comes back saved, with its key. */
  function Created(table: seq<Usage>, rows: seq<Usage>): (r: seq<UsageObject>)
    ensures |r| == |rows|
    ensures forall k :: 0 <= k < |rows| ==> r[k] == UsageObject(Some(|table| + k), rows[k])
  {
    if rows == [] then []
    else Created(table, rows[..|rows| - 1]) + [UsageObject(Some(|table| + |rows| - 1), rows[|rows| - 1])]
  }

  /** Objects for rows not yet saved. */
  function Unsaved(rows: seq<Usage>): (r: seq<UsageObject>)
    ensures |r| == |rows|
    ensures forall k :: 0 <= k < |rows| ==> r[k] == UsageObject(None, rows[k])
  {
    if rows == [] then [] else Unsaved(rows[..|rows| - 1]) + [UsageObject(None, rows[|rows| - 1])]
  }

  /** An object whose key names a row the table holds. */
  predicate Stored(table: seq<Usage>, o: UsageObject) {
    o.pk.Some? && 0 <= o.pk.value < |table|
  }

  /** `LeaveUsage.objects.bulk_create(objs)`: one INSERT of all the objects.
    * An object that already has a key is inserted under it, so a key the
    * table holds raises `IntegrityError` and nothing is added; otherwise the
    * rows follow the table's, in order. */
  function BulkCreateUsages(table: seq<Usage>, objs: seq<UsageObject>): (r: Result<seq<Usage>, LeaveError>)
    ensures r.Ok? <==> forall k :: 0 <= k < |objs| ==> !Stored(table, objs[k])
    ensures r.Ok? ==> |r.value| == |table| + |objs| && r.value[..|table|] == table
                      && forall k :: 0 <= k < |objs| ==> r.value[|table| + k] == objs[k].row
    ensures r.Err? ==> r.error == DuplicateKey
  {
    if objs == [] then Ok(table)
    else
      var prev := BulkCreateUsages(table, objs[..|objs| - 1]);
      var o := objs[|objs| - 1];
      if prev.Err? || Stored(table, o) then Err(DuplicateKey) else Ok(prev.value + [o.row])
  }

  /** As written, `create_leave_usage` saves each usage with
    * `objects.create` and then hands the same saved objects to
    * `bulk_create`: once it has recorded a usage, the batch collides with it. */
  lemma {:induction false} CreatedRowsCollide(table: seq<Usage>, rows: seq<Usage>)
    requires rows != []
    ensures BulkCreateUsages(table + rows, Created(table, rows)) == Err(DuplicateKey)
  {
    assert Stored(table + rows, Created(table, rows)[0]);
  }

  /** Rows saved once, in one batch, land after the table's rows in order:
    * the usage table `create_leave_usage` is meant to leave. */
  lemma {:induction false} UnsavedRowsInsert(table: seq<Usage>, rows: seq<Usage>)
    ensures BulkCreateUsages(table, Unsaved(rows)) == Ok(table + rows)
  {
    var r := BulkCreateUsages(table, Unsaved(rows));
    assert r.Ok?;
    assert r.value == table + rows by {
      assert forall k :: 0 <= k < |table| ==> r.value[k] == r.value[..|table|][k];
    }
  }

  // ---------------------------------------------------------------------
  // What rollback writes
  // ---------------------------------------------------------------------

  /** A usage the rollback of request `requestId` returns. */
  predicate ActiveUsageOf(u: Usage, requestId: int) {
    u.request == requestId && u.deletedAt.None?
  }

  /** Ids of the request's non-deleted usages. */
  function ActiveUsageIds(usages: seq<Usage>, requestId: int): (r: seq<int>)
    ensures forall k :: 0 <= k < |r| ==> 0 <= r[k] < |usages| && ActiveUsageOf(usages[r[k]], requestId)
  {
    Filter(Ids(|usages|), ActiveAt(usages, requestId))
  }

  /** Whether id `j` names a live usage of the request. */
  function ActiveAt(usages: seq<Usage>, requestId: int): int -> bool {
    j => 0 <= j < |usages| && ActiveUsageOf(usages[j], requestId)
  }

  predicate UsagesIn(usages: seq<Usage>, n: nat) {
    forall k :: 0 <= k < |usages| ==> 0 <= usages[k].grant < n
  }

  /** Some usage `done` lists names grant `g`. */
  predicate NamesGrant(usages: seq<Usage>, done: seq<int>, g: int) {
    exists k :: 0 <= k < |done| && 0 <= done[k] < |usages| && usages[done[k]].grant == g
  }

  /** The grant table after the usages `done` lists were returned: each grant
    * is restored from its value as read (`base`), and since `bulk_update`
    * writes only the first of two objects for one row, when two usages name
    * one grant the first one's write stands. */
  function Returned(base: seq<Grant>, usages: seq<Usage>, done: seq<int>): (r: seq<Grant>)
    requires UsagesIn(usages, |base|) && forall k :: 0 <= k < |done| ==> 0 <= done[k] < |usages|
    ensures |r| == |base|
  {
    if done == [] then base
    else
      var front := done[..|done| - 1];
      var u := usages[done[|done| - 1]];
      var prev := Returned(base, usages, front);
      if NamesGrant(usages, front, u.grant) then prev
      else prev[u.grant := Restore(base[u.grant], u.usedDays)]
  }

  /** `LeaveGrant.objects.bulk_update(objs, …)`: the row of each object takes
    * the object's values; of two objects for one row only the first is
    * written. */
  function BulkUpdate(table: seq<Grant>, objs: seq<(int, Grant)>): (r: seq<Grant>)
    requires forall k :: 0 <= k < |objs| ==> 0 <= objs[k].0 < |table|
    ensures |r| == |table|
  {
    if objs == [] then table
    else
      var front := objs[..|objs| - 1];
      var o := objs[|objs| - 1];
      var prev := BulkUpdate(table, front);
      if exists k :: 0 <= k < |front| && front[k].0 == o.0 then prev else prev[o.0 := o.1]
  }

  /** The objects the rollback loop collects: for each usage `done` lists,
    * its grant as read with the usage's days given back. */
  predicate ReturnObjects(base: seq<Grant>, usages: seq<Usage>, done: seq<int>, objs: seq<(int, Grant)>)
    requires UsagesIn(usages, |base|) && forall k :: 0 <= k < |done| ==> 0 <= done[k] < |usages|
  {
    |objs| == |done|
    && forall k :: 0 <= k < |done| ==>
         objs[k] == (usages[done[k]].grant, Restore(base[usages[done[k]].grant], usages[done[k]].usedDays))
  }

  /** Writing the collected objects with `bulk_update` gives `Returned`. */
  lemma {:induction false} BulkUpdateReturns(base: seq<Grant>, usages: seq<Usage>, done: seq<int>, objs: seq<(int, Grant)>)
    requires UsagesIn(usages, |base|) && forall k :: 0 <= k < |done| ==> 0 <= done[k] < |usages|
    requires ReturnObjects(base, usages, done, objs)
    ensures forall k :: 0 <= k < |objs| ==> 0 <= objs[k].0 < |base|
    ensures BulkUpdate(base, objs) == Returned(base, usages, done)
  {
    if done != [] {
      var n := |done| - 1;
      var front := done[..n];
      var fobjs := objs[..n];
      assert ReturnObjects(base, usages, front, fobjs);
      BulkUpdateReturns(base, usages, front, fobjs);
      var g := usages[done[n]].grant;
      if NamesGrant(usages, front, g) {
        var k :| 0 <= k < |front| && 0 <= front[k] < |usages| && usages[front[k]].grant == g;
        assert fobjs[k].0 == g;
      } else {
        assert !exists k :: 0 <= k < |fobjs| && fobjs[k].0 == g by {
          forall k | 0 <= k < |fobjs| ensures fobjs[k].0 != g {
            assert fobjs[k].0 == usages[front[k]].grant;
          }
        }
      }
    }
  }

  /** The usage table after `usages.delete()` removed the request's active rows. */
  function WithoutActiveUsages(usages: seq<Usage>, requestId: int): seq<Usage>
  {
    Filter(usages, u => !ActiveUsageOf(u, requestId))
  }

  lemma {:induction false} FilterRangeSplit(lo: int, m: int, hi: int, p: int -> bool)
    requires lo <= m <= hi
    requires forall j :: lo <= j < m ==> !p(j)
    requires forall j :: m <= j < hi ==> p(j)
    ensures Filter(RangeFrom(lo, hi), p) == RangeFrom(m, hi)
    decreases hi - lo
  {
    if lo < hi {
      var s := RangeFrom(lo, hi);
      assert s == [lo] + RangeFrom(lo + 1, hi);
      assert s[0] == lo && s[1..] == RangeFrom(lo + 1, hi);
      if lo < m {
        assert !p(lo);
        FilterRangeSplit(lo + 1, m, hi, p);
        assert Filter(s, p) == Filter(RangeFrom(lo + 1, hi), p);
      } else {
        assert p(lo);
        FilterRangeSplit(lo + 1, lo + 1, hi, p);
        assert Filter(s, p) == [lo] + Filter(RangeFrom(lo + 1, hi), p);
      }
    }
  }

  lemma {:induction false} FilterKeepsAll<T>(s: seq<T>, p: T -> bool)
    requires forall k :: 0 <= k < |s| ==> p(s[k])
    ensures Filter(s, p) == s
  {
    if s != [] {
      FilterKeepsAll(s[1..], p);
    }
  }

  lemma {:induction false} FilterDropsAll<T>(s: seq<T>, p: T -> bool)
    requires forall k :: 0 <= k < |s| ==> !p(s[k])
    ensures Filter(s, p) == []
  {
    if s != [] {
      FilterDropsAll(s[1..], p);
    }
  }

  lemma {:induction false} FilterAppend<T>(a: seq<T>, b: seq<T>, p: T -> bool)
    ensures Filter(a + b, p) == Filter(a, p) + Filter(b, p)
  {
    if a != [] {
      assert (a + b)[1..] == a[1..] + b;
      FilterAppend(a[1..], b, p);
    } else {
      assert a + b == b;
    }
  }

  /** The usages a consumption appends, one per charged grant, all live. */
  predicate RowsFor(rows: seq<Usage>, requestId: int, ids: seq<int>, taken: seq<Halves>) {
    |rows| == |ids| == |taken|
    && forall k :: 0 <= k < |rows| ==>
         rows[k].request == requestId && rows[k].deletedAt.None?
         && rows[k].grant == ids[k] && rows[k].usedDays == taken[k]
  }

  /** Returned usages name pairwise different grants. */
  ghost predicate DistinctGrants(usages: seq<Usage>, done: seq<int>)
  {
    forall a, b :: 0 <= a < b < |done| && 0 <= done[a] < |usages| && 0 <= done[b] < |usages|
      ==> usages[done[a]].grant != usages[done[b]].grant
  }

  /** A returned grant holds what it held when read plus the days of the
    * first usage that names it. */
  lemma {:induction false} ReturnedFirst(base: seq<Grant>, usages: seq<Usage>, done: seq<int>, j: nat)
    requires UsagesIn(usages, |base|) && forall k :: 0 <= k < |done| ==> 0 <= done[k] < |usages|
    requires j < |done| && !NamesGrant(usages, done[..j], usages[done[j]].grant)
    ensures Returned(base, usages, done)[usages[done[j]].grant]
         == Restore(base[usages[done[j]].grant], usages[done[j]].usedDays)
  {
    var k := |done| - 1;
    var g := usages[done[j]].grant;
    if j < k {
      var front := done[..k];
      assert front[..j] == done[..j];
      ReturnedFirst(base, usages, front, j);
      assert NamesGrant(usages, front, g) by {
        assert front[j] == done[j];
      }
    } else {
      assert done[..k] == done[..j];
    }
  }

  /** With pairwise different grants, every returned grant holds what it held
    * when read plus its usage. */
  lemma {:induction false} ReturnedHit(base: seq<Grant>, usages: seq<Usage>, done: seq<int>, j: nat)
    requires UsagesIn(usages, |base|) && forall k :: 0 <= k < |done| ==> 0 <= done[k] < |usages|
    requires DistinctGrants(usages, done) && j < |done|
    ensures Returned(base, usages, done)[usages[done[j]].grant]
         == Restore(base[usages[done[j]].grant], usages[done[j]].usedDays)
  {
    assert !NamesGrant(usages, done[..j], usages[done[j]].grant) by {
      forall k | 0 <= k < j ensures usages[done[..j][k]].grant != usages[done[j]].grant {
        assert done[..j][k] == done[k];
      }
    }
    ReturnedFirst(base, usages, done, j);
  }

  /** A grant no returned usage names is untouched. */
  lemma {:induction false} ReturnedMiss(base: seq<Grant>, usages: seq<Usage>, done: seq<int>, i: int)
    requires UsagesIn(usages, |base|) && forall k :: 0 <= k < |done| ==> 0 <= done[k] < |usages|
    requires 0 <= i < |base| && forall k :: 0 <= k < |done| ==> usages[done[k]].grant != i
    ensures Returned(base, usages, done)[i] == base[i]
  {
    if done != [] {
      ReturnedMiss(base, usages, done[..|done| - 1], i);
    }
  }

  /** Returning the usages of a charge restores every charged grant. */
  lemma {:induction false} ReturnUndoesCharge(base: seq<Grant>, usages: seq<Usage>, done: seq<int>,
                           ids: seq<int>, taken: seq<Halves>, now: Time)
    requires IdsIn(ids, |base|) && Distinct(ids) && |done| == |ids| == |taken|
    requires UsagesIn(usages, |base|) && forall k :: 0 <= k < |done| ==> 0 <= done[k] < |usages|
    requires forall k :: 0 <= k < |done| ==> usages[done[k]].grant == ids[k] && usages[done[k]].usedDays == taken[k]
    requires forall k :: 0 <= k < |ids| ==> base[ids[k]].deletedAt.None? && base[ids[k]].remainingDays > 0
    ensures Returned(Charged(base, ids, taken, now), usages, done) == base
  {
    var charged := Charged(base, ids, taken, now);
    var r := Returned(charged, usages, done);
    forall i | 0 <= i < |base|
      ensures r[i] == base[i]
    {
      if k :| 0 <= k < |ids| && ids[k] == i {
        ReturnedHit(charged, usages, done, k);
        ChargedHit(base, ids, taken, now, k);
        RestoreUndoesDeduct(base[i], taken[k], now);
      } else {
        ReturnedMiss(charged, usages, done, i);
        ChargedMiss(base, ids, taken, now, i);
      }
    }
  }

  /** Consumption followed by rollback gives back the original grant table and
    * the original usage table, provided the request had no live usage before
    * (which consumption checks) and every charged grant was live with a
    * positive remainder (which the grant query guarantees). */
  lemma {:induction false} ConsumeThenRollback(base: seq<Grant>, old_usages: seq<Usage>, rows: seq<Usage>,
                            requestId: int, ids: seq<int>, taken: seq<Halves>, now: Time)
    requires IdsIn(ids, |base|) && Distinct(ids)
    requires RowsFor(rows, requestId, ids, taken)
    requires forall k :: 0 <= k < |ids| ==> base[ids[k]].deletedAt.None? && base[ids[k]].remainingDays > 0
    requires forall k :: 0 <= k < |old_usages| ==> !ActiveUsageOf(old_usages[k], requestId)
    requires UsagesIn(old_usages, |base|)
    ensures UsagesIn(old_usages + rows, |base|)
    ensures Returned(Charged(base, ids, taken, now), old_usages + rows,
                     ActiveUsageIds(old_usages + rows, requestId)) == base
    ensures WithoutActiveUsages(old_usages + rows, requestId) == old_usages
  {
    var U := old_usages + rows;
    AppendedRows(old_usages, rows, requestId, ids, taken, |base|);
    ActiveIdsOfAppended(old_usages, rows, requestId);
    var done := ActiveUsageIds(U, requestId);
    AppendedAreReturnable(old_usages, rows, ids, taken, done);
    ReturnUndoesCharge(base, U, done, ids, taken, now);
    DeleteDropsAppended(old_usages, rows, requestId);
  }

  /** The ids of the appended rows name, in order, the charged grants and
    * the amounts taken from them. */
  lemma {:induction false} AppendedAreReturnable(old_usages: seq<Usage>, rows: seq<Usage>, ids: seq<int>, taken: seq<Halves>,
                              done: seq<int>)
    requires |rows| == |ids| == |taken|
    requires done == RangeFrom(|old_usages|, |old_usages| + |rows|)
    requires forall k :: 0 <= k < |rows| ==>
               (old_usages + rows)[|old_usages| + k].grant == ids[k]
               && (old_usages + rows)[|old_usages| + k].usedDays == taken[k]
    ensures |done| == |ids|
    ensures forall k :: 0 <= k < |done| ==>
              0 <= done[k] < |old_usages + rows|
              && (old_usages + rows)[done[k]].grant == ids[k] && (old_usages + rows)[done[k]].usedDays == taken[k]
  {
    forall k | 0 <= k < |done|
      ensures 0 <= done[k] < |old_usages + rows|
              && (old_usages + rows)[done[k]].grant == ids[k] && (old_usages + rows)[done[k]].usedDays == taken[k]
    {
      assert done[k] == |old_usages| + k;
    }
  }

  /** One more usage naming an existing grant keeps every usage on a grant. */
  lemma {:induction false} UsageAppended(usages: seq<Usage>, row: Usage, n: nat)
    requires UsagesIn(usages, n) && 0 <= row.grant < n
    ensures UsagesIn(usages + [row], n)
  {
    forall k | 0 <= k < |usages| + 1 ensures 0 <= (usages + [row])[k].grant < n {
      if k < |usages| { assert (usages + [row])[k] == usages[k]; }
    }
  }

  /** The appended rows sit at the end of the usage table and name live grants. */
  lemma {:induction false} AppendedRows(old_usages: seq<Usage>, rows: seq<Usage>, requestId: int,
                                        ids: seq<int>, taken: seq<Halves>, n: nat)
    requires IdsIn(ids, n) && RowsFor(rows, requestId, ids, taken) && UsagesIn(old_usages, n)
    ensures UsagesIn(old_usages + rows, n)
    ensures forall k :: 0 <= k < |rows| ==> ActiveUsageOf(rows[k], requestId)
    ensures forall k :: 0 <= k < |rows| ==>
              (old_usages + rows)[|old_usages| + k].grant == ids[k]
              && (old_usages + rows)[|old_usages| + k].usedDays == taken[k]
  {
    var U := old_usages + rows;
    var m := |old_usages|;
    forall k | 0 <= k < |U| ensures 0 <= U[k].grant < n {
      if k >= m { assert U[k] == rows[k - m]; }
    }
  }

  lemma {:induction false} DeleteDropsAppended(old_usages: seq<Usage>, rows: seq<Usage>, requestId: int)
    requires forall k :: 0 <= k < |old_usages| ==> !ActiveUsageOf(old_usages[k], requestId)
    requires forall k :: 0 <= k < |rows| ==> ActiveUsageOf(rows[k], requestId)
    ensures WithoutActiveUsages(old_usages + rows, requestId) == old_usages
  {
    FilterAppend(old_usages, rows, u => !ActiveUsageOf(u, requestId));
    FilterKeepsAll(old_usages, u => !ActiveUsageOf(u, requestId));
    FilterDropsAll(rows, u => !ActiveUsageOf(u, requestId));
  }

  lemma {:induction false} ActiveIdsOfAppended(old_usages: seq<Usage>, rows: seq<Usage>, requestId: int)
    requires forall k :: 0 <= k < |old_usages| ==> !ActiveUsageOf(old_usages[k], requestId)
    requires forall k :: 0 <= k < |rows| ==> ActiveUsageOf(rows[k], requestId)
    ensures ActiveUsageIds(old_usages + rows, requestId) == RangeFrom(|old_usages|, |old_usages| + |rows|)
  {
    ActiveSplit(old_usages, rows, requestId);
    ActiveUsageIdsScan(old_usages + rows, requestId);
  }

  /** The live usages are found by scanning the ids `0 .. |usages| - 1`. */
  lemma {:induction false} ActiveUsageIdsScan(usages: seq<Usage>, requestId: int)
    ensures ActiveUsageIds(usages, requestId) == Filter(RangeFrom(0, |usages|), ActiveAt(usages, requestId))
  {
    IdsAreRange(|usages|);
  }

  /** In the longer table the old ids are not the request's live usages and
    * the appended ones are. */
  lemma {:induction false} ActiveSplit(old_usages: seq<Usage>, rows: seq<Usage>, requestId: int)
    requires forall k :: 0 <= k < |old_usages| ==> !ActiveUsageOf(old_usages[k], requestId)
    requires forall k :: 0 <= k < |rows| ==> ActiveUsageOf(rows[k], requestId)
    ensures Filter(RangeFrom(0, |old_usages| + |rows|), ActiveAt(old_usages + rows, requestId))
            == RangeFrom(|old_usages|, |old_usages| + |rows|)
  {
    var U := old_usages + rows;
    forall j | 0 <= j < |old_usages| ensures !ActiveAt(U, requestId)(j) { assert U[j] == old_usages[j]; }
    forall j | |old_usages| <= j < |U| ensures ActiveAt(U, requestId)(j) { assert U[j] == rows[j - |old_usages|]; }
    FilterRangeSplit(0, |old_usages|, |U|, ActiveAt(U, requestId));
  }

  lemma {:induction false} IdsAreRange(n: nat)
    ensures Ids(n) == RangeFrom(0, n)
  {
  }

  /** The state of the full-day walk after visiting the first `i` grants of
    * `ids`: what was taken from each, the charged grant table, the usage
    * rows, what is still needed and the date the next usage carries. */
  ghost predicate WalkState(base: seq<Grant>, ids: seq<int>, user: UserId, requestId: int, start: Day,
                            total: Halves, now: Time, i: nat, taken: seq<Halves>,
                            charged: seq<Grant>, rows: seq<Usage>, toUse: Halves, current: Day)
  {
    IdsIn(ids, |base|) && i <= |ids|
    && taken == TakesPrefix(total, Remainders(base, ids), i)
    && charged == Charged(base, ids, taken, now)
    && rows == FullDayRows(user, requestId, start, ids, taken)
    && toUse == total - Sum(taken)
    && current == start + Advance(taken)
  }

  /** Visiting grant `ids[i]` takes `min(toUse, its remainder)` from it,
    * charges it, records one usage and advances the date. */
  lemma {:induction false} WalkStep(base: seq<Grant>, ids: seq<int>, user: UserId, requestId: int, start: Day,
                                    total: Halves, now: Time, i: nat, taken: seq<Halves>,
                                    charged: seq<Grant>, rows: seq<Usage>, toUse: Halves, current: Day)
    requires Distinct(ids) && i < |ids|
    requires WalkState(base, ids, user, requestId, start, total, now, i, taken, charged, rows, toUse, current)
    ensures var d := Min(toUse, charged[ids[i]].remainingDays);
            WalkState(base, ids, user, requestId, start, total, now, i + 1, taken + [d],
                      charged[ids[i] := Deduct(charged[ids[i]], d, now)],
                      rows + [Usage(user, ids[i], requestId, d, Some(current), None, None)],
                      toUse - d, current + WholeDays(d))
  {
    var rems := Remainders(base, ids);
    var g := charged[ids[i]];
    var d := Min(toUse, g.remainingDays);
    var next := taken + [d];
    ChargedMiss(base, ids, taken, now, ids[i]);
    assert g == base[ids[i]] && rems[i] == g.remainingDays;
    assert next[..i] == taken;
    assert TakesPrefix(total, rems, i + 1) == next;
    assert Charged(base, ids, next, now) == charged[ids[i] := Deduct(g, d, now)];
    assert FullDayRows(user, requestId, start, ids, next)
        == rows + [Usage(user, ids[i], requestId, d, Some(current), None, None)];
    SumAppend(taken, d);
    assert Advance(next) == Advance(taken) + WholeDays(d);
  }

  /** After the last grant the walk has taken the whole split. */
  lemma {:induction false} WalkDone(base: seq<Grant>, ids: seq<int>, user: UserId, requestId: int, start: Day,
                 total: Halves, now: Time, taken: seq<Halves>,
                 charged: seq<Grant>, rows: seq<Usage>, toUse: Halves, current: Day)
    requires WalkState(base, ids, user, requestId, start, total, now, |ids|, taken, charged, rows, toUse, current)
    ensures taken == Takes(total, Remainders(base, ids))
    ensures charged == Charged(base, ids, taken, now)
    ensures rows == FullDayRows(user, requestId, start, ids, taken)
    ensures toUse == total - Sum(taken)
  {
  }

  /** Whether the request already has a usage that is not deleted. */
  predicate HasActiveUsage(usages: seq<Usage>, requestId: int) {
    exists k :: 0 <= k < |usages| && ActiveUsageOf(usages[k], requestId)
  }

  /** The `used_days` column of a list of usages. */
  function UsedDays(rows: seq<Usage>): (r: seq<Halves>)
    ensures |r| == |rows| && forall k :: 0 <= k < |rows| ==> r[k] == rows[k].usedDays
  {
    seq(|rows|, k requires 0 <= k < |rows| => rows[k].usedDays)
  }

  /** The rows of a full-day walk are live usages of the request, one per
    * visited grant, each carrying what was taken from that grant. */
  lemma {:induction false} FullDayRowsAreRowsFor(user: UserId, requestId: int, start: Day, ids: seq<int>, taken: seq<Halves>)
    requires |taken| == |ids|
    ensures RowsFor(FullDayRows(user, requestId, start, ids, taken), requestId, ids, taken)
    ensures UsedDays(FullDayRows(user, requestId, start, ids, taken)) == taken
  {
    var rows := FullDayRows(user, requestId, start, ids, taken);
    forall k | 0 <= k < |rows|
      ensures rows[k].request == requestId && rows[k].deletedAt.None?
      ensures rows[k].grant == ids[k] && rows[k].usedDays == taken[k]
    {
      FullDayRowsAt(user, requestId, start, ids, taken, k);
    }
  }

  /** A full-day walk that leaves nothing uncovered records usages that add
    * up to exactly the requested days. */
  lemma {:induction false} WalkCoversRequest(grants: seq<Grant>, ids: seq<int>, total: Halves)
    requires forall k :: 0 <= k < |ids| ==> 0 <= ids[k] < |grants| && grants[ids[k]].remainingDays > 0
    requires total >= 0
    requires Sum(Takes(total, Remainders(grants, ids))) >= total
    ensures Sum(Takes(total, Remainders(grants, ids))) == total
  {
    TakesTotal(total, Remainders(grants, ids));
  }

  /** A full-day walk charges no grant below zero; a grant charged down to
    * exactly zero is soft-deleted at `now`, and grants it does not visit are
    * unchanged. */
  lemma {:induction false} ChargeKeepsNonNegative(grants: seq<Grant>, user: UserId, grantType: string, total: Halves, now: Time)
    requires total >= 0
    requires forall i :: 0 <= i < |grants| ==> grants[i].remainingDays >= 0
    ensures var ids := Available(grants, user, grantType);
            var charged := Charged(grants, ids, Takes(total, Remainders(grants, ids)), now);
            forall i :: 0 <= i < |grants| ==>
              charged[i].remainingDays >= 0
              && (charged[i].remainingDays == 0 && grants[i].remainingDays != 0 ==> charged[i].deletedAt == Some(now))
              && (i !in ids ==> charged[i] == grants[i])
  {
    var ids := Available(grants, user, grantType);
    var rems := Remainders(grants, ids);
    var taken := Takes(total, rems);
    var charged := Charged(grants, ids, taken, now);
    forall i | 0 <= i < |grants|
      ensures charged[i].remainingDays >= 0
      ensures charged[i].remainingDays == 0 && grants[i].remainingDays != 0 ==> charged[i].deletedAt == Some(now)
      ensures i !in ids ==> charged[i] == grants[i]
    {
      if j :| 0 <= j < |ids| && ids[j] == i {
        ChargedHit(grants, ids, taken, now, j);
        TakeBounds(total, rems, j);
      } else {
        ChargedMiss(grants, ids, taken, now, i);
      }
    }
  }

  /** Full-day consumption followed by rollback restores both tables. */
  lemma {:induction false} FullDayConsumeThenRollback(grants: seq<Grant>, usages: seq<Usage>, requestId: int, user: UserId,
                                   leaveType: string, start: Day, total: Halves, now: Time)
    requires UsagesIn(usages, |grants|) && !HasActiveUsage(usages, requestId)
    ensures var ids := Available(grants, user, leaveType);
            var taken := Takes(total, Remainders(grants, ids));
            var after := usages + FullDayRows(user, requestId, start, ids, taken);
            UsagesIn(after, |grants|)
            && Returned(Charged(grants, ids, taken, now), after, ActiveUsageIds(after, requestId)) == grants
            && WithoutActiveUsages(after, requestId) == usages
  {
    var ids := Available(grants, user, leaveType);
    var taken := Takes(total, Remainders(grants, ids));
    var rows := FullDayRows(user, requestId, start, ids, taken);
    FullDayRowsAreRowsFor(user, requestId, start, ids, taken);
    ConsumeThenRollback(grants, usages, rows, requestId, ids, taken, now);
  }

  /** The row a half-day consumption records: half a day from grant `g`. */
  function HalfDayRow(user: UserId, g: int, requestId: int, start: Day): Usage {
    Usage(user, g, requestId, 1, None, Some(start), None)
  }

  /** Half-day consumption followed by rollback restores both tables. */
  lemma {:induction false} HalfDayConsumeThenRollback(grants: seq<Grant>, usages: seq<Usage>, requestId: int, user: UserId,
                                   start: Day, now: Time)
    requires UsagesIn(usages, |grants|) && !HasActiveUsage(usages, requestId)
    requires Available(grants, user, ANNUAL) != []
    ensures var g := Available(grants, user, ANNUAL)[0];
            var after := usages + [HalfDayRow(user, g, requestId, start)];
            UsagesIn(after, |grants|)
            && Returned(grants[g := Deduct(grants[g], 1, now)], after, ActiveUsageIds(after, requestId)) == grants
            && WithoutActiveUsages(after, requestId) == usages
  {
    var g := Available(grants, user, ANNUAL)[0];
    var row := HalfDayRow(user, g, requestId, start);
    assert Charged(grants, [g], [1], now) == grants[g := Deduct(grants[g], 1, now)] by {
      assert [1][..0] == [];
    }
    ConsumeThenRollback(grants, usages, [row], requestId, [g], [1], now);
  }

  // ---------------------------------------------------------------------
  // Cancellation
  // ---------------------------------------------------------------------

  /** The grant and usage tables after `cancel_leave_request` as written:
    * the request's usages are returned only when its status is not
    * APPROVED. */
  function CancelTables(grants: seq<Grant>, usages: seq<Usage>, requestId: int, status: string)
    : (r: (seq<Grant>, seq<Usage>))
    requires UsagesIn(usages, |grants|)
    ensures status == APPROVED || !HasActiveUsage(usages, requestId) ==> r == (grants, usages)
    ensures status != APPROVED && HasActiveUsage(usages, requestId) ==>
              r.1 == WithoutActiveUsages(usages, requestId) && |r.0| == |grants|
  {
    if status != APPROVED && HasActiveUsage(usages, requestId) then
      (Returned(grants, usages, ActiveUsageIds(usages, requestId)), WithoutActiveUsages(usages, requestId))
    else (grants, usages)
  }

  /** As written, cancelling an approved request whose half day was consumed
    * leaves the half day charged: the grant stays one half-day short. */
  lemma {:induction false} ApprovedCancelKeepsCharge(grants: seq<Grant>, usages: seq<Usage>, requestId: int, user: UserId,
                                  start: Day, now: Time)
    requires UsagesIn(usages, |grants|) && !HasActiveUsage(usages, requestId)
    requires Available(grants, user, ANNUAL) != []
    ensures var g := Available(grants, user, ANNUAL)[0];
            var charged := grants[g := Deduct(grants[g], 1, now)];
            var after := usages + [HalfDayRow(user, g, requestId, start)];
            UsagesIn(after, |grants|)
            && CancelTables(charged, after, requestId, APPROVED).0[g].remainingDays == grants[g].remainingDays - 1
  {
    HalfDayConsumeThenRollback(grants, usages, requestId, user, start, now);
  }

  /** The intended cancellation: the usages of an APPROVED request, the only
    * requests `create_leave_usage` consumes for, are returned. */
  function CancelTablesIntended(grants: seq<Grant>, usages: seq<Usage>, requestId: int, status: string)
    : (r: (seq<Grant>, seq<Usage>))
    requires UsagesIn(usages, |grants|)
    ensures status != APPROVED || !HasActiveUsage(usages, requestId) ==> r == (grants, usages)
    ensures status == APPROVED && HasActiveUsage(usages, requestId) ==>
              r.1 == WithoutActiveUsages(usages, requestId) && |r.0| == |grants|
  {
    if status == APPROVED && HasActiveUsage(usages, requestId) then
      (Returned(grants, usages, ActiveUsageIds(usages, requestId)), WithoutActiveUsages(usages, requestId))
    else (grants, usages)
  }

  /** With the intended guard, cancelling an approved request right after
    * its half day was consumed restores both tables. */
  lemma {:induction false} CancelReturnsHalfDay(grants: seq<Grant>, usages: seq<Usage>, requestId: int, user: UserId,
                             start: Day, now: Time)
    requires UsagesIn(usages, |grants|) && !HasActiveUsage(usages, requestId)
    requires Available(grants, user, ANNUAL) != []
    ensures var g := Available(grants, user, ANNUAL)[0];
            var after := usages + [HalfDayRow(user, g, requestId, start)];
            UsagesIn(after, |grants|)
            && CancelTablesIntended(grants[g := Deduct(grants[g], 1, now)], after, requestId, APPROVED) == (grants, usages)
  {
    var g := Available(grants, user, ANNUAL)[0];
    var after := usages + [HalfDayRow(user, g, requestId, start)];
    HalfDayConsumeThenRollback(grants, usages, requestId, user, start, now);
    assert ActiveUsageOf(after[|usages|], requestId);
  }

  /** With the intended guard, cancelling an approved request right after
    * its full days were consumed restores both tables. */
  lemma {:induction false} CancelReturnsFullDays(grants: seq<Grant>, usages: seq<Usage>, requestId: int, user: UserId,
                              leaveType: string, start: Day, total: Halves, now: Time)
    requires UsagesIn(usages, |grants|) && !HasActiveUsage(usages, requestId)
    ensures var ids := Available(grants, user, leaveType);
            var taken := Takes(total, Remainders(grants, ids));
            var after := usages + FullDayRows(user, requestId, start, ids, taken);
            UsagesIn(after, |grants|)
            && CancelTablesIntended(Charged(grants, ids, taken, now), after, requestId, APPROVED) == (grants, usages)
  {
    var ids := Available(grants, user, leaveType);
    var taken := Takes(total, Remainders(grants, ids));
    var rows := FullDayRows(user, requestId, start, ids, taken);
    var charged := Charged(grants, ids, taken, now);
    FullDayConsumeThenRollback(grants, usages, requestId, user, leaveType, start, total, now);
    if rows == [] {
      assert taken == [];
      assert charged == grants;
    } else {
      FullDayRowsAreRowsFor(user, requestId, start, ids, taken);
      assert ActiveUsageOf(rows[0], requestId);
    }
    CancelAfterConsume(grants, charged, usages, rows, requestId);
  }

  /** Cancelling an approved request whose appended usages the rollback
    * undoes gives back the tables as they were before consumption. */
  lemma {:induction false} CancelAfterConsume(grants: seq<Grant>, charged: seq<Grant>, usages: seq<Usage>,
                                              rows: seq<Usage>, requestId: int)
    requires UsagesIn(usages + rows, |charged|) && !HasActiveUsage(usages, requestId)
    requires rows == [] ==> charged == grants
    requires rows != [] ==> ActiveUsageOf(rows[0], requestId)
    requires Returned(charged, usages + rows, ActiveUsageIds(usages + rows, requestId)) == grants
    requires WithoutActiveUsages(usages + rows, requestId) == usages
    ensures CancelTablesIntended(charged, usages + rows, requestId, APPROVED) == (grants, usages)
  {
    var after := usages + rows;
    if rows == [] {
      assert after == usages;
    } else {
      assert after[|usages|] == rows[0];
      assert HasActiveUsage(after, requestId);
    }
  }

  // ---------------------------------------------------------------------
  // Anniversary accrual
  // ---------------------------------------------------------------------

  /** A grant the accrual creates: its amount and its expiry date. */
  datatype NewGrant = NewGrant(days: Halves, expiresAt: Day)

  /** `_is_year_based_employee`: the user is still before the first
    * anniversary of joining. Raises without a join date, and when the
    * anniversary is not a date (a February 29 join date). */
  function IsYearBasedEmployee(joined: Option<Day>, target: Day): (r: Result<bool, LeaveError>)
    ensures joined.None? ==> r == Err(NoJoinDate)
    ensures joined.Some? ==>
      var a := MakeDate(YearOf(joined.value) + 1, MonthOf(joined.value), DayOf(joined.value));
      (a.None? ==> r == Err(InvalidDate)) && (a.Some? ==> r == Ok(target < a.value))
  {
    if joined.None? then Err(NoJoinDate)
    else
      var j := joined.value;
      var next := MakeDate(YearOf(j) + 1, MonthOf(j), DayOf(j));
      if next.None? then Err(InvalidDate) else Ok(next.value > target)
  }

  /** `_year_diff`: whole calendar years between joining and the target date. */
  function YearDiff(joined: Option<Day>, target: Day): (r: Result<int, LeaveError>)
    ensures r.Err? <==> joined.None?
    ensures r.Ok? ==> YearOf(joined.value) + r.value == YearOf(target)
  {
    if joined.None? then Err(NoJoinDate) else Ok(YearOf(target) - YearOf(joined.value))
  }

  /** The annual grant amount on an anniversary: 15 days plus one per two years. */
  function AnniversaryDays(years: int): Halves {
    2 * (15 + years / 2)
  }

  /** `create_annual_leave_grant` as a value: the grant to create, if any. */
  function PlanAnnualGrant(joined: Option<Day>, target: Day): (r: Result<Option<NewGrant>, LeaveError>)
    ensures joined.None? ==> r == Err(NoJoinDate)
    ensures r.Ok? && r.value.Some? ==> r.value.value.days >= 2
    ensures joined.Some? && MonthOf(joined.value) == 2 && DayOf(joined.value) == 29
              && !IsLeap(YearOf(joined.value) + 1)
            ==> r == Err(InvalidDate)
  {
    if joined.None? then Err(NoJoinDate)
    else
      var j := joined.value;
      var yearBased := IsYearBasedEmployee(joined, target);
      if yearBased.Err? then Err(yearBased.error)
      else if yearBased.value then
        if DayOf(target) == 1 then
          var second := MakeDate(YearOf(j) + 2, MonthOf(j), DayOf(j));
          if second.None? then Err(InvalidDate)
          else Ok(Some(NewGrant(2, second.value - 1)))
        else Ok(None)
      else if MonthOf(target) == MonthOf(j) && DayOf(target) == DayOf(j) then
        var years := YearDiff(joined, target).value;
        var next := MakeDate(YearOf(target) + 1, MonthOf(j), DayOf(j));
        if next.None? then Err(InvalidDate)
        else Ok(Some(NewGrant(AnniversaryDays(years), next.value - 1)))
      else Ok(None)
  }

  /** In the first year a one-day grant is made on day 1 of every month and on
    * no other day; it expires the day before the second anniversary. */
  lemma {:induction false} FirstYearMonthly(j: Day, target: Day)
    requires MakeDate(YearOf(j) + 1, MonthOf(j), DayOf(j)).Some?
    requires target < MakeDate(YearOf(j) + 1, MonthOf(j), DayOf(j)).value
    requires MakeDate(YearOf(j) + 2, MonthOf(j), DayOf(j)).Some?
    ensures PlanAnnualGrant(Some(j), target)
         == if DayOf(target) == 1
            then Ok(Some(NewGrant(2, MakeDate(YearOf(j) + 2, MonthOf(j), DayOf(j)).value - 1)))
            else Ok(None)
  {
    BeforeFirstAnniversary(j, target);
  }

  /** Before the first anniversary the user is year-based. */
  lemma {:induction false} BeforeFirstAnniversary(j: Day, target: Day)
    requires MakeDate(YearOf(j) + 1, MonthOf(j), DayOf(j)).Some?
    requires target < MakeDate(YearOf(j) + 1, MonthOf(j), DayOf(j)).value
    ensures IsYearBasedEmployee(Some(j), target) == Ok(true)
  {
  }

  /** From the first anniversary on, a grant of 15 + years // 2 days is made on
    * the anniversary date only, expiring the day before the next one. */
  lemma {:induction false} AnniversaryGrant(j: Day, target: Day)
    requires MakeDate(YearOf(j) + 1, MonthOf(j), DayOf(j)).Some?
    requires target >= MakeDate(YearOf(j) + 1, MonthOf(j), DayOf(j)).value
    requires MakeDate(YearOf(target) + 1, MonthOf(j), DayOf(j)).Some?
    ensures PlanAnnualGrant(Some(j), target)
         == if MonthOf(target) == MonthOf(j) && DayOf(target) == DayOf(j)
            then Ok(Some(NewGrant(AnniversaryDays(YearOf(target) - YearOf(j)),
                                  MakeDate(YearOf(target) + 1, MonthOf(j), DayOf(j)).value - 1)))
            else Ok(None)
  {
    PastFirstAnniversary(j, target);
    if MonthOf(target) == MonthOf(j) && DayOf(target) == DayOf(j) {
      OnAnniversary(j, target);
    }
  }

  /** From the first anniversary on, the user is no longer year-based. */
  lemma {:induction false} PastFirstAnniversary(j: Day, target: Day)
    requires MakeDate(YearOf(j) + 1, MonthOf(j), DayOf(j)).Some?
    requires target >= MakeDate(YearOf(j) + 1, MonthOf(j), DayOf(j)).value
    ensures IsYearBasedEmployee(Some(j), target) == Ok(false)
  {
  }

  /** The grant made on an anniversary that is a valid date next year. */
  lemma {:induction false} OnAnniversary(j: Day, target: Day)
    requires IsYearBasedEmployee(Some(j), target) == Ok(false)
    requires MonthOf(target) == MonthOf(j) && DayOf(target) == DayOf(j)
    requires MakeDate(YearOf(target) + 1, MonthOf(j), DayOf(j)).Some?
    ensures PlanAnnualGrant(Some(j), target)
         == Ok(Some(NewGrant(AnniversaryDays(YearOf(target) - YearOf(j)),
                             MakeDate(YearOf(target) + 1, MonthOf(j), DayOf(j)).value - 1)))
  {
  }
}
