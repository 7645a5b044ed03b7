# A Dafny model of the project-management back end

This project models the core of a Django back end for a design and
construction company. It covers the following parts:

- **Leave ledger.** Leave grants, requests and usages, and the FIFO walk that
  charges a request to the oldest grants first. It also covers the rollback
  that returns those days, and the anniversary accrual of annual leave.
- **Approvals.** Approval lines are built from policies. They are approved,
  rejected or cancelled step by step.
- **Organisation.** Departments and their managers, and bulk user creation.
- **Outbox.** Soft-delete events and the Celery tasks that process them. This
  includes the cascade of a soft delete along reverse foreign keys.
- **Notifications.** Creating them, reading them and counting unread ones.
- **Serializers.** The validators of the DRF serializers: choice lists,
  date order, uniqueness among live rows, and the computed list and count
  fields.
- **Responses.** The JSON response classes, the view mixin that re-wraps
  responses, the exception handlers, the URL-prefix permission and the JWT
  login, refresh and logout flow.

Representation choices:

- **Tables.** A table is a sequence of rows, and a row's primary key is its
  index. A soft-deleted row keeps its place and carries `deletedAt`.
- **Queries.** `filter(...).order_by(...)` becomes a function. Its contract
  says three things: which rows are returned, that every matching row is
  returned, and in what order.
- **Units.** Leave amounts are integer half-days. Dates are day numbers, with
  civil year, month and day accessors.
- **The `or` fallback.** Python's `data.get(x) or stored` is written out
  explicitly, so `0` and `""` fall back to the stored value like `None` does.
- **State.** Code that updates rows in place becomes classes whose methods
  have `modifies` clauses. Each such method is proved against a
  specification function. Pure validators and queries are functions with
  lemmas.

Some behaviours are modelled exactly as the code does them:

- An approval request that is already APPROVED can still be cancelled. Only
  CANCELLED and REJECTED are refused (`Approvals.ApprovalStore.CancelApprovalRequest`).
- `NotificationService.mark_as_read` compares the caller with the
  notification's *sender* (`Notifications.NotificationStore.MarkAsRead`).
- On a wrong password, a locked account's counter still goes up.

## Model

| member | source | states |
|---|---|---|
| Common.OrInt | apps/infrastructure/serializers/leaves.py:56-57 | `given or stored` for integers: a truthy input wins, `0` or `None` falls back to the stored value |
| Common.OrStr | apps/infrastructure/serializers/tasks.py:197-203 | the same fallback for strings, where `""` falls back |
| Common.IntOf | apps/infrastructure/outbox/tasks.py:351 | `int(v)` of a JSON value: an integer is itself, a string is read as an optional sign and decimal digits, and null, lists and objects raise |
| Common.ParseShow | apps/infrastructure/outbox/tests.py:262 | `int(str(n)) == n` for every integer, so a key stored as `str(pk)` reads back as `pk` |
| Common.OrRef | apps/infrastructure/serializers/projects.py:198-205 | the same fallback for foreign keys and dates, where only `None` falls back |
| Calendar.MakeDate | apps/domain/leaves/service.py:31-50 | `date(y, m, d)` is a day exactly when the civil date is valid; otherwise `ValueError` |
| Calendar.MakeDateParts | apps/domain/leaves/service.py:31-50 | the day `date(y, m, d)` builds has year `y`, month `m` and day `d` |
| Calendar.MakeDateInjective | apps/domain/leaves/service.py:31-50 | two valid dates are the same day exactly when their years, months and days agree |
| Calendar.CivilRoundTrip | apps/domain/leaves/service.py:31-50 | turning a valid date into its day number and back gives the same date |
| Calendar.LeapYearsAreApart | apps/domain/leaves/service.py:31-50 | a leap year is never followed by a leap year, so `date(year + 1, 2, 29)` for a February 29 join date always raises |
| Sorting.Query | apps/domain/notifications/service.py:153-157 | `filter(p).order_by(key)` returns exactly the matching rows, each once, ordered by the key |
| Sorting.QueryCount | apps/domain/notifications/service.py:136-140 | `.count()` of a filter equals the length of the list the same filter returns |
| Sorting.Matching | apps/infrastructure/serializers/projects.py:105-142 | An unordered filter returns each matching row once, in primary-key order, and their number is the `.count()` of the filter. |
| Validation.ValidateChoice | apps/infrastructure/serializers/tasks.py:169-176 | a value is accepted exactly when it is one of the choices; the error names the field |
| Validation.ValidateDateOrder | apps/infrastructure/serializers/projects.py:144-156 | rejects on `end_date` exactly when both dates are known and start is after end |
| Validation.Strip | apps/infrastructure/serializers/approvals.py:21-27 | the trimmed text is empty exactly when the input is blank, has no white space at either end, and is a slice of the input |
| Validation.InsertKeepsUnique | apps/infrastructure/serializers/projects.py:198-218 | a row created after the `exists()` check found its key free keeps the key unique among live rows |
| Validation.UpdateKeepsUnique | apps/infrastructure/serializers/projects.py:198-218 | a row updated after the check found its key free among the other rows keeps the key unique |
| Validation.TakenBreaksUnique | apps/infrastructure/serializers/projects.py:198-218 | a key the check finds taken would break the uniqueness, so the rejection is necessary |
| TimeStamp.SoftDeletable.constructor | apps/infrastructure/time_stamp/models.py:11-38 | a new row has created and updated times set to now and is not deleted |
| TimeStamp.SoftDeletable.Delete | apps/infrastructure/time_stamp/models.py:40-46 | `delete()` sets `deleted_at` to now, keeps the row and makes `is_deleted` true |
| TimeStamp.SoftDeletable.Restore | apps/infrastructure/time_stamp/models.py:48-59 | `restore()` clears `deleted_at` and makes `is_deleted` false |
| LeaveRules.GetLeaveRemaining | apps/domain/leaves/service.py:142-173 | `None` exactly when the user has no live, unexpired grant; otherwise the sum of those grants' remaining days |
| LeaveRules.CheckLeaveRequest | apps/domain/leaves/service.py:107-124 | a request passes exactly when start ≤ end, a half-day type is one day of one half, the amount is positive, and the remaining balance exists and covers it; start after end is reported first |
| LeaveRules.Available | apps/domain/leaves/service.py:248-256 | the drawable grants (user, type, positive remainder, live): all of them, once each, in `granted_at` order |
| LeaveRules.Remainders | apps/domain/leaves/service.py:248-256 | the remaining days of the listed grants, position by position |
| LeaveRules.TakesPrefix | apps/domain/leaves/service.py:258-282 | the amounts the walk takes from the first k grants, one per grant |
| LeaveRules.Takes | apps/domain/leaves/service.py:258-282 | the walk takes one amount per drawable grant |
| LeaveRules.TakeAt | apps/domain/leaves/service.py:258-282 | each grant gives `min(still needed, its remainder)` |
| LeaveRules.TakeBounds | apps/domain/leaves/service.py:258-282 | no grant gives a negative amount or more than it holds |
| LeaveRules.TakesTotal | apps/domain/leaves/service.py:258-282 | the walk takes `min(requested, total available)` in all |
| LeaveRules.TakesFifo | apps/domain/leaves/service.py:258-282 | FIFO: once a grant is not emptied, every later grant gives nothing |
| LeaveRules.TakesPrefixSum | apps/domain/leaves/service.py:258-282 | the first k takes add up to `min(requested, sum of the first k remainders)` |
| LeaveRules.Deduct | apps/domain/leaves/service.py:266-276 | charging a grant lowers its remainder by the amount and soft-deletes it exactly when it reaches 0; nothing else changes |
| LeaveRules.Restore | apps/domain/leaves/service.py:424-432 | returning days raises the remainder and un-deletes the grant when the remainder becomes positive; nothing else changes |
| LeaveRules.RestoreUndoesDeduct | apps/domain/leaves/service.py:424-432 | returning what was charged from a live grant gives back the grant as it was |
| LeaveRules.Charged | apps/domain/leaves/service.py:285-288 | the bulk update of the charged grants keeps the table's size |
| LeaveRules.ChargedHit | apps/domain/leaves/service.py:285-288 | each charged grant is its read value minus what the walk took from it |
| LeaveRules.ChargedMiss | apps/domain/leaves/service.py:285-288 | grants the walk did not charge are unchanged |
| LeaveRules.FullDayRows | apps/domain/leaves/service.py:270-282 | one usage row per charged grant |
| LeaveRules.FullDayRowsAt | apps/domain/leaves/service.py:270-282 | row j names grant j and its amount, and is dated the start date plus the whole days used before it |
| LeaveRules.TimedeltaDays | apps/domain/leaves/service.py:279 | `timedelta(days=n)` accepts an `int` and raises `TypeError` on a `Decimal` |
| LeaveRules.FullDayLoop | apps/domain/leaves/service.py:258-279 | step by step, the loop as written raises `TypeError` exactly when there is a grant to draw from; passing whole days instead walks every grant, one row per grant |
| LeaveRules.DecimalDaysRaise | apps/domain/leaves/service.py:279 | with a grant to draw from, the loop as written raises where the whole-day loop succeeds |
| LeaveRules.Created | apps/domain/leaves/service.py:232-238 | `objects.create` saves each usage and gives it the next key |
| LeaveRules.Unsaved | apps/domain/leaves/service.py:285-286 | usage objects that carry no key yet |
| LeaveRules.BulkCreateUsages | apps/domain/leaves/service.py:285-286 | `bulk_create` fails with `IntegrityError` exactly when an object's key is already in the table; otherwise it appends the rows in order |
| LeaveRules.CreatedRowsCollide | apps/domain/leaves/service.py:264-286 | as written, the batch insert of usages already saved by `objects.create` always raises `IntegrityError` |
| LeaveRules.UnsavedRowsInsert | apps/domain/leaves/service.py:285-286 | inserting unsaved rows in one batch appends them to the table once each, in order |
| LeaveRules.ActiveUsageIds | apps/domain/leaves/service.py:417-420 | every id it returns names a live usage of the request |
| LeaveRules.Returned | apps/domain/leaves/service.py:423-438 | the grant table after the bulk update of the returned grants: it keeps its size, and when two usages name one grant the first one's write is kept |
| LeaveRules.BulkUpdate | apps/domain/leaves/service.py:435-438 | `bulk_update` writes each object to its row, and of two objects for the same row only the first is written |
| LeaveRules.BulkUpdateReturns | apps/domain/leaves/service.py:423-438 | bulk-updating the objects the loop collects gives `Returned` |
| LeaveRules.ReturnedFirst | apps/domain/leaves/service.py:423-438 | a grant named by a returned usage and by no earlier one is its read value plus that usage's days |
| LeaveRules.ReturnedHit | apps/domain/leaves/service.py:423-438 | each grant named by a returned usage is its read value plus the usage's days |
| LeaveRules.ReturnedMiss | apps/domain/leaves/service.py:423-438 | grants no returned usage names are unchanged |
| LeaveRules.ReturnUndoesCharge | apps/domain/leaves/service.py:408-441 | returning exactly what was charged from live grants restores the grant table |
| LeaveRules.ConsumeThenRollback | apps/domain/leaves/service.py:408-441 | recording usages and rolling them back restores both the grants and the usage table |
| LeaveRules.UsedDays | apps/domain/leaves/service.py:270-282 | the `used_days` column of a list of usages |
| LeaveRules.WalkCoversRequest | apps/domain/leaves/service.py:278-282 | a walk whose takes cover the request takes exactly the request |
| LeaveRules.ChargeKeepsNonNegative | apps/domain/leaves/service.py:248-288 | after a full-day charge no remainder is negative, each emptied grant is deleted at `now`, and undrawn grants are unchanged |
| LeaveRules.FullDayConsumeThenRollback | apps/domain/leaves/service.py:248-292 | a full-day consumption followed by `rollback_leave_usage` restores the grants and the usages |
| LeaveRules.HalfDayConsumeThenRollback | apps/domain/leaves/service.py:216-245 | a half-day consumption followed by rollback restores the grants and the usages |
| LeaveRules.CancelTables | apps/domain/leaves/service.py:391-397 | as written, cancelling leaves the tables alone for an APPROVED request; it rolls back only other statuses with live usages |
| LeaveRules.ApprovedCancelKeepsCharge | apps/domain/leaves/service.py:391-397 | as written, cancelling an approved request whose half day was used leaves the grant half a day short |
| LeaveRules.CancelTablesIntended | apps/domain/leaves/service.py:390-397 | intended cancellation: the usages of an APPROVED request are returned |
| LeaveRules.CancelReturnsHalfDay | apps/domain/leaves/service.py:390-397 | with the intended guard, cancelling right after a half-day use restores both tables |
| LeaveRules.CancelReturnsFullDays | apps/domain/leaves/service.py:390-397 | with the intended guard, cancelling right after a full-day use restores both tables |
| LeaveRules.IsYearBasedEmployee | apps/domain/leaves/service.py:31-50 | raises without a join date or when the first anniversary is no date; otherwise true exactly before the first anniversary |
| LeaveRules.YearDiff | apps/domain/leaves/service.py:54-66 | raises exactly without a join date; otherwise the difference of the calendar years |
| LeaveRules.PlanAnnualGrant | apps/domain/leaves/service.py:298-351 | raises without a join date and for a February 29 join date whose next year is not leap; any grant made is at least one day |
| LeaveRules.FirstYearMonthly | apps/domain/leaves/service.py:310-323 | before the first anniversary: one day on the first of each month, expiring the day before the second anniversary, and nothing on other days |
| LeaveRules.AnniversaryGrant | apps/domain/leaves/service.py:326-349 | from the first anniversary: on the anniversary itself `15 + years // 2` days, expiring the day before the next anniversary, and nothing on other days |
| LeaveLedger.Ledger.constructor | apps/domain/leaves/service.py:1-441 | the ledger holds the given tables |
| LeaveLedger.Ledger.CreateLeaveRequest | apps/domain/leaves/service.py:71-138 | rejects with the error `CheckLeaveRequest` gives; otherwise appends a PENDING request and returns its id, leaving grants and usages alone |
| LeaveLedger.Ledger.CreateLeaveUsage | apps/domain/leaves/service.py:178-294 | errors: request missing, not approved, already used, no annual grant for a half day, or uncovered. On success: a half day charges the oldest annual grant one half-day; full days charge the FIFO walk and record one row per grant |
| LeaveLedger.Ledger.ConsumeHalfDay | apps/domain/leaves/service.py:216-245 | the first drawable annual grant loses half a day and one half-day usage is recorded, or `NoAnnualGrant` with nothing changed |
| LeaveLedger.Ledger.ConsumeFullDay | apps/domain/leaves/service.py:248-292 | the grants become `Charged` by the walk and the rows `FullDayRows`, or `Uncovered` with nothing changed |
| LeaveLedger.FullDayWalk | apps/domain/leaves/service.py:258-282 | the loop, with each date step by the whole days used, computes the walk's charged grants, its usage rows, and what is left to use |
| LeaveLedger.Ledger.RollbackLeaveUsage | apps/domain/leaves/service.py:408-441 | the grants become `Returned` over the request's live usages, and those usages are removed |
| LeaveLedger.ReturnUsages | apps/domain/leaves/service.py:423-438 | the loop collects each listed usage's grant as read, with the days given back and un-deleted, and the bulk update of them gives `Returned` over those usages |
| LeaveLedger.Ledger.CancelLeaveRequest | apps/domain/leaves/service.py:356-405 | missing or already cancelled: error, nothing changes. Otherwise the request becomes CANCELLED with time and reason, and the tables become `CancelTables` (as written) |
| LeaveLedger.Ledger.CreateAnnualLeaveGrant | apps/domain/leaves/service.py:298-351 | stores the grant `PlanAnnualGrant` gives (days remaining equal to days granted), nothing when it gives none, and passes its error on |
| LeaveSerializers.ValidateGrantType | apps/infrastructure/serializers/leaves.py:45-52 | accepted exactly for ANNUAL and MONTH |
| LeaveSerializers.ValidateGrant | apps/infrastructure/serializers/leaves.py:54-70 | as written: accepted whenever both amounts are truthy; otherwise a missing amount crashes, a negative remainder is rejected, and one above the total is rejected |
| LeaveSerializers.GrantBoundsSkipped | apps/infrastructure/serializers/leaves.py:59 | as written, a grant with one day granted and two remaining is accepted |
| LeaveSerializers.ValidateGrantBounds | apps/infrastructure/serializers/leaves.py:54-70 | corrected check: never crashes and rejects only on `remaining_days` |
| LeaveSerializers.GrantBoundsHold | apps/infrastructure/serializers/leaves.py:60-68 | corrected check: known amounts are accepted exactly when 0 ≤ remaining ≤ total |
| LeaveSerializers.CheckRequest | apps/infrastructure/serializers/leaves.py:179-241 | start after end is rejected on `end_date`. A half-day type needs one day and `total_days` of one half. A full-day type needs a positive total equal to the day span; a missing field makes the method fall off its end |
| LeaveSerializers.ValidateRequest | apps/infrastructure/serializers/leaves.py:179-183 | each field comes from the input or, through `or`, from the stored request |
| LeaveSerializers.AcceptedPassesShapeChecks | apps/domain/leaves/service.py:107-124 | a request the serializer accepts can be refused by `create_leave_request` only for its balance |
| LeaveSerializers.ValidateLeaveType | apps/infrastructure/serializers/leaves.py:161-168 | accepted exactly for a listed leave type |
| LeaveSerializers.ValidateStatus | apps/infrastructure/serializers/leaves.py:170-177 | accepted exactly for a listed status |
| LeaveSerializers.ValidateUsedDays | apps/infrastructure/serializers/leaves.py:280-284 | accepted exactly for a positive amount, which is returned |
| Org.ManagerOf | apps/domain/users/models.py:93-101 | `None` exactly when the department has no live manager row; otherwise the user of such a row |
| Org.ManagerOfUnique | apps/domain/users/models.py:320-326 | under the one-live-manager constraint the manager found is the user of the live row |
| Org.ManagerOfUniqueAll | apps/domain/users/models.py:320-326 | the same, for every live manager row of the department |
| Org.Retired | apps/domain/users/models.py:111-114 | every live manager row of the department is soft-deleted at now; other rows are unchanged |
| Org.RetireThenAppoint | apps/domain/users/models.py:103-121 | after `set_manager` the department has exactly one live manager, the new user, and the constraint holds |
| Org.Org.constructor | apps/domain/users/models.py:16-127 | the organisation holds the given tables and the parent links are acyclic |
| Org.Org.GetTopLevelDepartment | apps/domain/users/models.py:67-77 | the result has no parent and is the department itself or one of its ancestors |
| Org.Org.IsSubDepartmentOf | apps/domain/users/models.py:79-91 | true exactly when the other department is an ancestor |
| Org.Org.NotOwnAncestor | apps/domain/users/models.py:79-91 | no department is a sub-department of itself |
| Org.Org.GetManager | apps/domain/users/models.py:93-101 | `None` exactly when there is no live manager; otherwise the live manager's user |
| Org.Org.SetManager | apps/domain/users/models.py:103-121 | the manager table becomes `Retired` plus one new live row, and `get_manager` returns the new user |
| UserService.AssignDepartmentManager | apps/domain/users/service.py:25-67 | errors in the source's order (department missing, manager exists, user missing, user not in department) with nothing changed; otherwise one live manager row is appended |
| UserService.AppointKeepsOneActive | apps/domain/users/models.py:320-326 | appointing where no live manager exists keeps the one-live-manager constraint |
| UserService.ActiveIndex | apps/domain/users/service.py:92-97 | finds a live manager row of the department exactly when one exists |
| UserService.RemoveDepartmentManager | apps/domain/users/service.py:72-103 | errors when the department is missing or has no manager; otherwise the live manager is retired and the department has none |
| UserService.RemoveOnlyActive | apps/domain/users/service.py:92-101 | soft-deleting the one live row equals retiring all live rows, and leaves no manager |
| UserService.GetDepartmentManager | apps/domain/users/service.py:106-125 | an error exactly when the department is missing; otherwise the department's `get_manager` |
| UserService.Unsaved | apps/domain/users/service.py:143-149 | `User(**data)` copies the given fields and takes the defaults: unlocked, no attempts, live |
| UserService.Created | apps/domain/users/service.py:130-169 | the stored users carry the input's fields with their password hashed |
| UserService.BulkCreateUsers | apps/domain/users/service.py:130-169 | fails with nothing stored exactly when a uid repeats in the input or is already taken; otherwise appends the users with hashed passwords and returns their ids |
| UserService.BulkCreateOnePerUid | apps/domain/users/service.py:154-169 | each created user has its input's uid and hashed password, and no two share a uid |
| Approvals.TopExecutive | apps/domain/approvals/service.py:32-34 | the executive position of highest level, `None` exactly when there is no executive |
| Approvals.FirstHolder | apps/domain/approvals/service.py:37-40 | the first live user holding the position, `None` exactly when there is none |
| Approvals.GetCeoUser | apps/domain/approvals/service.py:25-43 | a live user holding the top executive position, and `None` when there is no executive |
| Approvals.IsManager | apps/domain/approvals/service.py:74-92 | errors when the department is missing or has no manager; otherwise true exactly when the user manages it |
| Approvals.ManagerIn | apps/domain/approvals/service.py:46-56 | a manager of the department exactly when one exists |
| Approvals.ResolveApprover | apps/domain/approvals/service.py:96-127 | missing department: none. DEPT_MANAGER: the department's manager. PARENT_DEPT_MANAGER: the parent's manager, none at the top. CEO: the CEO. Any other selector: none |
| Approvals.SelectPolicy | apps/domain/approvals/service.py:175-183 | the first live policy matching the request type, department type and role, `None` exactly when none matches |
| Approvals.PolicySteps | apps/domain/approvals/service.py:185-191 | all live steps of the policy, by ascending `step_order` |
| Approvals.PlanLines | apps/domain/approvals/service.py:194-214 | fails exactly when some step's approver cannot be resolved; otherwise one PENDING line per step with its order and approver |
| Approvals.StepOrders | apps/domain/approvals/service.py:194-214 | the step orders of the planned lines |
| Approvals.BuildLines | apps/domain/approvals/service.py:194-214 | the loop builds `PlanLines`, or reports the order of a step with no approver |
| Approvals.CreateKeepsTables | apps/domain/approvals/models.py:97-106 | storing fresh PENDING lines and moving the request to IN_PROGRESS keeps the check constraints and the unique (request, step order) constraint |
| Approvals.FreshLinesUnique | apps/domain/approvals/models.py:175-179 | the planned lines all belong to the request, are PENDING and have strictly increasing orders |
| Approvals.AppendKeepsUnique | apps/domain/approvals/models.py:175-179 | appending them to a request with no live lines keeps (request, step order) unique |
| Approvals.ApprovalStore.constructor | apps/domain/approvals/models.py:13-286 | the store holds the given tables |
| Approvals.ApprovalStore.PlanApprovalLines | apps/domain/approvals/service.py:131-214 | the outcome `create_approval_lines` reaches (each error case, or the planned lines) without storing anything |
| Approvals.ApprovalStore.PlanStepLines | apps/domain/approvals/service.py:190-214 | with no steps `NoSteps`; a step whose approver cannot be resolved fails with that step's order; otherwise one PENDING line per step for the request, step orders unique and not clashing with stored lines |
| Approvals.ApprovalStore.CreateApprovalLines | apps/domain/approvals/service.py:131-224 | on error nothing changes; otherwise the lines are appended and the request becomes IN_PROGRESS |
| Approvals.ApprovalStore.ApproveApprovalLine | apps/domain/approvals/service.py:229-292 | errors for a missing line, another approver or a line already acted on. Otherwise the line is APPROVED; the request becomes APPROVED exactly when no later step is pending |
| Approvals.ApprovalStore.RejectApprovalLine | apps/domain/approvals/service.py:295-343 | the same errors; otherwise the line is REJECTED with the comment and the request becomes REJECTED |
| Approvals.ApprovalStore.CancelApprovalRequest | apps/domain/approvals/service.py:346-387 | errors for a missing request, another requester, CANCELLED or REJECTED; otherwise CANCELLED with its time |
| Approvals.Approved | apps/domain/approvals/service.py:268-272 | an approved line is APPROVED, acted now, and keeps its comment unless a truthy one is given |
| Approvals.Rejected | apps/domain/approvals/service.py:333-336 | a rejected line is REJECTED, acted now, with the given comment |
| Approvals.NextPending | apps/domain/approvals/service.py:275-283 | the later pending lines of the request by step order, empty exactly when there is none |
| ApprovalModels.NewRequest | apps/domain/approvals/models.py:56-106 | a new request is PENDING, has no decision times and meets the check constraints |
| ApprovalModels.NewLine | apps/domain/approvals/models.py:156-160 | a new line is PENDING with no action, comment or deletion |
| ApprovalModels.GetLeaveRequest | apps/domain/approvals/models.py:112-122 | the leave request linked to the approval request, `None` exactly when there is none |
| Notifications.NewNotice | apps/domain/notifications/service.py:48-54 | a new notification is unread with no read time and carries the given fields |
| Notifications.Read | apps/domain/notifications/models.py:86-91 | marking read sets `is_read`; the read time is set only when it was unread, and an already read notice is unchanged |
| Notifications.ReadIdempotent | apps/domain/notifications/models.py:86-91 | marking read twice is marking read once |
| Notifications.CreateNotification | apps/domain/notifications/service.py:25-56 | `None` exactly when sender and receiver are the same; otherwise the new notice |
| Notifications.Bulk | apps/domain/notifications/service.py:79-90 | at most one notice per receiver, each a new notice from the sender |
| Notifications.Receivers | apps/domain/notifications/service.py:79-90 | the receiver column of a list of notices |
| Notifications.BulkReceivers | apps/domain/notifications/service.py:80-90 | the receivers are the list with every occurrence of the sender dropped, order and repeats kept |
| Notifications.Saved | apps/domain/notifications/service.py:91-92 | `bulk_create` fails with `IntegrityError` exactly when a notice has no type id, since the column is NOT NULL; otherwise it stores each notice, created now and live |
| Notifications.GetUnreadCount | apps/domain/notifications/service.py:126-140 | the unread count equals the length of the unread list |
| Notifications.GetUnreadNotifications | apps/domain/notifications/service.py:143-157 | exactly the user's live unread notices, each once, newest first |
| Notifications.Notification.constructor | apps/domain/notifications/models.py:11-68 | a new notification object holds `NewNotice` |
| Notifications.Notification.MarkAsRead | apps/domain/notifications/models.py:86-91 | the object's value becomes `Read` of its old value |
| Notifications.NotificationStore.constructor | apps/domain/notifications/models.py:11-81 | an empty table |
| Notifications.NotificationStore.CreateBulkNotifications | apps/domain/notifications/service.py:59-94 | with no type id (the default) and someone to notify: `IntegrityError`, nothing stored. Otherwise returns `Bulk`, appends them as saved rows, and stores nothing when the list is empty |
| Notifications.NotificationStore.MarkAsRead | apps/domain/notifications/service.py:98-123 | missing or deleted: not found. A caller who is not the sender: refused. Otherwise the row becomes read |
| Notifications.MarkTwice | apps/domain/notifications/service.py:118-121 | marking a stored row read twice is marking it once |
| Notifications.MarkReducesUnread | apps/domain/notifications/service.py:118-140 | marking an unread row lowers its receiver's unread count by one, drops it from the list, and leaves other users' counts alone |
| OutboxModels.NewEvent | apps/infrastructure/outbox/models.py:22-88 | a new event takes the column defaults: PENDING, zero retries, three allowed, no error, task or times |
| OutboxModels.Published | apps/infrastructure/outbox/models.py:112-118 | PUBLISHED now, task id replaced only by a truthy one; nothing else changes |
| OutboxModels.Processed | apps/infrastructure/outbox/models.py:120-124 | PROCESSED now; nothing else changes |
| OutboxModels.Failed | apps/infrastructure/outbox/models.py:126-132 | FAILED with the message and time, one more retry counted; nothing else changes |
| OutboxModels.DefaultRetryBudget | apps/infrastructure/outbox/models.py:134-136 | with the defaults, an event may be retried after fewer than three failures and not after the third |
| OutboxModels.FailAllCounts | apps/infrastructure/outbox/models.py:126-132 | k failures raise the retry count by k and leave the maximum alone |
| OutboxModels.OutboxEvent.constructor | apps/infrastructure/outbox/models.py:22-88 | the object holds the given row |
| OutboxModels.OutboxEvent.MarkAsPublished | apps/infrastructure/outbox/models.py:112-118 | the row becomes `Published` of its old value |
| OutboxModels.OutboxEvent.MarkAsProcessed | apps/infrastructure/outbox/models.py:120-124 | the row becomes `Processed` of its old value |
| OutboxModels.OutboxEvent.MarkAsFailed | apps/infrastructure/outbox/models.py:126-132 | the row becomes `Failed` of its old value |
| OutboxModels.OutboxEvent.CanRetry | apps/infrastructure/outbox/models.py:134-136 | true exactly when fewer retries than allowed were used |
| OutboxServices.GetPendingEvents | apps/infrastructure/outbox/services.py:93-97 | at most `limit` PENDING events, oldest first, each once, and all of them when fewer than the limit |
| OutboxServices.GetFailedEventsForRetry | apps/infrastructure/outbox/services.py:100-105 | at most `limit` retryable FAILED events, by last error time with never-stamped first, each once, and all of them when fewer |
| OutboxServices.NullsFirst | apps/infrastructure/outbox/services.py:100-105 | unstamped events before stamped ones, each group in order, is ordered by last error time |
| OutboxServices.TakeKeepsDistinct | apps/infrastructure/outbox/services.py:97 | slicing a query keeps each row once |
| OutboxServices.OutboxStore.constructor | apps/infrastructure/outbox/models.py:22-107 | an empty outbox |
| OutboxServices.OutboxStore.CreateSoftDeleteEvent | apps/infrastructure/outbox/services.py:43-74 | appends one PENDING `soft_delete.propagate` event with the given aggregate and data and returns its id |
| OutboxServices.OutboxStore.PublishEventImmediately | apps/infrastructure/outbox/services.py:15-36 | a failed dispatch changes nothing; otherwise the event becomes PUBLISHED and leaves the pending list |
| OutboxTasks.FailEvent | apps/infrastructure/outbox/tasks.py:47-50 | the event becomes `Failed` with the message; nothing else changes |
| OutboxTasks.FinishEvent | apps/infrastructure/outbox/tasks.py:74 | the event becomes `Processed`; nothing else changes |
| OutboxTasks.FailForRetry | apps/infrastructure/outbox/tasks.py:82-93 | the generic handler fails the event and asks for a retry exactly when `should_retry` holds afterwards |
| OutboxTasks.KeyOf | apps/infrastructure/outbox/tasks.py:54 | `get(pk=v)` reads `None` as no row and any value `int` accepts, integer or numeric string, as that key; other values raise |
| OutboxTasks.Lower | apps/infrastructure/outbox/tasks.py:45 | the model name is lower-cased letter by letter before the lookup, keeping its length |
| OutboxTasks.SplitOnDot | apps/infrastructure/outbox/tasks.py:45 | a label splits into two dot-free parts around its dot exactly when it holds one dot |
| OutboxTasks.GetModel | apps/infrastructure/outbox/tasks.py:45 | `apps.get_model`: string label and name find the model keyed by the label and the lower-cased name, else `LookupError`; a `None`, number or boolean label, or a label not installed, is `LookupError`; a list or object label, or a non-string name under an installed label, raises another error; a `None` name splits a dotted label |
| OutboxTasks.ResolveTarget | apps/infrastructure/outbox/tasks.py:38-59 | a missing key in the event data is malformed; a `LookupError` from `get_model` is an unknown model carrying both fields as the message shows them; any other error from `get_model` or `get` is malformed; an unknown model and an unknown row are told apart; a found row is in the graph and its key is the `instance_id` read as an integer |
| OutboxTasks.NonStringLabelNotInstalled | apps/infrastructure/outbox/tasks.py:44-50 | a `model_app` that is `None`, a number or a boolean with a string `model_name` is an unknown model, so the event fails for good |
| OutboxTasks.DottedLabelResolves | apps/infrastructure/outbox/tasks.py:45 | with `model_name` `None`, the label `app.Model` resolves as `app` and `Model` would |
| OutboxTasks.StringIdResolves | apps/infrastructure/outbox/tests.py:262 | an `instance_id` stored as `str(pk)` designates row `pk` of the installed model |
| OutboxTasks.ProcessSoftDeletePropagation | apps/infrastructure/outbox/tasks.py:20-96 | missing event: nothing. PROCESSED: skipped. Malformed, including an `instance_id` `int` refuses and a label or name `get_model` rejects other than by `LookupError`: failed and retried. Unknown model, including a `None`, number or boolean `model_app`, or unknown row: failed for good; a numeric-string id finds its row. Otherwise the cascade runs and the event is PROCESSED; only rows the walk entered change, from live to deleted now, and every live child of an entered row is entered |
| OutboxTasks.DuePending | apps/infrastructure/outbox/tasks.py:197-201 | at most 100 unpublished PENDING events older than ten seconds, oldest first, and all when fewer |
| OutboxTasks.Republish | apps/infrastructure/outbox/tasks.py:204-212 | republishing keeps the table's size |
| OutboxTasks.RepublishAt | apps/infrastructure/outbox/tasks.py:204-212 | an event is `Published` exactly when it was listed and its dispatch succeeded; otherwise unchanged |
| OutboxTasks.RepublishKeepsIds | apps/infrastructure/outbox/tasks.py:204-212 | republishing changes no event's id |
| OutboxTasks.PublishedTwice | apps/infrastructure/outbox/models.py:112-118 | publishing twice with the same task id and time is publishing once |
| OutboxTasks.RepublishEach | apps/infrastructure/outbox/tasks.py:204-230 | the loop produces `Republish` and counts the dispatches that succeeded |
| OutboxTasks.PublishOutboxMessages | apps/infrastructure/outbox/tasks.py:189-236 | republishes the due PENDING events, then the retryable FAILED ones read after that, and counts each group's successful dispatches |
| OutboxTasks.Attach | apps/infrastructure/outbox/tasks.py:272-300 | after "create unless an active one exists" the project has an active row; rows are only appended; nothing changes when one already existed |
| OutboxTasks.AttachIdempotent | apps/infrastructure/outbox/tasks.py:272-300 | attaching twice is attaching once |
| OutboxTasks.ProjectStore.constructor | apps/infrastructure/outbox/tasks.py:238-326 | the store holds the given tables |
| OutboxTasks.ProcessProjectCreation | apps/infrastructure/outbox/tasks.py:238-326 | missing event: nothing. PROCESSED: skipped. Malformed data, a `project_id` `get` cannot read: failed and retried. Project missing or deleted, looked up by the id as an integer or a numeric string: failed for good. Otherwise sales and design records are attached and the event is PROCESSED |
| OutboxTasks.ProjectCreationRerun | apps/infrastructure/outbox/tasks.py:272-300 | running the creation twice adds no second sales or design record |
| OutboxTasks.ProcessAnnualLeaveGrant | apps/infrastructure/outbox/tasks.py:328-394 | missing event: nothing. PROCESSED: skipped. Missing or deleted user: failed for good. A `user_id` `int()` refuses, or an accrual error: failed and retried; a numeric string is read as its integer. Otherwise `PlanAnnualGrant`'s grant (if any) is stored and the event is PROCESSED |
| OutboxTasks.Candidates | apps/infrastructure/outbox/tasks.py:408-412 | the live, unlocked users with a join date, in table order |
| OutboxTasks.ProcessHourlyAnnualLeaveGrants | apps/infrastructure/outbox/tasks.py:398-439 | one attempt per candidate; created plus errors equals the total |
| Propagation.RowStore.constructor | apps/infrastructure/outbox/tasks.py:98-104 | the store holds the relation graph and the deletion stamps |
| Propagation.Alive | apps/infrastructure/outbox/tasks.py:137-139 | the related rows that are still live |
| Propagation.StampAll | apps/infrastructure/outbox/tasks.py:147 | `update(deleted_at=now)` stamps exactly the listed rows |
| Propagation.StampLive | apps/infrastructure/outbox/tasks.py:135-147 | only live children of the row change, and every listed related row ends deleted |
| Propagation.PropagateRelation | apps/infrastructure/outbox/tasks.py:133-168 | one relation: its rows end deleted and the walk invariant holds |
| Propagation.Descend | apps/infrastructure/outbox/tasks.py:160-168 | every child just deleted is visited |
| Propagation.Propagate | apps/infrastructure/outbox/tasks.py:98-186 | an already visited row changes nothing; otherwise the walk starts at the row and keeps the walk invariant |
| Propagation.WalkIsClosed | apps/infrastructure/outbox/tasks.py:127-168 | every live child of a visited row is visited and ends deleted |
| AssigneeSerializers.ResolvedPrimary | apps/infrastructure/serializers/projects.py:252-260 | `is_primary` is the input's value, else `False` on create and the stored value on update |
| AssigneeSerializers.ValidateAssignee | apps/infrastructure/serializers/projects.py:252-287 | rejects on `user` exactly when another live row pairs the owner with the user; otherwise on `is_primary` exactly when a primary is requested and another live primary exists; otherwise returns the input |
| AssigneeSerializers.ValidateAttendee | apps/infrastructure/serializers/meetings.py:45-65 | rejects on `user` exactly when another live row pairs the meeting with the user; otherwise returns the input |
| AssigneeSerializers.CreateKeepsSound | apps/infrastructure/serializers/tasks.py:46-82 | an accepted create keeps one live row per (owner, user) and one live primary per owner |
| AssigneeSerializers.UpdateKeepsSound | apps/infrastructure/serializers/designs.py:46-81 | an accepted update keeps both rules |
| AssigneeSerializers.CreateRejectedOnlyIfUnsound | apps/infrastructure/serializers/sales.py:50-85 | a rejected create would have broken one of the rules |
| AssigneeSerializers.AttendeeCreateKeepsUnique | apps/infrastructure/serializers/meetings.py:45-65 | an accepted meeting create keeps one live row per (meeting, user) |
| AssigneeSerializers.AssigneeIds | apps/infrastructure/serializers/tasks.py:129-155 | exactly the owner's live assignees in primary-key order |
| AssigneeSerializers.DesignAssigneeIds | apps/infrastructure/serializers/designs.py:254-269 | exactly the design's live assignees, newest first |
| AssigneeSerializers.AssigneesCount | apps/infrastructure/serializers/projects.py:132-142 | the count equals the length of either list |
| AssigneeSerializers.GetAssignees | apps/infrastructure/serializers/projects.py:105-130 | one entry per live assignee, in query order, as many as the count |
| ProjectSerializers.ByRole | apps/infrastructure/serializers/projects.py:54-103 | fails exactly when a live link of the project has a role outside the three, naming such a role; otherwise each bucket holds the ids of that role's live links in key order and each count, and the total, equals the number of links counted |
| ProjectSerializers.GetCompanyLinksByRole | apps/infrastructure/serializers/projects.py:54-103 | the loop computes `ByRole` |
| ProjectSerializers.ValidRolesGroup | apps/infrastructure/serializers/projects.py:189-196 | links whose roles passed `validate_role` are always grouped |
| ProjectSerializers.ValidateRole | apps/infrastructure/serializers/projects.py:189-196 | accepted exactly for CLIENT, DESIGN and CONSTRUCTION |
| ProjectSerializers.ValidateLink | apps/infrastructure/serializers/projects.py:198-218 | rejects on `role` exactly when project and a truthy role are known and another live link has both |
| ProjectSerializers.LinkCreateKeepsUnique | apps/infrastructure/serializers/projects.py:198-218 | an accepted link keeps one live link per (project, role) |
| ProjectSerializers.ValidateProject | apps/infrastructure/serializers/projects.py:144-156 | rejects exactly when the resolved start is after the resolved end |
| TaskSerializers.ValidateStatus | apps/infrastructure/serializers/tasks.py:169-176 | accepted exactly for a task status |
| TaskSerializers.ValidatePriority | apps/infrastructure/serializers/tasks.py:178-185 | accepted exactly for a task priority |
| TaskSerializers.ValidatePhase | apps/infrastructure/serializers/tasks.py:187-194 | accepted exactly for a task phase |
| TaskSerializers.ValidateTask | apps/infrastructure/serializers/tasks.py:197-219 | `end_date` when start is after end; otherwise `category` exactly for a DESIGN task with no or a blank category |
| TaskSerializers.OtherPhasesNeedNoCategory | apps/infrastructure/serializers/tasks.py:210-217 | a task of any other phase is never rejected for its category |
| DesignSerializers.ValidateVersionStatus | apps/infrastructure/serializers/designs.py:149-153 | accepted exactly for one of the five version statuses |
| DesignSerializers.ValidateVersion | apps/infrastructure/serializers/designs.py:155-174 | rejects on `name` exactly when the design and a truthy name are known and another live version has both |
| DesignSerializers.RenameKeepsUnique | apps/infrastructure/serializers/designs.py:155-174 | an accepted rename keeps version names unique per design |
| DesignSerializers.VersionCreateKeepsUnique | apps/infrastructure/serializers/designs.py:155-174 | an accepted create keeps them unique |
| DesignSerializers.VersionIds | apps/infrastructure/serializers/designs.py:225-241 | exactly the design's live versions, newest first |
| DesignSerializers.VersionsCount | apps/infrastructure/serializers/designs.py:243-247 | the count equals the length of the list |
| HistoryLists.HistoryIds | apps/infrastructure/serializers/designs.py:282-297 | exactly the owner's live history entries, newest first |
| HistoryLists.HistoriesCount | apps/infrastructure/serializers/sales.py:219-223 | the count equals the length of the list |
| SalesSerializers.ValidateSalesType | apps/infrastructure/serializers/sales.py:162-166 | accepted exactly when the value is falsy or one of the seven sales types |
| ApprovalSerializers.ApproveInput | apps/infrastructure/serializers/approvals.py:12-18 | always accepted, with the comment trimmed |
| ApprovalSerializers.RejectInput | apps/infrastructure/serializers/approvals.py:21-27 | accepted exactly when a comment is given and is not blank; the trimmed comment is returned |
| ApprovalSerializers.BlankReasonRejected | apps/infrastructure/serializers/approvals.py:21-27 | a comment of only white space is refused |
| ApprovalSerializers.ValidateSelector | apps/infrastructure/serializers/approvals.py:59-66 | accepted exactly for the three selector types |
| ApprovalSerializers.ValidateRequestType | apps/infrastructure/serializers/approvals.py:118-125 | accepted exactly for a request type |
| ApprovalSerializers.ValidateRole | apps/infrastructure/serializers/approvals.py:127-136 | accepted exactly for a role |
| ApprovalSerializers.ValidateDeptType | apps/infrastructure/serializers/approvals.py:138-147 | accepted exactly for a department type |
| ApprovalSerializers.ValidateLineStatus | apps/infrastructure/serializers/approvals.py:191-198 | accepted exactly for a line status |
| ApprovalSerializers.ValidateRequestStatus | apps/infrastructure/serializers/approvals.py:276-283 | accepted exactly for a request status |
| ApprovalSerializers.ValidateStep | apps/infrastructure/serializers/approvals.py:68-86 | rejects on `step_order` exactly when a policy and a truthy order are known and another live step of the policy has that order |
| ApprovalSerializers.StepCreateKeepsUnique | apps/infrastructure/serializers/approvals.py:68-86 | an accepted create with a non-zero order keeps step orders unique per policy |
| ApprovalSerializers.ZeroOrderUnchecked | apps/infrastructure/serializers/approvals.py:70-72 | order 0 falls through `or`, so the serializer's own `validate()` lets a second live step 0 of a policy pass |
| ApprovalSerializers.LeaveRequestId | apps/infrastructure/serializers/approvals.py:258-265 | the linked leave request for a LEAVE request, `None` for other types |
| UserSerializers.ValidateEmail | apps/infrastructure/serializers/users.py:80-84 | accepted exactly when the value contains `@` |
| UserSerializers.ValidateUserUid | apps/infrastructure/serializers/users.py:86-95 | rejected exactly when another user, deleted or not, has the uid |
| UserSerializers.UidUpdateKeepsUnique | apps/infrastructure/serializers/users.py:86-95 | an accepted update keeps uids unique |
| UserSerializers.ValidatePermission | apps/infrastructure/serializers/users.py:113-133 | rejected exactly when user, phase and type are all known and another row has all three |
| UserSerializers.PermissionCreateKeepsUnique | apps/infrastructure/serializers/users.py:113-133 | an accepted create keeps the triple unique |
| UserSerializers.PermissionRejectedOnlyIfDuplicate | apps/infrastructure/serializers/users.py:113-133 | a rejected create would have duplicated a triple |
| UserSerializers.ValidatePhase | apps/infrastructure/serializers/users.py:148-155 | accepted exactly for a phase |
| UserSerializers.ValidateRequiredDepartments | apps/infrastructure/serializers/users.py:157-161 | accepted exactly for a list |
| Auth.FindLiveUser | apps/presentation/controllers/auth/views.py:53-56 | a live user with the uid, `None` exactly when there is none |
| Auth.Failed | apps/presentation/controllers/auth/views.py:58-64 | a wrong password adds one attempt and locks at five; nothing else changes |
| Auth.FailuresLock | apps/presentation/controllers/auth/views.py:58-64 | after k wrong passwords the count is up by k, and the account is locked exactly when it was or the count reached five |
| Auth.FifthFailureLocks | apps/presentation/controllers/auth/views.py:60-62 | from zero, four failures leave the account open and the fifth locks it |
| Auth.LoginSpec | apps/presentation/controllers/auth/views.py:41-97 | login succeeds exactly with both fields, a live user, the right password and an unlocked account; success resets the count; a wrong password counts a failure; no lock is ever lifted |
| Auth.LockedNeverLogsIn | apps/presentation/controllers/auth/views.py:67-68 | a locked account never logs in and stays locked |
| Auth.CheckRefresh | apps/presentation/controllers/auth/views.py:113-143 | refresh succeeds exactly when the token decodes to a user whose stored token it is; a missing token and an undecodable one are told apart |
| Auth.LoginEnablesRefresh | apps/presentation/controllers/auth/views.py:82-83 | the token stored at login refreshes |
| Auth.LogoutDisablesRefresh | apps/presentation/controllers/auth/views.py:158-159 | after logout no token of the user refreshes |
| Auth.Accounts.constructor | apps/presentation/controllers/auth/views.py:41-163 | the accounts hold the given users and stored tokens |
| Auth.Accounts.Login | apps/presentation/controllers/auth/views.py:41-97 | result and users as `LoginSpec`; the refresh token is stored exactly on success |
| Auth.Accounts.Refresh | apps/presentation/controllers/auth/views.py:113-143 | the outcome is `CheckRefresh` on the stored tokens |
| Auth.Accounts.Logout | apps/presentation/controllers/auth/views.py:150-163 | unauthenticated: refused with nothing changed; otherwise the user's stored token is deleted |
| Permissions.AnyPrefix | apps/infrastructure/authentication/permissions.py:33-38 | true exactly when the path starts with one of the prefixes |
| Permissions.HasPermission | apps/infrastructure/authentication/permissions.py:27-46 | allowed exactly when the user is authenticated or the path starts with a public endpoint |
| Permissions.OrderIrrelevant | apps/infrastructure/authentication/permissions.py:19-25 | reordering the public endpoint list changes no answer |
| Permissions.PrefixIsLoose | apps/infrastructure/authentication/permissions.py:33-38 | the match is by prefix: `/api/auth/login-x` is public and `/api` is not |
| Responses.StatusCode | apps/infrastructure/responses/error.py:17-119 | success classes use 2xx codes and error classes 4xx or 5xx, so a class succeeds exactly below 400 |
| Responses.PrepareData | apps/infrastructure/responses/base.py:43-50 | the body has exactly the five keys, `success` is `code < 400`, and the rest echo the response |
| Responses.SuccessFlagByClass | apps/infrastructure/responses/success.py:17-70 | the `success` flag of every response is true exactly for the success classes |
| Responses.SharedCodes | apps/infrastructure/responses/success.py:48-54 | Updated shares 201 with Created, and ValidationError shares 400 with BadRequest; only the key tells them apart |
| Responses.CodeIdentifiesClass | apps/infrastructure/responses/error.py:97-103 | those are the only two pairs of classes sharing a code |
| ViewMixins.Rewrap | apps/infrastructure/views/mixins.py:27-40 | 201 becomes Created, 204 NoContent, 400 and up BadRequest, anything else Success, each with the default message and key |
| ViewMixins.FinalizeResponse | apps/infrastructure/views/mixins.py:19-40 | as written: bare responses and Success or Created responses pass; everything else is re-wrapped by its code |
| ViewMixins.FinalizeKeepsOutcome | apps/infrastructure/views/mixins.py:19-40 | the result is always a standard response that succeeds exactly when the original code was below 400 |
| ViewMixins.FinalizeIdempotent | apps/infrastructure/views/mixins.py:19-40 | finalizing twice is finalizing once |
| ViewMixins.ErrorResponsesCollapse | apps/infrastructure/views/mixins.py:25-40 | as written, a 404 NotFound comes out as a 400 BadRequest with the default message |
| ViewMixins.FinalizeStandard | apps/infrastructure/views/mixins.py:24-26 | corrected: every standard response passes unchanged |
| ViewMixins.FinalizeStandardKeepsCode | apps/infrastructure/views/mixins.py:24-26 | corrected: finalizing never changes the status code |
| ViewMixins.ModelViewSet.constructor | apps/infrastructure/views/mixins.py:43-128 | the view set holds the given rows |
| ViewMixins.ModelViewSet.Create | apps/infrastructure/views/mixins.py:80-92 | invalid: ValidationError with the errors and nothing stored; valid: one live row appended and Created |
| ViewMixins.ModelViewSet.Retrieve | apps/infrastructure/views/mixins.py:72-78 | a live row gives Success with its data (200); otherwise NotFound (404) |
| ViewMixins.ModelViewSet.Update | apps/infrastructure/views/mixins.py:94-122 | missing row: not found. Invalid: ValidationError with nothing changed. Valid: the row replaced and Updated (201) |
| ViewMixins.ModelViewSet.Destroy | apps/infrastructure/views/mixins.py:124-128 | missing row: not found. Otherwise the row is soft-deleted now and the response is NoContent |
| ExceptionHandlers.CustomKind | apps/infrastructure/exceptions/custom_handlers.py:28-60 | 404, 403, 409 and 400 select NotFound, PermissionDenied, Conflict and BadRequest; every other code ServerError |
| ExceptionHandlers.DrfKind | apps/infrastructure/exceptions/custom_handlers.py:63-89 | 400, 401, 403 and 404 select ValidationError, Unauthorized, PermissionDenied and NotFound; every other status BadRequest |
| ExceptionHandlers.CustomExceptionHandler | apps/infrastructure/exceptions/custom_handlers.py:10-100 | custom exceptions by status with their key, errors or detail; DRF responses by status with their data; other exceptions a 500; `None` exactly for an API exception without a DRF response; every response is an error |
| ExceptionHandlers.CustomUnauthorizedIsServerError | apps/infrastructure/exceptions/custom_handlers.py:28-60 | a custom exception with status 401 comes out as a 500 |
| ExceptionHandlers.ExceptionToResponse | apps/infrastructure/exceptions/exception_response.py:14-74 | the exception's class decides first, then its status; key and errors are carried over; the result is never a success |
| ExceptionHandlers.ClassBeforeStatus | apps/infrastructure/exceptions/exception_response.py:25-48 | an EntityNotFound raised with status 400 is still a NotFound |
| ExceptionHandlers.DispatchersAgree | apps/infrastructure/exceptions/exception_response.py:49-74 | for 400, 403, 404 and 409 both dispatchers pick the same class; for other codes one says BadRequest and the other ServerError |

## Left out

- Celery, Redis, the database and HTTP are not modelled. A dispatch through `.delay` is a function parameter that may fail. The current time and `date.fromisoformat` are parameters. Log calls are dropped.
- Transactions and `select_for_update` locking are not modelled. Each operation runs alone on the tables. Whether `ATOMIC_REQUESTS` rolls back the failed-login counter when the exception is raised is not modelled either.
- Outbox event ids are table indexes rather than UUIDs. Error messages drop the interpolated exception text and primary keys.
- Propagation.Propagate: the `depth` and `max_depth` arguments are passed along but never compared in the source, so the model has neither. A relation whose query raises is not modelled; every relation is read.
- For a queryset with no ordering, the model returns primary-key order. For ties on an ordering key, the database's tie order is not fixed by the model.
- The half-day check `remaining_days < 0.5` (apps/domain/leaves/service.py:229-230) cannot fail in half-day units, because a drawable grant holds at least one half-day.
- LeaveLedger.Ledger.CreateLeaveUsage records each usage once. As written, `objects.create` saves every usage (apps/domain/leaves/service.py:232, :264), and `bulk_create` (:286) then inserts the same saved objects again under their keys, which raises `IntegrityError`. So the source never returns normally once it has recorded a usage (`LeaveRules.CreatedRowsCollide`, under Findings).
- LeaveLedger.Ledger.ConsumeHalfDay records its usage once, for the reason given for `CreateLeaveUsage`. It dates the usage in `used_at` (service.py:237), while the full-day path (service.py:269) and the tests (apps/domain/leaves/tests.py:225) use `used_date`; the model keeps both columns, as the service writes them.
- LeaveLedger.Ledger.ConsumeFullDay records its usages once, and dates them by whole days. As written, `timedelta(days=daily_use)` (service.py:279) receives a `Decimal` and raises `TypeError` at the first grant drawn (`LeaveRules.FullDayLoop`, under Findings).
- LeaveLedger.FullDayWalk advances the date by the whole days of each charge, which is what adding `timedelta(days=int(daily_use))` to a date does. The loop as written raises instead (`LeaveRules.DecimalDaysRaise`).
- LeaveRules.FullDayRowsAt states the dates of the corrected loop. As written, no full-day row is ever dated, because the loop raises first.
- The `LeaveUsage` model (apps/domain/leaves/models.py:125-154) names its columns `grant`, `request`, `used_amount` and `used_at`. The service and its tests use `leave_grant`, `leave_request`, `used_days` and `used_date`. The model follows the service. The `FieldError` that those names would raise against models.py is not modelled.
- `rollback_leave_usage` removes the usage rows. `QuerySet.delete()` does not call the model's soft `delete()`.
- OutboxTasks.ProcessHourlyAnnualLeaveGrants: the enqueue step is a parameter. The source calls a function that is not defined at that point (apps/infrastructure/outbox/tasks.py:419), so as written every attempt raises and is counted as an error.
- JWT minting and decoding are a parameter (`Decoded`). The exception classes of `apps/infrastructure/exceptions/exceptions.py` are not part of this model; the handlers see their class and status.
- The unreachable branch of `login` that unlocks an account after a correct password (apps/presentation/controllers/auth/views.py:72-73) is left out, because a locked account has already been refused.
- `Strip` treats space, tab, newline and carriage return as white space, not the full Unicode set.
- AssigneeSerializers.ValidateAssignee checks uniqueness among live rows only, as its `validate()` does. The unconditional unique constraint on (project, user) and (task, user) (apps/domain/projects/models.py:220-223, apps/domain/tasks/models.py:152-155, apps/domain/designs/models.py:184-187) holds over every row, deleted or not. The database and DRF's unique-together validator enforce it, and that is not modelled.
- AssigneeSerializers.ValidateAttendee: likewise, the (meeting, user) constraint (apps/domain/meetings/models.py:94-97) over every row is not modelled.
- ProjectSerializers.ValidateLink: likewise, the (project, role) constraint (apps/domain/projects/models.py:177-180) over every row is not modelled.
- DesignSerializers.ValidateVersion: likewise, the (design, name) constraint (apps/domain/designs/models.py:133-136) over every row is not modelled.
- ApprovalSerializers.ValidateStep: likewise, the `unique_together` on (policy, step order) (apps/domain/approvals/models.py:278) over every row is not modelled.
- ApprovalSerializers.ZeroOrderUnchecked states what the serializer's own `validate()` lets through. A second step 0 is still refused by the (policy, step order) constraint, which is not modelled.
- Org.Org.constructor requires the parent links to be acyclic. `get_top_level_department` and `is_sub_department_of` (apps/domain/users/models.py:67-91) have no cycle guard: on a cycle of parents they never return. The model does not cover that case.
- OutboxTasks.GetModel takes the installed apps to be the labels that have at least one model. An installed app with no models, given a non-string name, is a `LookupError` here where Django raises `AttributeError` from `.lower()`. Swapped models and the registry's readiness checks are not modelled.
- OutboxTasks.Lower lower-cases ASCII letters only; Python's `str.lower()` also maps other Unicode letters.
- LeaveSerializers.ValidateLeaveType and LeaveSerializers.ValidateStatus take the choice lists as parameters, following the service's view of `LeaveRequest` (apps/infrastructure/serializers/leaves.py:163, :172). The `LeaveRequest` model (apps/domain/leaves/models.py:64-122) defines neither `LEAVE_TYPE_CHOICES` nor `STATUS_CHOICES`, nor `leave_type` or `status` columns, so as written both validators raise `AttributeError`; that error is not modelled.
- `int()` as `Common.IntOf` reads it accepts an optional sign and ASCII digits. Surrounding white space, `_` separators and other Unicode digits, which `int()` also accepts, are not modelled.
- Serializer rendering, the write-only password field and `list`'s default pagination are not modelled. The company and notification serializers are not part of this model. The meeting serializers are covered by `AssigneeSerializers`.

## Findings

| source | as written | input that shows it | evidently intended | confidence | as-written member | corrected member |
|---|---|---|---|---|---|---|
| apps/infrastructure/serializers/leaves.py:59 | the bounds on `remaining_days` are checked only when one of the two amounts is falsy | `total_days` 1, `remaining_days` 2: accepted | check 0 ≤ remaining ≤ total whenever both are known, as the error messages say | not executed | LeaveSerializers.GrantBoundsSkipped | LeaveSerializers.GrantBoundsHold |
| apps/infrastructure/views/mixins.py:24-26 | a standard response passes only when it is Success or Created; other standard responses are re-wrapped by their code | a `NotFoundResponse` (404) leaves the view as a 400 BadRequest | every response built on `BaseJsonResponse` passes unchanged, as the comment at line 25 says | not executed | ViewMixins.ErrorResponsesCollapse | ViewMixins.FinalizeStandardKeepsCode |
| apps/domain/leaves/service.py:391 | usages are rolled back only when the status is not APPROVED | an APPROVED request whose half day was used and is then cancelled: the grant stays half a day short | roll back the usages of an APPROVED request, as the comment at line 390 says; only approved requests have usages | not executed | LeaveRules.ApprovedCancelKeepsCharge | LeaveRules.CancelReturnsHalfDay |
| apps/domain/leaves/service.py:279 | `current_date += timedelta(days=daily_use)` with `daily_use` a `Decimal`, since `total_days` and `remaining_days` are `DecimalField`s | an APPROVED one-day ANNUAL request with one live grant of 15 days: `TypeError` at the first grant | each usage dated by the whole days used before it, and the request charged, as apps/domain/leaves/integration_tests.py:319-330 expects | not executed | LeaveRules.DecimalDaysRaise | LeaveLedger.FullDayWalk |
| apps/domain/leaves/service.py:286 | `bulk_create(usage_records)` on usages that `objects.create` (:232, :264) already saved | any request that records a usage: the batch re-inserts key `k` of a table that holds row `k`, raising `IntegrityError` | each usage inserted once, and the usages returned | not executed | LeaveRules.CreatedRowsCollide | LeaveRules.UnsavedRowsInsert |
