/** The user serializers: the e-mail shape, `user_uid` uniqueness over every
  * user, uniqueness of a (user, phase, permission type) grant, and the phase
  * access rule's fields. */
module UserSerializers {
  import opened Common
  import opened Validation
  import opened Org

  /** `UserModelSerializer.validate_email`: the value must contain `@`. */
  function ValidateEmail(value: string): (r: Result<string, Rejection>)
    ensures r.Ok? <==> '@' in value
    ensures r.Ok? ==> r.value == value
    ensures r.Err? ==> r.error.field == "email"
  {
    if '@' !in value then Err(Rejection("email")) else Ok(value)
  }

  /** Every row, soft-deleted ones included. */
  function AnyUser(): User -> bool {
    (u: User) => true
  }

  function Uid(u: User): string {
    u.uid
  }

  /** `UserModelSerializer.validate_user_uid`: a user other than the one
    * being updated (`self`), deleted or not, already has the uid. */
  function ValidateUserUid(users: seq<User>, value: string, self: Option<int>): (r: Result<string, Rejection>)
    ensures r.Err? <==> exists i :: 0 <= i < |users| && users[i].uid == value && self != Some(i)
    ensures r.Ok? ==> r.value == value
    ensures r.Err? ==> r.error.field == "user_uid"
  {
    if Taken(users, AnyUser(), Uid, value, self) then Err(Rejection("user_uid")) else Ok(value)
  }

  /** Changing user `n`'s uid after the check passed keeps uids unique. */
  lemma {:induction false} UidUpdateKeepsUnique(users: seq<User>, n: int, value: string)
    requires UniqueOn(users, AnyUser(), Uid) && 0 <= n < |users|
    requires ValidateUserUid(users, value, Some(n)).Ok?
    ensures UniqueOn(users[n := users[n].(uid := value)], AnyUser(), Uid)
  {
    UpdateKeepsUnique(users, AnyUser(), Uid, n, users[n].(uid := value));
  }

  /** A `UserPermission` row. */
  datatype Permission = Permission(user: int, phase: string, permissionType: string)

  function AnyPermission(): Permission -> bool {
    (p: Permission) => true
  }

  function Triple(p: Permission): (int, string, string) {
    (p.user, p.phase, p.permissionType)
  }

  /** `UserPermissionModelSerializer.validate`: each field from the input or
    * the stored row `self`; with all three known and non-empty, another row
    * with the same triple raises a non-field error. */
  function ValidatePermission(rows: seq<Permission>, user: Option<int>, phase: Option<string>,
                              permissionType: Option<string>, self: Option<int>): (r: Option<Rejection>)
    requires self.Some? ==> 0 <= self.value < |rows|
    ensures var u := OrRef(user, if self.Some? then Some(rows[self.value].user) else None);
            var p := OrStr(phase, if self.Some? then Some(rows[self.value].phase) else None);
            var t := OrStr(permissionType, if self.Some? then Some(rows[self.value].permissionType) else None);
            r.Some? <==> u.Some? && TruthyStr(p) && TruthyStr(t)
                         && exists i :: 0 <= i < |rows| && Triple(rows[i]) == (u.value, p.value, t.value) && self != Some(i)
    ensures r.Some? ==> r.value.field == "non_field_errors"
  {
    var u := OrRef(user, if self.Some? then Some(rows[self.value].user) else None);
    var p := OrStr(phase, if self.Some? then Some(rows[self.value].phase) else None);
    var t := OrStr(permissionType, if self.Some? then Some(rows[self.value].permissionType) else None);
    if u.Some? && TruthyStr(p) && TruthyStr(t) && Taken(rows, AnyPermission(), Triple, (u.value, p.value, t.value), self) then
      Some(Rejection("non_field_errors"))
    else None
  }

  /** A grant the check accepted keeps `unique_together` on (user, phase,
    * permission_type). */
  lemma {:induction false} PermissionCreateKeepsUnique(rows: seq<Permission>, x: Permission)
    requires UniqueOn(rows, AnyPermission(), Triple) && x.phase != "" && x.permissionType != ""
    requires ValidatePermission(rows, Some(x.user), Some(x.phase), Some(x.permissionType), None).None?
    ensures UniqueOn(rows + [x], AnyPermission(), Triple)
  {
    InsertKeepsUnique(rows, AnyPermission(), Triple, x);
  }

  /** A grant the check rejected would have broken that constraint. */
  lemma {:induction false} PermissionRejectedOnlyIfDuplicate(rows: seq<Permission>, x: Permission)
    requires ValidatePermission(rows, Some(x.user), Some(x.phase), Some(x.permissionType), None).Some?
    ensures !UniqueOn(rows + [x], AnyPermission(), Triple)
  {
    TakenBreaksUnique(rows, AnyPermission(), Triple, x);
  }

  /** `PhaseAccessRule.PHASE_CHOICES`. */
  const PHASES: seq<string> := ["SALES", "DESIGN", "CONTRACT", "CONSTRUCTION"]

  /** `PhaseAccessRuleModelSerializer.validate_phase`. */
  function ValidatePhase(value: string): (r: Result<string, Rejection>)
    ensures r.Ok? <==> value == "SALES" || value == "DESIGN" || value == "CONTRACT" || value == "CONSTRUCTION"
  {
    ValidateChoice("phase", value, PHASES)
  }

  /** `validate_required_departments`: the JSON value must be a list. */
  function ValidateRequiredDepartments(value: Json): (r: Result<Json, Rejection>)
    ensures r.Ok? <==> value.JList?
    ensures r.Ok? ==> r.value == value
    ensures r.Err? ==> r.error.field == "required_departments"
  {
    if !value.JList? then Err(Rejection("required_departments")) else Ok(value)
  }
}
