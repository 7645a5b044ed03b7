/** The login, token refresh and logout endpoints: the failed-login counter
  * that locks an account, and the refresh token kept per user. Tokens are
  * opaque strings; minting and decoding a JWT happen outside the model. */
module Auth {
  import opened Common
  import opened Org

  /** Failed logins at which an account locks. */
  const MAX_ATTEMPTS: int := 5

  /** The exceptions the endpoints raise, by cause. */
  datatype AuthError =
    | MissingCredentials   // `ValidationException`: no uid or no password
    | UserNotFound         // `UnAuthorizedException`: no live user with the uid
    | PasswordMismatch     // `PasswordMissmatchException`
    | AccountLocked        // `UnAuthorizedException`: right password, locked account
    | MissingToken         // `InvalidTokenException`: no refresh token given
    | TokenExpired         // `UnAuthorizedException` for simplejwt's `TokenError`
    | TokenMismatch        // `InvalidTokenException`: not the token stored for the user
    | NotAuthenticated     // `UnAuthorizedException` from `logout`

  /** `user_uid` is declared `unique=True`, over every row. */
  predicate UidsUnique(users: seq<User>) {
    forall i, j :: 0 <= i < j < |users| ==> users[i].uid != users[j].uid
  }

  /** `check_password`: the stored hash is the hash of the given password. */
  predicate CheckPassword(p: Password, raw: string) {
    p == Hashed(raw)
  }

  /** `User.objects.get(user_uid=..., deleted_at__isnull=True)`. */
  function FindLiveUser(users: seq<User>, uid: string): (r: Option<int>)
    ensures r.Some? ==> 0 <= r.value < |users| && users[r.value].uid == uid && users[r.value].deletedAt.None?
    ensures r.None? <==> forall k :: 0 <= k < |users| ==> !(users[k].uid == uid && users[k].deletedAt.None?)
  {
    if users == [] then None
    else if users[0].uid == uid && users[0].deletedAt.None? then Some(0)
    else
      var rest := FindLiveUser(users[1..], uid);
      assert forall k :: 1 <= k < |users| ==> users[k] == users[1..][k - 1];
      if rest.Some? then Some(rest.value + 1) else None
  }

  /** A user after one wrong password: one more attempt, and locked once the
    * attempts reach `MAX_ATTEMPTS` (a locked account stays locked). */
  function Failed(u: User): (v: User)
    ensures v.loginAttempts == u.loginAttempts + 1
    ensures v.accountLocked <==> u.accountLocked || u.loginAttempts + 1 >= MAX_ATTEMPTS
    ensures v.(loginAttempts := u.loginAttempts, accountLocked := u.accountLocked) == u
  {
    var w := u.(loginAttempts := u.loginAttempts + 1);
    if w.loginAttempts >= MAX_ATTEMPTS then w.(accountLocked := true) else w
  }

  /** `k` wrong passwords in a row. */
  function FailedTimes(u: User, k: nat): User {
    if k == 0 then u else Failed(FailedTimes(u, k - 1))
  }

  /** After `k` wrong passwords the counter has gone up by `k`, and the
    * account is locked exactly when it was or the counter reached five. */
  lemma {:induction false} FailuresLock(u: User, k: nat)
    ensures FailedTimes(u, k).loginAttempts == u.loginAttempts + k
    ensures FailedTimes(u, k).accountLocked <==> u.accountLocked || (k > 0 && u.loginAttempts + k >= MAX_ATTEMPTS)
    ensures FailedTimes(u, k).(loginAttempts := u.loginAttempts, accountLocked := u.accountLocked) == u
  {
    if k > 0 {
      FailuresLock(u, k - 1);
    }
  }

  /** What `login` does with the users table. */
  datatype LoginOutcome = LoginOutcome(result: Result<int, AuthError>, users: seq<User>)

  /** `AuthViewSet.login`: credentials first, then the live user, then the
    * password (a wrong one counts even on a locked account), then the lock;
    * success resets the counter. */
  function LoginSpec(users: seq<User>, uid: Option<string>, password: Option<string>): (r: LoginOutcome)
    ensures |r.users| == |users|
    ensures (!TruthyStr(uid) || !TruthyStr(password)) ==> r == LoginOutcome(Err(MissingCredentials), users)
    ensures r.result == Err(UserNotFound) ==> r.users == users
    ensures r.result.Ok? <==>
              TruthyStr(uid) && TruthyStr(password) && FindLiveUser(users, uid.value).Some?
              && CheckPassword(users[FindLiveUser(users, uid.value).value].password, password.value)
              && !users[FindLiveUser(users, uid.value).value].accountLocked
    ensures r.result.Ok? ==> var i := r.result.value;
              0 <= i < |users| && users[i].uid == uid.value && users[i].deletedAt.None?
              && r.users == users[i := users[i].(loginAttempts := 0)]
    ensures r.result == Err(PasswordMismatch) ==>
              exists i :: 0 <= i < |users| && users[i].uid == uid.value && users[i].deletedAt.None?
                          && !CheckPassword(users[i].password, password.value) && r.users == users[i := Failed(users[i])]
    ensures r.result == Err(AccountLocked) ==> r.users == users
    ensures forall k :: 0 <= k < |users| && users[k].accountLocked ==> r.users[k].accountLocked
  {
    if !TruthyStr(uid) || !TruthyStr(password) then LoginOutcome(Err(MissingCredentials), users)
    else
      var found := FindLiveUser(users, uid.value);
      if found.None? then LoginOutcome(Err(UserNotFound), users)
      else
        var i := found.value;
        if !CheckPassword(users[i].password, password.value) then
          LoginOutcome(Err(PasswordMismatch), users[i := Failed(users[i])])
        else if users[i].accountLocked then LoginOutcome(Err(AccountLocked), users)
        else LoginOutcome(Ok(i), users[i := users[i].(loginAttempts := 0)])
  }

  /** A locked account never logs in, whatever the password, and stays
    * locked: the branch of `login` that would unlock it cannot be reached. */
  lemma {:induction false} LockedNeverLogsIn(users: seq<User>, uid: string, password: Option<string>)
    requires FindLiveUser(users, uid).Some? && users[FindLiveUser(users, uid).value].accountLocked
    ensures LoginSpec(users, Some(uid), password).result.Err?
    ensures LoginSpec(users, Some(uid), password).users[FindLiveUser(users, uid).value].accountLocked
  {
  }

  /** Wrong passwords from a fresh account: the fifth locks it, and from
    * then on even the right password is refused. */
  lemma {:induction false} FifthFailureLocks(u: User)
    requires u.loginAttempts == 0 && !u.accountLocked
    ensures !FailedTimes(u, 4).accountLocked
    ensures FailedTimes(u, 5).accountLocked && FailedTimes(u, 5).loginAttempts == 5
  {
    FailuresLock(u, 4);
    FailuresLock(u, 5);
  }

  /** `RefreshToken(token)` as the refresh endpoint sees it: a `TokenError`,
    * or the token's `user_id` claim. */
  datatype Decoded = Invalid | Claims(userId: Option<int>)

  /** `AuthViewSet.refresh`: a token must be given, decode, and be the one
    * stored for its user; the result is the user a new access token is for. */
  function CheckRefresh(stored: map<int, string>, token: Option<string>, decoded: Decoded): (r: Result<int, AuthError>)
    ensures r.Ok? <==> TruthyStr(token) && decoded.Claims? && decoded.userId.Some?
                       && decoded.userId.value in stored && stored[decoded.userId.value] == token.value
    ensures r.Ok? ==> decoded.Claims? && Some(r.value) == decoded.userId
    ensures !TruthyStr(token) ==> r == Err(MissingToken)
    ensures TruthyStr(token) && decoded.Invalid? ==> r == Err(TokenExpired)
  {
    if !TruthyStr(token) then Err(MissingToken)
    else if decoded.Invalid? then Err(TokenExpired)
    else if decoded.userId.None? || decoded.userId.value !in stored || stored[decoded.userId.value] != token.value then
      Err(TokenMismatch)
    else Ok(decoded.userId.value)
  }

  /** The token stored at login refreshes for that user. */
  lemma {:induction false} LoginEnablesRefresh(stored: map<int, string>, user: int, token: string)
    requires token != ""
    ensures CheckRefresh(stored[user := token], Some(token), Claims(Some(user))) == Ok(user)
  {
  }

  /** After logout no token refreshes for that user. */
  lemma {:induction false} LogoutDisablesRefresh(stored: map<int, string>, user: int, token: Option<string>)
    ensures CheckRefresh(stored - {user}, token, Claims(Some(user))).Err?
  {
  }

  /** The users table and the refresh-token store the endpoints change. */
  class Accounts {
    var users: seq<User>
    var refreshTokens: map<int, string>

    ghost predicate Valid()
      reads this
    {
      UidsUnique(users)
    }

    constructor (users0: seq<User>, tokens0: map<int, string>)
      requires UidsUnique(users0)
      ensures Valid() && users == users0 && refreshTokens == tokens0
    {
      users := users0;
      refreshTokens := tokens0;
    }

    /** `login`: updates the user row as `LoginSpec` says and, on success,
      * stores the freshly minted refresh token `token` for the user. */
    method Login(uid: Option<string>, password: Option<string>, token: string) returns (r: Result<int, AuthError>)
      requires Valid()
      modifies this
      ensures Valid()
      ensures r == LoginSpec(old(users), uid, password).result
      ensures users == LoginSpec(old(users), uid, password).users
      ensures r.Ok? ==> refreshTokens == old(refreshTokens)[r.value := token]
      ensures r.Err? ==> refreshTokens == old(refreshTokens)
    {
      if !TruthyStr(uid) || !TruthyStr(password) {
        return Err(MissingCredentials);
      }
      var found := FindLiveUser(users, uid.value);
      if found.None? {
        return Err(UserNotFound);
      }
      var i := found.value;
      var user := users[i];
      if !CheckPassword(user.password, password.value) {
        user := user.(loginAttempts := user.loginAttempts + 1);
        if user.loginAttempts >= MAX_ATTEMPTS {
          user := user.(accountLocked := true);
        }
        users := users[i := user];
        return Err(PasswordMismatch);
      }
      if user.accountLocked {
        return Err(AccountLocked);
      }
      user := user.(loginAttempts := 0);
      users := users[i := user];
      refreshTokens := refreshTokens[i := token];
      r := Ok(i);
    }

    /** `refresh`: changes nothing. */
    method Refresh(token: Option<string>, decoded: Decoded) returns (r: Result<int, AuthError>)
      ensures r == CheckRefresh(refreshTokens, token, decoded)
    {
      r := CheckRefresh(refreshTokens, token, decoded);
    }

    /** `logout`: an authenticated user's refresh token is deleted. */
    method Logout(user: Option<int>) returns (r: Result<int, AuthError>)
      modifies this
      ensures user.None? ==> r == Err(NotAuthenticated) && refreshTokens == old(refreshTokens)
      ensures user.Some? ==> r == Ok(user.value) && refreshTokens == old(refreshTokens) - {user.value}
      ensures users == old(users)
    {
      if user.None? {
        return Err(NotAuthenticated);
      }
      refreshTokens := refreshTokens - {user.value};
      r := Ok(user.value);
    }
  }
}
