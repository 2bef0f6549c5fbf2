/** The login view's lockout counter and session tracking, logout, and the
    user-list gate. The `users` and `user_sessions` tables are fields of
    `AccountStore`; each view is a method whose new state is given by a pure
    function of the old one, and the lemmas are about those functions. */
module AccountsViews {

  import opened Wrappers
  import opened Requests
  import opened AccountsModels

  /** Failures at which `form_invalid` locks the account. */
  const LockThreshold := 5

  /** Ids are positions and usernames are unique (`AbstractUser.username`). */
  predicate UsersValid(users: seq<User>)
  {
    (forall i :: 0 <= i < |users| ==> users[i].id == i) &&
    (forall i, j :: 0 <= i < j < |users| ==> users[i].username != users[j].username)
  }

  /** `User.objects.get(username=…)`: the user with that username, if any; a
      missing username (`cleaned_data.get` gave None) matches nobody. */
  function Lookup(users: seq<User>, username: Option<string>): (r: Option<nat>)
    ensures r.Some? ==> r.value < |users| && username == Some(users[r.value].username)
    ensures r.None? ==> forall i :: 0 <= i < |users| ==> username != Some(users[i].username)
  {
    if username.None? then None else Find(users, username.value, 0)
  }

  function Find(users: seq<User>, name: string, from: nat): (r: Option<nat>)
    requires from <= |users|
    ensures r.Some? ==> from <= r.value < |users| && users[r.value].username == name
    ensures r.None? ==> forall i :: from <= i < |users| ==> users[i].username != name
    decreases |users| - from
  {
    if from == |users| then None
    else if users[from].username == name then Some(from)
    else Find(users, name, from + 1)
  }

  /** One failed attempt on a user: the counter goes up by one and the account locks
      when it reaches the threshold. */
  function Failed(u: User): (v: User)
    ensures v.loginAttempts == u.loginAttempts + 1
    ensures v.accountLocked <==> u.accountLocked || v.loginAttempts >= LockThreshold
    ensures v.(loginAttempts := u.loginAttempts, accountLocked := u.accountLocked) == u
  {
    var n := u.loginAttempts + 1;
    u.(loginAttempts := n, accountLocked := if n >= LockThreshold then true else u.accountLocked)
  }

  /** The users table after `form_invalid` for `username`. */
  function FailedLogin(users: seq<User>, username: Option<string>): seq<User>
  {
    match Lookup(users, username)
    case None => users
    case Some(i) => users[i := Failed(users[i])]
  }

  /** A failed login for an existing username changes that user alone, by one more
      attempt; for an unknown username it changes nothing. */
  lemma FailedLoginEffect(users: seq<User>, username: Option<string>)
    ensures |FailedLogin(users, username)| == |users|
    ensures Lookup(users, username).None? ==> FailedLogin(users, username) == users
    ensures Lookup(users, username).Some? ==>
              var i := Lookup(users, username).value;
              FailedLogin(users, username)[i].loginAttempts == users[i].loginAttempts + 1 &&
              forall j :: 0 <= j < |users| && j != i ==> FailedLogin(users, username)[j] == users[j]
  {
  }

  /** Nothing in the login views clears a lock: a locked account stays locked
      through a failed login. */
  lemma FailedLoginKeepsLocks(users: seq<User>, username: Option<string>, j: nat)
    requires j < |users| && users[j].accountLocked
    ensures FailedLogin(users, username)[j].accountLocked
  {
  }

  /** k failed attempts in a row. */
  function FailMany(u: User, k: nat): User
  {
    if k == 0 then u else Failed(FailMany(u, k - 1))
  }

  /** Starting from a fresh counter on an unlocked account, k failures leave the
      counter at k, and the account is locked exactly when k reaches five. */
  lemma {:induction false} LockoutAfterFive(u: User, k: nat)
    requires u.loginAttempts == 0 && !u.accountLocked
    ensures FailMany(u, k).loginAttempts == k
    ensures FailMany(u, k).accountLocked <==> k >= LockThreshold
    ensures FailMany(u, k).id == u.id && FailMany(u, k).role == u.role
  {
    if k > 0 { LockoutAfterFive(u, k - 1); }
  }

  /** What `form_valid` does with correct credentials for user `uid`. */
  datatype LoginOutcome =
    | LockedOut               // redirected to the login page, nothing recorded
    | SignedIn                // Django's login response; session row and user updated
    | SessionRejected         // the session row's address was NULL: IntegrityError

  /** The users table after a sign-in of user i from address ip. */
  function SignedInUsers(users: seq<User>, i: nat, ip: string): (r: seq<User>)
    requires i < |users|
    ensures |r| == |users| && r[i].isOnline && r[i].loginAttempts == 0
    ensures r[i].lastLoginIp == Some(ip)
    ensures r[i].accountLocked == users[i].accountLocked && r[i].role == users[i].role
    ensures forall j :: 0 <= j < |users| && j != i ==> r[j] == users[j]
  {
    users[i := users[i].(isOnline := true, lastLoginIp := Some(ip), loginAttempts := 0)]
  }

  /** The latest active session of user `uid` under `key`, by login time; among equal
      times the one stored last. */
  function LatestActiveSession(sessions: seq<UserSession>, uid: nat, key: string): (r: Option<nat>)
    ensures r.Some? ==> r.value < |sessions| && Matches(sessions[r.value], uid, key)
    ensures r.Some? ==> forall j :: 0 <= j < |sessions| && Matches(sessions[j], uid, key) ==>
                          sessions[j].loginTime <= sessions[r.value].loginTime
    ensures r.None? <==> forall j :: 0 <= j < |sessions| ==> !Matches(sessions[j], uid, key)
  {
    if sessions == [] then None
    else
      var n := |sessions| - 1;
      var rest := LatestActiveSession(sessions[..n], uid, key);
      if !Matches(sessions[n], uid, key) then rest
      else if rest.Some? && sessions[rest.value].loginTime > sessions[n].loginTime then rest
      else Some(n)
  }

  /** The filter of `custom_logout`: this user, this session key, still active. */
  predicate Matches(s: UserSession, uid: nat, key: string)
  {
    s.user == uid && s.sessionKey == key && s.isActive
  }

  /** The sessions table after logout: the latest matching active session, if any,
      is closed at `now`. */
  function LoggedOutSessions(sessions: seq<UserSession>, uid: nat, key: string, now: int): seq<UserSession>
  {
    match LatestActiveSession(sessions, uid, key)
    case None => sessions
    case Some(i) => sessions[i := sessions[i].(logoutTime := Some(now), isActive := false)]
  }

  /** Logout closes one session at most: the latest active one of the user under the
      key, which it marks inactive with the logout time; every other row stays. */
  lemma LogoutClosesOnlyLatest(sessions: seq<UserSession>, uid: nat, key: string, now: int)
    ensures |LoggedOutSessions(sessions, uid, key, now)| == |sessions|
    ensures forall j :: 0 <= j < |sessions| && LatestActiveSession(sessions, uid, key) != Some(j) ==>
              LoggedOutSessions(sessions, uid, key, now)[j] == sessions[j]
    ensures LatestActiveSession(sessions, uid, key).Some? ==>
              var i := LatestActiveSession(sessions, uid, key).value;
              var s := LoggedOutSessions(sessions, uid, key, now)[i];
              !s.isActive && s.logoutTime == Some(now) &&
              s.(isActive := true, logoutTime := sessions[i].logoutTime) == sessions[i]
  {
  }

  /** After logout the user has one active session fewer under that key, unless
      there was none. */
  lemma LogoutCount(sessions: seq<UserSession>, uid: nat, key: string, now: int)
    ensures ActiveCount(LoggedOutSessions(sessions, uid, key, now), uid, key) ==
              if LatestActiveSession(sessions, uid, key).Some? then ActiveCount(sessions, uid, key) - 1
              else ActiveCount(sessions, uid, key)
  {
    match LatestActiveSession(sessions, uid, key)
    case None =>
    case Some(i) =>
      var t := LoggedOutSessions(sessions, uid, key, now);
      ActiveCountUpdate(sessions, i, t[i], uid, key);
  }

  function ActiveCount(sessions: seq<UserSession>, uid: nat, key: string): nat
  {
    if sessions == [] then 0
    else ActiveCount(sessions[..|sessions| - 1], uid, key) + (if Matches(sessions[|sessions| - 1], uid, key) then 1 else 0)
  }

  lemma {:induction false} ActiveCountUpdate(sessions: seq<UserSession>, i: nat, s: UserSession, uid: nat, key: string)
    requires i < |sessions|
    ensures ActiveCount(sessions[i := s], uid, key) ==
              ActiveCount(sessions, uid, key)
              - (if Matches(sessions[i], uid, key) then 1 else 0)
              + (if Matches(s, uid, key) then 1 else 0)
  {
    var n := |sessions| - 1;
    if i < n {
      ActiveCountUpdate(sessions[..n], i, s, uid, key);
      assert sessions[i := s][..n] == sessions[..n][i := s];
    } else {
      assert sessions[i := s][..n] == sessions[..n];
    }
  }

  /** `user_list`: only administrators; everyone else is sent to the dashboard. */
  function UserList(role: Role): (r: Response)
    ensures r == Render <==> role == Admin
    ensures r != Render ==> r == Redirect(Page("dashboard"))
  {
    if RoleCode(role) != "admin" then Redirect(Page("dashboard")) else Render
  }

  /** The `users` and `user_sessions` tables. */
  class AccountStore {
    var users: seq<User>
    var sessions: seq<UserSession>

    constructor ()
      ensures users == [] && sessions == []
    {
      users := [];
      sessions := [];
    }

    /** `CustomLoginView.form_invalid`: wrong credentials were given for `username`. */
    method FormInvalid(username: Option<string>)
      modifies this
      ensures users == FailedLogin(old(users), username)
      ensures sessions == old(sessions)
    {
      var found := Lookup(users, username);
      if found.Some? {
        var i := found.value;
        var u := users[i];
        var attempts := u.loginAttempts + 1;
        u := u.(loginAttempts := attempts);
        if attempts >= LockThreshold {
          u := u.(accountLocked := true);
        }
        users := users[i := u];
      }
    }

    /** `CustomLoginView.form_valid`: the credentials of user `uid` were correct.
        `key` is the session key after Django's login, `now` the clock. */
    method FormValid(uid: nat, key: string, meta: Meta, now: int) returns (outcome: LoginOutcome)
      requires uid < |users|
      modifies this
      ensures outcome == LockedOut <==> old(users[uid].accountLocked)
      ensures outcome == SessionRejected <==>
                !old(users[uid].accountLocked) && StoredIp(ClientIp(meta)).None?
      ensures outcome == SignedIn <==>
                !old(users[uid].accountLocked) && StoredIp(ClientIp(meta)).Some?
      ensures outcome == LockedOut || outcome == SessionRejected ==>
                users == old(users) && sessions == old(sessions)
      ensures outcome == SignedIn ==>
                var ip := ClientIp(meta).value;
                ip != "" &&
                users == SignedInUsers(old(users), uid, ip) &&
                sessions == old(sessions) + [OpenSession(uid, key, ip, UserAgent(meta), now)]
    {
      if users[uid].accountLocked {
        return LockedOut;
      }
      var ip := StoredIp(ClientIp(meta));
      if ip.None? {
        return SessionRejected;
      }
      sessions := sessions + [OpenSession(uid, key, ip.value, UserAgent(meta), now)];
      var u := users[uid];
      users := users[uid := u.(isOnline := true, lastLoginIp := ip, loginAttempts := 0)];
      outcome := SignedIn;
    }

    /** `custom_logout` for the signed-in user `uid` with session key `key`. */
    method Logout(uid: nat, key: string, now: int)
      requires uid < |users|
      modifies this
      ensures sessions == LoggedOutSessions(old(sessions), uid, key, now)
      ensures users == old(users)[uid := old(users[uid]).(isOnline := false)]
    {
      var latest := LatestActiveSession(sessions, uid, key);
      if latest.Some? {
        var i := latest.value;
        sessions := sessions[i := sessions[i].(logoutTime := Some(now), isActive := false)];
      }
      users := users[uid := users[uid].(isOnline := false)];
    }
  }
}
