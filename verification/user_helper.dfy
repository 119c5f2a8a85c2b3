/** `UserHelper`: the application's facade over the identity framework. Calls
    it merely forwards are used from `Identity` directly; this module holds
    the ones that add logic of their own. */
module UserHelper {
  import opened Wrappers
  import opened Entities
  import opened Identity
  import opened Seqs
  import Ordering

  /** A signed-in session: the cookie issued for a user, persistent when "remember me" was ticked. */
  datatype Session = Session(userId: string, persistent: bool)

  /** The result of a password sign-in. */
  datatype Attempt = Attempt(state: State, result: SignInResult, session: Option<Session>)

  /** A row of the user listing: the user and its `IsAdmin` flag. */
  datatype ListedUser = ListedUser(user: User, isAdmin: bool)

  /** `CheckRoleAsync`: creates the role when it does not exist yet. */
  function CheckRole(st: State, roleName: string): (r: State)
    ensures roleName in st.roles ==> r == st
    ensures !IsBlank(roleName) ==> roleName in r.roles
    ensures st.roles <= r.roles <= st.roles + {roleName}
    ensures r.users == st.users && r.userRoles == st.userRoles
  {
    if roleName in st.roles then st else CreateRole(st, roleName).state
  }

  /** Ensuring a role twice is ensuring it once. */
  lemma CheckRoleIdempotent(st: State, roleName: string)
    ensures CheckRole(CheckRole(st, roleName), roleName) == CheckRole(st, roleName)
  {
  }

  /** `GetUserByEmailAsync`: the first user with exactly this email, or null. */
  function GetUserByEmail(st: State, email: string): (r: Option<User>)
    ensures r.Some? ==> r.value in st.users && r.value.email == email
    ensures r.None? <==> forall u :: u in st.users ==> u.email != email
  {
    FindFirst(st.users, (u: User) => u.email == email)
  }

  /** `GetUserByIdAsync`: the first user with exactly this id, or null. */
  function GetUserById(st: State, userId: string): (r: Option<User>)
    ensures r.Some? ==> r.value in st.users && r.value.id == userId
    ensures r.None? <==> forall u :: u in st.users ==> u.id != userId
  {
    FindFirst(st.users, (u: User) => u.id == userId)
  }

  /** In a well-formed store the lookups find THE user with that key. */
  lemma LookupsExact(st: State, u: User)
    requires WellFormed(st) && u in st.users
    ensures GetUserByEmail(st, u.email) == Some(u)
    ensures GetUserById(st, u.id) == Some(u)
  {
    EmailDeterminesUser(st, u, GetUserByEmail(st, u.email).value);
    IdDeterminesUser(st, u, GetUserById(st, u.id).value);
  }

  /** The listing key: `OrderBy(FirstName).ThenBy(LastName)`. */
  function UserSortKey(u: User): seq<string>
  {
    [u.firstName, u.lastName]
  }

  function ListedUsers(rows: seq<ListedUser>): (us: seq<User>)
    ensures |us| == |rows|
    ensures forall i :: 0 <= i < |rows| ==> us[i] == rows[i].user
  {
    seq(|rows|, i requires 0 <= i < |rows| => rows[i].user)
  }

  /** `GetAllUsersAsync`: every user once, ordered by first then last name, each
      flagged with its Admin membership. */
  function GetAllUsers(st: State): (rows: seq<ListedUser>)
    ensures |rows| == |st.users|
    ensures multiset(ListedUsers(rows)) == multiset(st.users)
    ensures Ordering.SortedByKey(ListedUsers(rows), UserSortKey)
    ensures forall i :: 0 <= i < |rows| ==> rows[i].isAdmin == IsInRole(st, rows[i].user, AdminRole)
  {
    var sorted := Ordering.SortByKey(st.users, UserSortKey);
    assert |sorted| == |multiset(sorted)| == |st.users|;
    var rows := seq(|sorted|, i requires 0 <= i < |sorted| => ListedUser(sorted[i], IsInRole(st, sorted[i], AdminRole)));
    assert ListedUsers(rows) == sorted;
    rows
  }

  /** `after` differs from `before` at most in lowered failure counters:
      no lockout is set or lifted and no failure is counted. */
  ghost predicate NoLockoutEffect(before: State, after: State)
  {
    && after.roles == before.roles
    && after.userRoles == before.userRoles
    && |after.users| == |before.users|
    && forall i :: 0 <= i < |before.users| ==>
         && after.users[i] == before.users[i].(accessFailedCount := after.users[i].accessFailedCount)
         && after.users[i].accessFailedCount <= before.users[i].accessFailedCount
  }

  /** `LoginAsync`: `PasswordSignInAsync` by user name with `lockoutOnFailure`
      false; on success a session cookie is issued. */
  function Login(st: State, userName: string, password: string, rememberMe: bool): (r: Attempt)
    ensures r.result == SignInSucceeded <==>
      exists u :: u in st.users && FindByName(st, userName) == Some(u) && CanSignIn(u) && !u.lockedOut && PasswordOk(u, password)
    ensures r.result != SignInSucceeded ==> r.state == st && r.session.None?
    ensures r.result == SignInSucceeded ==> r.session.Some?
    ensures r.session.Some? ==>
      && r.result == SignInSucceeded
      && r.session.value.persistent == rememberMe
      && FindByName(st, userName).Some?
      && r.session.value.userId == FindByName(st, userName).value.id
  {
    match FindByName(st, userName)
    case None => Attempt(st, SignInFailed, None)
    case Some(u) =>
      var c := CheckPasswordSignIn(u, password, false);
      if c.result == SignInSucceeded then Attempt(ReplaceUser(st, c.user), c.result, Some(Session(u.id, rememberMe)))
      else Attempt(st, c.result, None)
  }

  /** `ValidatePasswordAsync`: `CheckPasswordSignInAsync` on a looked-up user
      with `lockoutOnFailure` false (used by the API token endpoint). */
  function ValidatePassword(st: State, u: User, password: string): (r: Attempt)
    ensures r.result == SignInSucceeded <==> CanSignIn(u) && !u.lockedOut && PasswordOk(u, password)
    ensures r.result != SignInSucceeded ==> r.state == st
    ensures r.session.None?
  {
    var c := CheckPasswordSignIn(u, password, false);
    if c.result == SignInSucceeded then Attempt(ReplaceUser(st, c.user), c.result, None)
    else Attempt(st, c.result, None)
  }

  /** Writing back a user record whose only change is a lowered failure
      counter has no lockout effect. */
  lemma ResetCounterNoLockoutEffect(st: State, u: User, n: nat)
    requires WellFormed(st) && u in st.users && n <= u.accessFailedCount
    ensures NoLockoutEffect(st, ReplaceUser(st, u.(accessFailedCount := n)))
  {
    var r := ReplaceUser(st, u.(accessFailedCount := n));
    forall i | 0 <= i < |st.users|
      ensures r.users[i] == st.users[i].(accessFailedCount := r.users[i].accessFailedCount)
      ensures r.users[i].accessFailedCount <= st.users[i].accessFailedCount
    {
      if st.users[i].id == u.id {
        IdDeterminesUser(st, st.users[i], u);
      }
    }
  }

  /** Interactive login neither locks nor unlocks an account nor counts a failure. */
  lemma LoginNoLockoutEffect(st: State, userName: string, password: string, rememberMe: bool)
    requires WellFormed(st)
    ensures NoLockoutEffect(st, Login(st, userName, password, rememberMe).state)
  {
    var r := Login(st, userName, password, rememberMe);
    var found := FindByName(st, userName);
    if found.Some? && r.result == SignInSucceeded {
      ResetCounterNoLockoutEffect(st, found.value, 0);
    }
  }

  /** API password validation neither locks nor unlocks an account nor counts a failure. */
  lemma ValidatePasswordNoLockoutEffect(st: State, u: User, password: string)
    requires WellFormed(st) && u in st.users
    ensures NoLockoutEffect(st, ValidatePassword(st, u, password).state)
  {
    if ValidatePassword(st, u, password).result == SignInSucceeded {
      ResetCounterNoLockoutEffect(st, u, 0);
    }
  }
}
