/** The part of ASP.NET Core Identity the source relies on, reduced to
    deterministic functions over an immutable store: the options configured
    in `Startup.ConfigureServices`, password and user validation, purpose
    tokens bound to the security stamp, the password sign-in check, and the
    user, role and membership stores. Hashing, data protection and clocks are
    replaced by the simplest stand-ins that keep their contracts. */
module Identity {
  import opened Wrappers
  import opened Entities
  import opened Seqs

  // Options set in `Startup.ConfigureServices`.
  const RequireConfirmedEmail: bool := true
  const RequireUniqueEmail: bool := true
  const RequireDigit: bool := false
  const RequiredUniqueChars: nat := 0
  const RequireLowercase: bool := false
  const RequireNonAlphanumeric: bool := false
  const RequireUppercase: bool := false
  const RequiredLength: nat := 6

  // Library defaults the source leaves unchanged.
  const MaxFailedAccessAttempts: nat := 5

  datatype IdentityError =
    | PasswordTooShort(length: nat)
    | PasswordRequiresNonAlphanumeric
    | PasswordRequiresDigit
    | PasswordRequiresLower
    | PasswordRequiresUpper
    | PasswordRequiresUniqueChars(count: nat)
    | InvalidUserName(userName: string)
    | DuplicateUserName(userName: string)
    | InvalidEmail(email: string)
    | DuplicateEmail(email: string)
    | PasswordMismatch
    | InvalidToken
    | UserAlreadyInRole(role: string)
    | UserNotInRole(role: string)
    | InvalidRoleName(role: string)
    | DuplicateRoleName(role: string)

  /** `IdentityResult`: `Succeeded` is the shared `IdentityResult.Success` instance. */
  datatype IdentityResult = Succeeded | Failed(errors: seq<IdentityError>)

  datatype SignInResult = SignInSucceeded | SignInFailed | NotAllowed | LockedOut

  /** An exception a call throws instead of returning. */
  datatype Exception = InvalidOperation(message: string) | NullReference | ArgumentNull | ArgumentException | ArgumentOutOfRange

  /** The users, the role names, and the (user id, role name) memberships. */
  datatype State = State(users: seq<User>, roles: set<string>, userRoles: set<(string, string)>)

  /** The state after a call together with the call's `IdentityResult`. */
  datatype Update = Update(state: State, result: IdentityResult)

  /** The user record after a sign-in check together with its result. */
  datatype SignIn = SignIn(user: User, result: SignInResult)

  /** The default description of an error, as shown by the controller. */
  function Describe(e: IdentityError): string
  {
    match e
    case PasswordTooShort(n) => "Passwords must be at least " + Text.NatToString(n) + " characters."
    case PasswordRequiresNonAlphanumeric => "Passwords must have at least one non alphanumeric character."
    case PasswordRequiresDigit => "Passwords must have at least one digit ('0'-'9')."
    case PasswordRequiresLower => "Passwords must have at least one lowercase ('a'-'z')."
    case PasswordRequiresUpper => "Passwords must have at least one uppercase ('A'-'Z')."
    case PasswordRequiresUniqueChars(n) => "Passwords must use at least " + Text.NatToString(n) + " different characters."
    case InvalidUserName(n) => "User name '" + n + "' is invalid, can only contain letters or digits."
    case DuplicateUserName(n) => "User name '" + n + "' is already taken."
    case InvalidEmail(m) => "Email '" + m + "' is invalid."
    case DuplicateEmail(m) => "Email '" + m + "' is already taken."
    case PasswordMismatch => "Incorrect password."
    case InvalidToken => "Invalid token."
    case UserAlreadyInRole(r) => "User already in role '" + r + "'."
    case UserNotInRole(r) => "User is not in role '" + r + "'."
    case InvalidRoleName(r) => "Role name '" + r + "' is invalid."
    case DuplicateRoleName(r) => "Role name '" + r + "' is already taken."
  }

  // ---------------------------------------------------------------- lookups

  /** `FindByNameAsync`, as used by the password sign-in. */
  function FindByName(st: State, userName: string): (r: Option<User>)
    ensures r.Some? ==> r.value in st.users && r.value.userName == userName
    ensures r.None? <==> forall u :: u in st.users ==> u.userName != userName
  {
    FindFirst(st.users, (u: User) => u.userName == userName)
  }

  function UserIds(users: seq<User>): set<string>
  {
    set u | u in users :: u.id
  }

  /** Every id, email and user name occurs once, ids are non-empty, and every
      membership names an existing user and an existing role. */
  ghost predicate WellFormed(st: State)
  {
    && (forall i, j :: 0 <= i < j < |st.users| ==>
          st.users[i].id != st.users[j].id
          && st.users[i].email != st.users[j].email
          && st.users[i].userName != st.users[j].userName)
    && (forall u :: u in st.users ==> u.id != "")
    && (forall m :: m in st.userRoles ==> m.0 in UserIds(st.users) && m.1 in st.roles)
  }

  /** In a well-formed store a user is determined by its id. */
  lemma IdDeterminesUser(st: State, u: User, v: User)
    requires WellFormed(st)
    requires u in st.users && v in st.users && u.id == v.id
    ensures u == v
  {
    var i :| 0 <= i < |st.users| && st.users[i] == u;
    var j :| 0 <= j < |st.users| && st.users[j] == v;
    if i != j {
      assert false;
    }
  }

  /** In a well-formed store a user is determined by its email. */
  lemma EmailDeterminesUser(st: State, u: User, v: User)
    requires WellFormed(st)
    requires u in st.users && v in st.users && u.email == v.email
    ensures u == v
  {
    var i :| 0 <= i < |st.users| && st.users[i] == u;
    var j :| 0 <= j < |st.users| && st.users[j] == v;
    if i != j {
      assert false;
    }
  }

  /** In a well-formed store a user is determined by its user name. */
  lemma UserNameDeterminesUser(st: State, u: User, v: User)
    requires WellFormed(st)
    requires u in st.users && v in st.users && u.userName == v.userName
    ensures u == v
  {
    var i :| 0 <= i < |st.users| && st.users[i] == u;
    var j :| 0 <= j < |st.users| && st.users[j] == v;
    if i != j {
      assert false;
    }
  }

  /** Stand-in for the `Guid` a new `IdentityUser` draws: longer than every id in use. */
  function FreshId(users: seq<User>): (r: string)
    ensures r != ""
    ensures forall u :: u in users ==> u.id != r
  {
    var n := MaxIdLength(users) + 1;
    seq(n, _ => 'x')
  }

  function MaxIdLength(users: seq<User>): (n: nat)
    ensures forall u :: u in users ==> |u.id| <= n
  {
    if |users| == 0 then 0
    else
      var rest := MaxIdLength(users[1..]);
      assert forall u :: u in users ==> u == users[0] || u in users[1..];
      if |users[0].id| > rest then |users[0].id| else rest
  }

  /** A new security stamp: the model only needs it to differ from the old one. */
  function NewStamp(stamp: string): (r: string)
    ensures r != stamp
  {
    stamp + "'"
  }

  // ------------------------------------------------------------- validation

  predicate IsAsciiDigit(c: char) { '0' <= c <= '9' }
  predicate IsAsciiLower(c: char) { 'a' <= c <= 'z' }
  predicate IsAsciiUpper(c: char) { 'A' <= c <= 'Z' }
  predicate AllAlphanumeric(s: string) { forall i :: 0 <= i < |s| ==> IsAsciiDigit(s[i]) || IsAsciiLower(s[i]) || IsAsciiUpper(s[i]) }
  /** The library's default allowed user-name characters: ASCII letters, digits and `-._@+`. */
  predicate IsUserNameChar(c: char)
  {
    IsAsciiLower(c) || IsAsciiUpper(c) || IsAsciiDigit(c) || c == '-' || c == '.' || c == '_' || c == '@' || c == '+'
  }
  predicate HasDigit(s: string) { exists i :: 0 <= i < |s| && IsAsciiDigit(s[i]) }
  predicate HasLower(s: string) { exists i :: 0 <= i < |s| && IsAsciiLower(s[i]) }
  predicate HasUpper(s: string) { exists i :: 0 <= i < |s| && IsAsciiUpper(s[i]) }
  function DistinctChars(s: string): nat { |set i | 0 <= i < |s| :: s[i]| }

  /** `PasswordValidator` under the configured options; the length is
      `string.Length`, in UTF-16 code units. */
  function PasswordErrors(pw: string): (errs: seq<IdentityError>)
    ensures errs == [] <==> !IsBlank(pw) && Text.Utf16Length(pw) >= RequiredLength
  {
    (if IsBlank(pw) || Text.Utf16Length(pw) < RequiredLength then [PasswordTooShort(RequiredLength)] else [])
    + (if RequireNonAlphanumeric && AllAlphanumeric(pw) then [PasswordRequiresNonAlphanumeric] else [])
    + (if RequireDigit && !HasDigit(pw) then [PasswordRequiresDigit] else [])
    + (if RequireLowercase && !HasLower(pw) then [PasswordRequiresLower] else [])
    + (if RequireUppercase && !HasUpper(pw) then [PasswordRequiresUpper] else [])
    + (if RequiredUniqueChars >= 1 && DistinctChars(pw) < RequiredUniqueChars
       then [PasswordRequiresUniqueChars(RequiredUniqueChars)] else [])
  }

  /** Three characters outside the Basic Multilingual Plane are six code units,
      long enough; six ideographic spaces are blank. */
  lemma PasswordLengthCountsUnits()
    ensures PasswordErrors("\U{1F511}\U{1F511}\U{1F511}") == []
    ensures PasswordErrors("\U{3000}\U{3000}\U{3000}\U{3000}\U{3000}\U{3000}") == [PasswordTooShort(RequiredLength)]
  {
    Text.Utf16LengthAstral("\U{1F511}\U{1F511}\U{1F511}");
  }

  /** `EmailAddressAttribute`: exactly one '@', neither first nor last. */
  predicate IsEmailAddress(s: string)
  {
    exists k :: 0 < k < |s| - 1 && s[k] == '@' && forall i :: 0 <= i < |s| && i != k ==> s[i] != '@'
  }

  /** `UserValidator`: the user name, then (unique emails being required) the email.
      `u` is checked against every OTHER user of the store. */
  function UserErrors(st: State, u: User): (errs: seq<IdentityError>)
    ensures errs == [] <==>
      && !IsBlank(u.userName)
      && (forall i :: 0 <= i < |u.userName| ==> IsUserNameChar(u.userName[i]))
      && (forall v :: v in st.users && v.id != u.id ==> v.userName != u.userName)
      && !IsBlank(u.email)
      && IsEmailAddress(u.email)
      && (forall v :: v in st.users && v.id != u.id ==> v.email != u.email)
  {
    var nameErrors :=
      if IsBlank(u.userName) then [InvalidUserName(u.userName)]
      else if exists i :: 0 <= i < |u.userName| && !IsUserNameChar(u.userName[i]) then [InvalidUserName(u.userName)]
      else if FindFirst(st.users, (v: User) => v.userName == u.userName && v.id != u.id).Some? then [DuplicateUserName(u.userName)]
      else [];
    var emailErrors :=
      if !RequireUniqueEmail then []
      else if IsBlank(u.email) then [InvalidEmail(u.email)]
      else if !IsEmailAddress(u.email) then [InvalidEmail(u.email)]
      else if FindFirst(st.users, (v: User) => v.email == u.email && v.id != u.id).Some? then [DuplicateEmail(u.email)]
      else [];
    nameErrors + emailErrors
  }

  // ------------------------------------------------------------------ tokens

  datatype TokenPurpose = EmailConfirmation | PasswordReset

  /** The purpose strings of `UserManager`. */
  function PurposeName(p: TokenPurpose): string
  {
    match p
    case EmailConfirmation => "EmailConfirmation"
    case PasswordReset => "ResetPassword"
  }

  /** A purpose token, derived from the purpose, the security stamp and the user id. */
  function GenerateToken(u: User, p: TokenPurpose): (t: string)
    ensures t != ""
  {
    PurposeName(p) + ":" + u.securityStamp + ":" + u.id
  }

  /** A token verifies for exactly the token the user's current state would mint. */
  predicate VerifyToken(u: User, p: TokenPurpose, token: string)
  {
    token == GenerateToken(u, p)
  }

  /** A token verifies for one purpose only. */
  lemma TokenBoundToPurpose(u: User, v: User, p: TokenPurpose, q: TokenPurpose, token: string)
    requires VerifyToken(u, p, token) && VerifyToken(v, q, token)
    ensures p == q
  {
    assert token[0] == PurposeName(p)[0];
    assert token[0] == PurposeName(q)[0];
  }

  /** Renewing the security stamp revokes every token minted before. */
  lemma NewStampRevokesTokens(u: User, p: TokenPurpose, q: TokenPurpose)
    ensures !VerifyToken(u.(securityStamp := NewStamp(u.securityStamp)), q, GenerateToken(u, p))
  {
    var t := GenerateToken(u, p);
    var t' := GenerateToken(u.(securityStamp := NewStamp(u.securityStamp)), q);
    if p == q {
      assert |t'| == |t| + 1;
    } else {
      assert t'[0] != t[0];
    }
  }

  // ---------------------------------------------------------------- sign-in

  /** The stored hash matches the password (hashing is abstracted away). */
  predicate PasswordOk(u: User, pw: string)
  {
    u.passwordHash == pw
  }

  /** `CanSignInAsync`: a confirmed email is required by the options. */
  predicate CanSignIn(u: User)
  {
    !RequireConfirmedEmail || u.emailConfirmed
  }

  /** `CheckPasswordSignInAsync`: the pre-sign-in check (confirmed email, lockout),
      then the password; success resets the failure counter, a failure counts
      (and may lock the account) only when `lockoutOnFailure` is set. */
  function CheckPasswordSignIn(u: User, pw: string, lockoutOnFailure: bool): (r: SignIn)
    ensures r.result == SignInSucceeded <==> CanSignIn(u) && !u.lockedOut && PasswordOk(u, pw)
    ensures r.result == NotAllowed <==> !CanSignIn(u)
    ensures r.user == u.(accessFailedCount := r.user.accessFailedCount, lockedOut := r.user.lockedOut)
    ensures r.result == SignInSucceeded ==> r.user.accessFailedCount == 0 && r.user.lockedOut == u.lockedOut
    ensures !lockoutOnFailure && r.result != SignInSucceeded ==> r.user == u
  {
    if !CanSignIn(u) then SignIn(u, NotAllowed)
    else if u.lockedOut then SignIn(u, LockedOut)
    else if PasswordOk(u, pw) then SignIn(u.(accessFailedCount := 0), SignInSucceeded)
    else if !lockoutOnFailure then SignIn(u, SignInFailed)
    else if u.accessFailedCount + 1 < MaxFailedAccessAttempts then
      SignIn(u.(accessFailedCount := u.accessFailedCount + 1), SignInFailed)
    else
      SignIn(u.(accessFailedCount := 0, lockedOut := true), LockedOut)
  }

  // ------------------------------------------------------------------ stores

  /** `UpdateAsync`: the stored record with `u`'s id becomes `u`. */
  function ReplaceUser(st: State, u: User): (r: State)
    ensures r.roles == st.roles && r.userRoles == st.userRoles
    ensures |r.users| == |st.users|
    ensures forall i :: 0 <= i < |st.users| ==>
      r.users[i] == (if st.users[i].id == u.id then u else st.users[i])
  {
    st.(users := seq(|st.users|, i requires 0 <= i < |st.users| =>
      if st.users[i].id == u.id then u else st.users[i]))
  }

  /** The record `CreateAsync` stores for `u`: the password's hash and a new security stamp. */
  function AsCreated(u: User, password: string): User
  {
    u.(passwordHash := password, securityStamp := NewStamp(u.securityStamp))
  }

  /** `CreateAsync(user, password)`: the password is validated first, then the
      user; on success the user is stored with the password's hash and a new
      security stamp. */
  function CreateUser(st: State, u: User, password: string): (r: Update)
    ensures r.result.Succeeded? <==> PasswordErrors(password) == [] && UserErrors(st, u) == []
    ensures r.result.Succeeded? ==>
      r.state == st.(users := st.users + [AsCreated(u, password)])
    ensures r.result.Failed? ==> r.state == st && r.result.errors != []
  {
    var pwErrors := PasswordErrors(password);
    if pwErrors != [] then Update(st, Failed(pwErrors))
    else
      var userErrors := UserErrors(st, u);
      if userErrors != [] then Update(st, Failed(userErrors))
      else Update(st.(users := st.users + [AsCreated(u, password)]), Succeeded)
  }

  /** `IsInRoleAsync`: false for a role that does not exist. */
  predicate IsInRole(st: State, u: User, role: string)
  {
    role in st.roles && (u.id, role) in st.userRoles
  }

  /** `UpperInvariantLookupNormalizer`: the key the stores look names up by,
      `ToUpperInvariant` on ASCII letters. */
  function NormalizeKey(s: string): (r: string)
    ensures |r| == |s|
    ensures forall i :: 0 <= i < |s| ==> (IsAsciiUpper(r[i]) <==> IsAsciiUpper(s[i]) || IsAsciiLower(s[i]))
  {
    seq(|s|, i requires 0 <= i < |s| => if IsAsciiLower(s[i]) then (s[i] as int - 32) as char else s[i])
  }

  /** `AddToRoleAsync`: an existing membership is reported; a missing role makes
      the store throw, naming the role by its normalized key. */
  function AddToRole(st: State, u: User, role: string): (r: Result<Update, Exception>)
    ensures r.Failure? <==> !IsInRole(st, u, role) && role !in st.roles
    ensures r.Failure? ==> r.error == InvalidOperation("Role " + NormalizeKey(role) + " does not exist.")
    ensures r.Success? && IsInRole(st, u, role) ==> r.value == Update(st, Failed([UserAlreadyInRole(role)]))
    ensures r.Success? && !IsInRole(st, u, role) ==>
      r.value == Update(st.(userRoles := st.userRoles + {(u.id, role)}), Succeeded)
  {
    if IsInRole(st, u, role) then Success(Update(st, Failed([UserAlreadyInRole(role)])))
    else if role !in st.roles then Failure(InvalidOperation("Role " + NormalizeKey(role) + " does not exist."))
    else Success(Update(st.(userRoles := st.userRoles + {(u.id, role)}), Succeeded))
  }

  /** `RemoveFromRoleAsync`: a missing membership is reported, not thrown. */
  function RemoveFromRole(st: State, u: User, role: string): (r: Update)
    ensures !IsInRole(st, u, role) ==> r == Update(st, Failed([UserNotInRole(role)]))
    ensures IsInRole(st, u, role) ==> r == Update(st.(userRoles := st.userRoles - {(u.id, role)}), Succeeded)
  {
    if !IsInRole(st, u, role) then Update(st, Failed([UserNotInRole(role)]))
    else Update(st.(userRoles := st.userRoles - {(u.id, role)}), Succeeded)
  }

  /** `DeleteAsync`: removes the user with `u`'s id and its memberships. */
  function DeleteUser(st: State, u: User): (r: State)
    ensures r.roles == st.roles
    ensures forall v :: v in r.users <==> v in st.users && v.id != u.id
    ensures forall m :: m in r.userRoles <==> m in st.userRoles && m.0 != u.id
  {
    State(Filter(st.users, u.id), st.roles, set m | m in st.userRoles && m.0 != u.id)
  }

  /** The users whose id is not `id`, in order. */
  function Filter(users: seq<User>, id: string): (r: seq<User>)
    ensures forall v :: v in r <==> v in users && v.id != id
    ensures |r| <= |users|
  {
    if |users| == 0 then []
    else if users[0].id == id then Filter(users[1..], id)
    else [users[0]] + Filter(users[1..], id)
  }

  /** `ConfirmEmailAsync`: a valid confirmation token sets `EmailConfirmed`. */
  function ConfirmEmail(st: State, u: User, token: string): (r: Update)
    ensures r.result.Succeeded? <==> VerifyToken(u, EmailConfirmation, token)
    ensures r.result.Succeeded? ==> r.state == ReplaceUser(st, u.(emailConfirmed := true))
    ensures r.result.Failed? ==> r == Update(st, Failed([InvalidToken]))
  {
    if VerifyToken(u, EmailConfirmation, token) then Update(ReplaceUser(st, u.(emailConfirmed := true)), Succeeded)
    else Update(st, Failed([InvalidToken]))
  }

  /** Sets a validated new password and renews the security stamp. */
  function SetPassword(st: State, u: User, newPassword: string): (r: Update)
    ensures r.result.Succeeded? <==> PasswordErrors(newPassword) == []
    ensures r.result.Succeeded? ==>
      r.state == ReplaceUser(st, u.(passwordHash := newPassword, securityStamp := NewStamp(u.securityStamp)))
    ensures r.result.Failed? ==> r.state == st && r.result.errors != []
  {
    var errs := PasswordErrors(newPassword);
    if errs != [] then Update(st, Failed(errs))
    else Update(ReplaceUser(st, u.(passwordHash := newPassword, securityStamp := NewStamp(u.securityStamp))), Succeeded)
  }

  /** `ResetPasswordAsync`: the reset token is checked before the new password. */
  function ResetPassword(st: State, u: User, token: string, newPassword: string): (r: Update)
    ensures !VerifyToken(u, PasswordReset, token) ==> r == Update(st, Failed([InvalidToken]))
    ensures VerifyToken(u, PasswordReset, token) ==> r == SetPassword(st, u, newPassword)
  {
    if !VerifyToken(u, PasswordReset, token) then Update(st, Failed([InvalidToken]))
    else SetPassword(st, u, newPassword)
  }

  /** `ChangePasswordAsync`: the old password is checked before the new one. */
  function ChangePassword(st: State, u: User, oldPassword: string, newPassword: string): (r: Update)
    ensures !PasswordOk(u, oldPassword) ==> r == Update(st, Failed([PasswordMismatch]))
    ensures PasswordOk(u, oldPassword) ==> r == SetPassword(st, u, newPassword)
  {
    if !PasswordOk(u, oldPassword) then Update(st, Failed([PasswordMismatch]))
    else SetPassword(st, u, newPassword)
  }

  /** `RoleManager.CreateAsync`: `RoleValidator` refuses a blank role name as
      invalid and a taken one as a duplicate. */
  function CreateRole(st: State, name: string): (r: Update)
    ensures r.result.Succeeded? <==> !IsBlank(name) && name !in st.roles
    ensures r.result.Succeeded? ==> r.state == st.(roles := st.roles + {name})
    ensures r.result.Failed? ==> r.state == st
    ensures IsBlank(name) ==> r.result == Failed([InvalidRoleName(name)])
    ensures !IsBlank(name) && name in st.roles ==> r.result == Failed([DuplicateRoleName(name)])
  {
    if IsBlank(name) then Update(st, Failed([InvalidRoleName(name)]))
    else if name in st.roles then Update(st, Failed([DuplicateRoleName(name)]))
    else Update(st.(roles := st.roles + {name}), Succeeded)
  }

  // ------------------------------------------------- preservation of WellFormed

  lemma CreateUserPreservesWellFormed(st: State, u: User, password: string)
    requires WellFormed(st)
    requires u.id != "" && u.id !in UserIds(st.users)
    ensures WellFormed(CreateUser(st, u, password).state)
  {
    if CreateUser(st, u, password).result.Succeeded? {
      var v := AsCreated(u, password);
      forall w | w in st.users ensures w.email != v.email && w.userName != v.userName {
        assert w.id != u.id;
      }
      AppendUserPreservesWellFormed(st, v);
    }
  }

  /** Appending a record whose id, email and user name are all new keeps the store well formed. */
  lemma AppendUserPreservesWellFormed(st: State, v: User)
    requires WellFormed(st)
    requires v.id != "" && v.id !in UserIds(st.users)
    requires forall w :: w in st.users ==> w.email != v.email && w.userName != v.userName
    ensures WellFormed(st.(users := st.users + [v]))
  {
    var users := st.users + [v];
    var n := |st.users|;
    forall i, j | 0 <= i < j < |users|
      ensures users[i].id != users[j].id && users[i].email != users[j].email
              && users[i].userName != users[j].userName
    {
      if j == n {
        assert users[i] in st.users;
      }
    }
    assert UserIds(st.users) <= UserIds(users) by {
      forall w | w in st.users ensures w.id in UserIds(users) {
        assert w in users;
      }
    }
  }

  /** Replacing a record by one with the same id, email and user name keeps the store well formed. */
  lemma ReplaceUserPreservesWellFormed(st: State, u: User)
    requires WellFormed(st)
    requires forall v :: v in st.users && v.id == u.id ==> v.email == u.email && v.userName == u.userName
    ensures WellFormed(ReplaceUser(st, u))
  {
    var r := ReplaceUser(st, u);
    forall i, j | 0 <= i < j < |r.users|
      ensures r.users[i].id != r.users[j].id && r.users[i].email != r.users[j].email
              && r.users[i].userName != r.users[j].userName
    {
      assert st.users[i].id != st.users[j].id;
    }
    forall v | v in r.users ensures v.id != "" {
      var i :| 0 <= i < |r.users| && r.users[i] == v;
      assert st.users[i] in st.users;
    }
    assert UserIds(st.users) <= UserIds(r.users) by {
      forall v | v in st.users ensures v.id in UserIds(r.users) {
        var i :| 0 <= i < |st.users| && st.users[i] == v;
        assert r.users[i].id == v.id;
        assert r.users[i] in r.users;
      }
    }
  }

  /** Replacing a record by one with the same id stores it. */
  lemma ReplaceUserStores(st: State, w: User, u: User)
    requires w in st.users && w.id == u.id
    ensures u in ReplaceUser(st, u).users
  {
    var i :| 0 <= i < |st.users| && st.users[i] == w;
    assert ReplaceUser(st, u).users[i] == u;
  }

  /** Writing back a record already stored changes nothing. */
  lemma ReplaceUserByStored(st: State, u: User)
    requires WellFormed(st) && u in st.users
    ensures ReplaceUser(st, u) == st
  {
    forall i | 0 <= i < |st.users| && st.users[i].id == u.id
      ensures st.users[i] == u
    {
      IdDeterminesUser(st, st.users[i], u);
    }
    assert ReplaceUser(st, u).users == st.users;
  }

  lemma AddToRolePreservesWellFormed(st: State, u: User, role: string)
    requires WellFormed(st)
    requires u.id in UserIds(st.users)
    requires AddToRole(st, u, role).Success?
    ensures WellFormed(AddToRole(st, u, role).value.state)
  {
  }

  lemma RemoveFromRolePreservesWellFormed(st: State, u: User, role: string)
    requires WellFormed(st)
    ensures WellFormed(RemoveFromRole(st, u, role).state)
  {
  }

  lemma DeleteUserPreservesWellFormed(st: State, u: User)
    requires WellFormed(st)
    ensures WellFormed(DeleteUser(st, u))
  {
    var r := DeleteUser(st, u);
    FilterKeepsDistinctKeys(st.users, u.id);
    forall m | m in r.userRoles ensures m.0 in UserIds(r.users) {
      var v :| v in st.users && v.id == m.0;
      assert v in r.users;
    }
  }

  /** Ids, emails and user names are pairwise distinct. */
  ghost predicate DistinctKeys(users: seq<User>)
  {
    forall i, j :: 0 <= i < j < |users| ==>
      users[i].id != users[j].id && users[i].email != users[j].email && users[i].userName != users[j].userName
  }

  lemma {:induction false} FilterKeepsDistinctKeys(users: seq<User>, id: string)
    requires DistinctKeys(users)
    ensures DistinctKeys(Filter(users, id))
  {
    if |users| > 0 {
      var tail := users[1..];
      DistinctKeysTail(users);
      FilterKeepsDistinctKeys(tail, id);
      if users[0].id != id {
        DistinctKeysCons(users, Filter(tail, id));
      }
    }
  }

  lemma DistinctKeysTail(users: seq<User>)
    requires |users| > 0 && DistinctKeys(users)
    ensures DistinctKeys(users[1..])
  {
    var tail := users[1..];
    forall i, j | 0 <= i < j < |tail|
      ensures tail[i].id != tail[j].id && tail[i].email != tail[j].email && tail[i].userName != tail[j].userName
    {
      assert tail[i] == users[i + 1] && tail[j] == users[j + 1];
    }
  }

  /** The head of a list with distinct keys differs in every key from any
      distinct-keyed selection of its tail. */
  lemma DistinctKeysCons(users: seq<User>, rest: seq<User>)
    requires |users| > 0 && DistinctKeys(users) && DistinctKeys(rest)
    requires forall v :: v in rest ==> v in users[1..]
    ensures DistinctKeys([users[0]] + rest)
  {
    var tail := users[1..];
    var r := [users[0]] + rest;
    forall i, j | 0 <= i < j < |r|
      ensures r[i].id != r[j].id && r[i].email != r[j].email && r[i].userName != r[j].userName
    {
      if i == 0 {
        assert r[j] == rest[j - 1];
        assert rest[j - 1] in tail;
        var k :| 0 <= k < |tail| && tail[k] == rest[j - 1];
        assert users[k + 1] == r[j];
      } else {
        assert r[i] == rest[i - 1] && r[j] == rest[j - 1];
      }
    }
  }

  lemma CreateRolePreservesWellFormed(st: State, name: string)
    requires WellFormed(st)
    ensures WellFormed(CreateRole(st, name).state)
  {
  }
}
