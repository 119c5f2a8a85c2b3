/** `AccountController`: the account actions as transitions of the application
    state. Each action takes the request's inputs — the form, whether model
    binding found it valid, the signed-in principal, and for the API token
    the jti and the current time — and returns the new state with the HTTP
    outcome. Mail is an append-only outbox. */
module AccountController {
  import opened Wrappers
  import opened Entities
  import opened Identity
  import UserHelper
  import CountryRepository
  import Time
  import Text
  import Ordering

  // ------------------------------------------------------------- constants

  const HomePath: string := "/Home/Index"
  const IndexPath: string := "/Account/Index"
  const ChangeUserPath: string := "/Account/ChangeUser"
  /** The cookie's login and access-denied path. */
  const NotAuthorizedPath: string := "/Account/NotAuthorized"

  const ConfirmEmailSubject: string := "Auth-Web-App Email confirmation"
  const ResetPasswordSubject: string := "Auth-Web-App Password Reset"

  const FailedToLogin: string := "Failed to login."
  const AlreadyRegistered: string := "The username is already registered."
  const CouldNotCreate: string := "The user couldn't be created."
  const ConfirmationSent: string := "The instructions to allow your user has been sent to email."
  const UserNoFound: string := "User no found."
  const EmailNotRegistered: string := "The email doesn't correspont to a registered user."
  const RecoverySent: string := "The instructions to recover your password has been sent to email."
  const ResetDone: string := "Password reset successful."
  const ResetFailed: string := "Error while resetting the password."
  const UserNotFound: string := "User not found."

  // ------------------------------------------------------------------ state

  /** The link a mail carries: the action it points to and its query. */
  datatype Link = ConfirmEmailLink(userId: string, token: string) | ResetPasswordLink(token: string)

  datatype Mail = Mail(to: string, subject: string, link: Link)

  /** The identity store, the countries, and every mail sent so far. */
  datatype App = App(identity: State, countries: seq<Country>, outbox: seq<Mail>)

  /** The signed-in user as the cookie describes it: its name and role claims. */
  datatype Principal = Principal(name: string, roles: set<string>)

  /** The `Tokens` section of the configuration. */
  datatype TokenConfig = TokenConfig(issuer: string, audience: string, key: string)

  /** The claims and lifetime of an issued JWT. */
  datatype BearerToken = BearerToken(subject: string, jti: string, issuer: string, audience: string, expires: Time.Instant)

  datatype Outcome =
    | Page(message: Option<string>, errors: seq<string>)    // a view with `ViewBag.Message` and model errors
    | SignedIn(target: string, session: UserHelper.Session)
    | Redirect(target: string)
    | Listing(rows: seq<UserHelper.ListedUser>)
    | NotFound
    | BadRequest
    | Created(token: BearerToken)
    | Fault(error: Exception)                                // an unhandled exception: status 500

  datatype Response = Response(app: App, outcome: Outcome)

  datatype LoginForm = LoginForm(userName: string, password: string, rememberMe: bool)
  datatype RegisterForm = RegisterForm(
    userName: string, firstName: string, lastName: string, address: string,
    phoneNumber: string, password: string, cityId: int)
  datatype ChangePasswordForm = ChangePasswordForm(oldPassword: string, newPassword: string)
  datatype ResetPasswordForm = ResetPasswordForm(userName: string, token: string, password: string)

  /** `[Authorize(Roles = "Admin")]`: the principal carries the Admin role claim. */
  predicate IsAdmin(p: Option<Principal>)
  {
    p.Some? && AdminRole in p.value.roles
  }

  // ---------------------------------------------------------------- actions

  /** `Login` (POST): a password sign-in by user name; on success a redirect
      to the return URL when the query has one, else home. `Redirect` throws
      on an empty URL, after the sign-in has been recorded. */
  function Login(app: App, form: LoginForm, modelValid: bool, returnUrl: Option<string>): (r: Response)
    ensures var a := UserHelper.Login(app.identity, form.userName, form.password, form.rememberMe);
      && (r.outcome == Page(None, [FailedToLogin]) <==> !modelValid || a.result != SignInSucceeded)
      && (r.outcome == Page(None, [FailedToLogin]) ==> r.app == app)
      && (r.outcome.SignedIn? <==> modelValid && a.result == SignInSucceeded && returnUrl != Some(""))
      && (r.outcome.Fault? <==> modelValid && a.result == SignInSucceeded && returnUrl == Some(""))
      && (r.outcome.Fault? ==> r == Response(app.(identity := a.state), Fault(ArgumentException)))
    ensures r.outcome.SignedIn? ==>
      && r.outcome.target == (if returnUrl.Some? then returnUrl.value else HomePath)
      && r.outcome.target != ""
      && r.app.outbox == app.outbox && r.app.countries == app.countries
  {
    if !modelValid then Response(app, Page(None, [FailedToLogin]))
    else
      var a := UserHelper.Login(app.identity, form.userName, form.password, form.rememberMe);
      if a.result != SignInSucceeded then Response(app, Page(None, [FailedToLogin]))
      else
        var target := if returnUrl.Some? then returnUrl.value else HomePath;
        if target == "" then Response(app.(identity := a.state), Fault(ArgumentException))
        else Response(app.(identity := a.state), SignedIn(target, a.session.value))
  }

  /** The user `Register` builds from the form. */
  function NewAccount(st: State, form: RegisterForm, city: Option<City>): User
  {
    User(FreshId(st.users), form.userName, form.userName, form.firstName, form.lastName,
         form.address, form.phoneNumber, city, false, "", "", 0, false)
  }

  /** `Register` (POST): refuses a taken email; otherwise creates the user and,
      only once it exists, mails a confirmation link to the submitted address. */
  function Register(app: App, form: RegisterForm, modelValid: bool): (r: Response)
    ensures r.app.countries == app.countries
    ensures !modelValid ==> r == Response(app, Page(None, []))
    ensures modelValid && UserHelper.GetUserByEmail(app.identity, form.userName).Some? ==>
      r == Response(app, Page(None, [AlreadyRegistered]))
    ensures var u := NewAccount(app.identity, form, CountryRepository.GetCity(app.countries, form.cityId));
      r.outcome == Page(Some(ConfirmationSent), []) <==>
        && modelValid && UserHelper.GetUserByEmail(app.identity, form.userName).None?
        && PasswordErrors(form.password) == [] && UserErrors(app.identity, u) == []
    ensures (modelValid && UserHelper.GetUserByEmail(app.identity, form.userName).None?
             && r.outcome != Page(Some(ConfirmationSent), [])) ==>
      r == Response(app, Page(None, [CouldNotCreate]))
  {
    if !modelValid then Response(app, Page(None, []))
    else if UserHelper.GetUserByEmail(app.identity, form.userName).Some? then
      Response(app, Page(None, [AlreadyRegistered]))
    else
      var u := NewAccount(app.identity, form, CountryRepository.GetCity(app.countries, form.cityId));
      var created := CreateUser(app.identity, u, form.password);
      if created.result.Failed? then Response(app, Page(None, [CouldNotCreate]))
      else
        var stored := AsCreated(u, form.password);
        var token := GenerateToken(stored, EmailConfirmation);
        var mail := Mail(form.userName, ConfirmEmailSubject, ConfirmEmailLink(stored.id, token));
        Response(app.(identity := created.state, outbox := app.outbox + [mail]), Page(Some(ConfirmationSent), []))
  }

  /** `ConfirmEmail`: not found for an empty id or token, an unknown user or a
      token that does not verify; otherwise the email is confirmed. */
  function ConfirmEmail(app: App, userId: string, token: string): (r: Response)
    ensures r.outcome == NotFound || r.outcome == Page(None, [])
    ensures r.outcome == NotFound ==> r.app == app
    ensures r.app.outbox == app.outbox && r.app.countries == app.countries
  {
    if userId == "" || token == "" then Response(app, NotFound)
    else match UserHelper.GetUserById(app.identity, userId)
      case None => Response(app, NotFound)
      case Some(u) =>
        var c := Identity.ConfirmEmail(app.identity, u, token);
        if c.result.Failed? then Response(app, NotFound)
        else Response(app.(identity := c.state), Page(None, []))
  }

  /** The stored user whose email is the signed-in principal's name. */
  function Account(app: App, principal: Option<Principal>): Option<User>
  {
    if principal.None? then None else UserHelper.GetUserByEmail(app.identity, principal.value.name)
  }

  /** `ChangePassword` (POST, signed in): the signed-in user's password is
      changed when the old one matches and the new one is valid. */
  function ChangePassword(app: App, principal: Option<Principal>, form: ChangePasswordForm, modelValid: bool): (r: Response)
    ensures principal.None? ==> r == Response(app, Redirect(NotAuthorizedPath))
    ensures r.outcome != Redirect(ChangeUserPath) ==> r.app == app
    ensures r.app.outbox == app.outbox && r.app.countries == app.countries
    ensures var found := Account(app, principal);
      && (r.outcome == Redirect(ChangeUserPath) <==>
            && modelValid && found.Some?
            && PasswordOk(found.value, form.oldPassword) && PasswordErrors(form.newPassword) == [])
      && (r.outcome == Redirect(ChangeUserPath) ==>
            r.app.identity == SetPassword(app.identity, found.value, form.newPassword).state)
      && (principal.Some? && modelValid && found.None? ==> r.outcome == Page(None, [UserNoFound]))
      && (modelValid && found.Some? && !PasswordOk(found.value, form.oldPassword) ==>
            r.outcome == Page(None, ["Incorrect password."]))
      && (modelValid && found.Some? && PasswordOk(found.value, form.oldPassword) && PasswordErrors(form.newPassword) != [] ==>
            r.outcome == Page(None, [Describe(PasswordErrors(form.newPassword)[0])]))
  {
    if principal.None? then Response(app, Redirect(NotAuthorizedPath))
    else if !modelValid then Response(app, Page(None, []))
    else match UserHelper.GetUserByEmail(app.identity, principal.value.name)
      case None => Response(app, Page(None, [UserNoFound]))
      case Some(u) =>
        var c := Identity.ChangePassword(app.identity, u, form.oldPassword, form.newPassword);
        if c.result.Succeeded? then Response(app.(identity := c.state), Redirect(ChangeUserPath))
        else Response(app, Page(None, [Describe(c.result.errors[0])]))
  }

  /** The smallest HMAC-SHA256 signing key the token handler accepts: 128 bits. */
  const MinKeyBytes: nat := 16

  /** `CreateToken` (API): a bearer token for the user with that email when the
      password checks, else 400. The token's subject is the user's email and it
      expires ten years after `now`. Building the key from an empty string
      throws, and so does signing with a key shorter than 128 bits. */
  function CreateToken(app: App, form: LoginForm, modelValid: bool, jti: string, now: Time.Instant, config: TokenConfig): (r: Response)
    requires Time.Valid(now)
    ensures r.outcome == BadRequest ==> r.app == app
    ensures r.app.outbox == app.outbox && r.app.countries == app.countries
    ensures r.outcome.Created? ==>
      && r.outcome.token.subject == form.userName
      && r.outcome.token.jti == jti
      && r.outcome.token.issuer == config.issuer && r.outcome.token.audience == config.audience
      && Time.AddYears(now, 10) == Some(r.outcome.token.expires)
      && Text.Utf8Length(config.key) >= MinKeyBytes
  {
    if !modelValid then Response(app, BadRequest)
    else match UserHelper.GetUserByEmail(app.identity, form.userName)
      case None => Response(app, BadRequest)
      case Some(u) =>
        var a := UserHelper.ValidatePassword(app.identity, u, form.password);
        if a.result != SignInSucceeded then Response(app, BadRequest)
        else if config.key == "" then Response(app.(identity := a.state), Fault(ArgumentException))
        else match Time.AddYears(now, 10)
          case None => Response(app.(identity := a.state), Fault(ArgumentOutOfRange))
          case Some(expires) =>
            if Text.Utf8Length(config.key) < MinKeyBytes then Response(app.(identity := a.state), Fault(ArgumentOutOfRange))
            else Response(app.(identity := a.state), Created(BearerToken(u.email, jti, config.issuer, config.audience, expires)))
  }

  /** `RecoverPassword` (POST): mails a reset link to a registered email. */
  function RecoverPassword(app: App, email: string, modelValid: bool): (r: Response)
    ensures r.app.identity == app.identity && r.app.countries == app.countries
    ensures r.app.outbox == app.outbox <==> r.outcome != Page(Some(RecoverySent), [])
    ensures modelValid && UserHelper.GetUserByEmail(app.identity, email).None? ==>
      r == Response(app, Page(None, [EmailNotRegistered]))
  {
    if !modelValid then Response(app, Page(None, []))
    else match UserHelper.GetUserByEmail(app.identity, email)
      case None => Response(app, Page(None, [EmailNotRegistered]))
      case Some(u) =>
        var mail := Mail(email, ResetPasswordSubject, ResetPasswordLink(GenerateToken(u, PasswordReset)));
        Response(app.(outbox := app.outbox + [mail]), Page(Some(RecoverySent), []))
  }

  /** The user a reset form names. Model binding turns a blank field into
      null, and no stored email equals null. */
  function ResetTarget(st: State, form: ResetPasswordForm): Option<User>
  {
    if IsBlank(form.userName) then None else UserHelper.GetUserByEmail(st, form.userName)
  }

  /** `ResetPassword` (POST): resets the password of the user the form names
      when the reset token verifies and the new password is valid. A blank
      password is bound as null, which the password validator rejects by
      throwing once the token has verified. */
  function ResetPassword(app: App, form: ResetPasswordForm): (r: Response)
    ensures r.outcome in {Page(Some(ResetDone), []), Page(Some(ResetFailed), []), Page(Some(UserNotFound), []), Fault(ArgumentNull)}
    ensures r.outcome != Page(Some(ResetDone), []) ==> r.app == app
    ensures r.app.outbox == app.outbox && r.app.countries == app.countries
    ensures var found := ResetTarget(app.identity, form);
      && (r.outcome == Page(Some(UserNotFound), []) <==> found.None?)
      && (r.outcome == Fault(ArgumentNull) <==>
            found.Some? && VerifyToken(found.value, PasswordReset, form.token) && IsBlank(form.password))
      && (r.outcome == Page(Some(ResetDone), []) <==>
            found.Some? && VerifyToken(found.value, PasswordReset, form.token) && PasswordErrors(form.password) == [])
      && (r.outcome == Page(Some(ResetDone), []) ==>
            r.app.identity == SetPassword(app.identity, found.value, form.password).state)
  {
    match ResetTarget(app.identity, form)
    case None => Response(app, Page(Some(UserNotFound), []))
    case Some(u) =>
      if VerifyToken(u, PasswordReset, form.token) && IsBlank(form.password) then Response(app, Fault(ArgumentNull))
      else
        var c := Identity.ResetPassword(app.identity, u, form.token, form.password);
        if c.result.Succeeded? then Response(app.(identity := c.state), Page(Some(ResetDone), []))
        else Response(app, Page(Some(ResetFailed), []))
  }

  /** `Index` (Admin): the user listing. */
  function Index(app: App, principal: Option<Principal>): (r: Response)
    ensures r.app == app
    ensures r.outcome.Listing? <==> IsAdmin(principal)
    ensures !IsAdmin(principal) ==> r.outcome == Redirect(NotAuthorizedPath)
    ensures r.outcome.Listing? ==>
      var rows := r.outcome.rows;
      && multiset(UserHelper.ListedUsers(rows)) == multiset(app.identity.users)
      && Ordering.SortedByKey(UserHelper.ListedUsers(rows), UserHelper.UserSortKey)
      && forall i :: 0 <= i < |rows| ==> rows[i].isAdmin == IsInRole(app.identity, rows[i].user, AdminRole)
  {
    if !IsAdmin(principal) then Response(app, Redirect(NotAuthorizedPath))
    else Response(app, Listing(UserHelper.GetAllUsers(app.identity)))
  }

  /** The Admin-gated actions on one user, by id. */
  datatype AdminAction = GrantAdmin | RevokeAdmin | Delete

  /** `AdminOn`, `AdminOff` and `DeleteUser`: the role gate, then not found for
      an empty or unknown id, then the action and a redirect to the listing. */
  function ManageUser(app: App, principal: Option<Principal>, action: AdminAction, id: string): (r: Response)
    ensures !IsAdmin(principal) ==> r == Response(app, Redirect(NotAuthorizedPath))
    ensures IsAdmin(principal) && (id == "" || UserHelper.GetUserById(app.identity, id).None?) ==>
      r == Response(app, NotFound)
    ensures r.app.outbox == app.outbox && r.app.countries == app.countries
  {
    if !IsAdmin(principal) then Response(app, Redirect(NotAuthorizedPath))
    else if id == "" then Response(app, NotFound)
    else match UserHelper.GetUserById(app.identity, id)
      case None => Response(app, NotFound)
      case Some(u) =>
        match action
        case GrantAdmin =>
          (match AddToRole(app.identity, u, AdminRole)
           case Failure(e) => Response(app, Fault(e))
           case Success(upd) => Response(app.(identity := upd.state), Redirect(IndexPath)))
        case RevokeAdmin =>
          Response(app.(identity := RemoveFromRole(app.identity, u, AdminRole).state), Redirect(IndexPath))
        case Delete =>
          Response(app.(identity := DeleteUser(app.identity, u)), Redirect(IndexPath))
  }

  // ------------------------------------------------------------ invariants

  /** Writing back a stored user's record with its id, email and user name
      unchanged keeps the store well formed. */
  lemma RewriteStoredUser(st: State, u: User, v: User)
    requires WellFormed(st) && u in st.users
    requires v.id == u.id && v.email == u.email && v.userName == u.userName
    ensures WellFormed(ReplaceUser(st, v))
  {
    forall w | w in st.users && w.id == v.id ensures w.email == v.email && w.userName == v.userName {
      IdDeterminesUser(st, w, u);
    }
    ReplaceUserPreservesWellFormed(st, v);
  }

  lemma LoginPreservesWellFormed(app: App, form: LoginForm, modelValid: bool, returnUrl: Option<string>)
    requires WellFormed(app.identity)
    ensures WellFormed(Login(app, form, modelValid, returnUrl).app.identity)
  {
    var found := FindByName(app.identity, form.userName);
    if modelValid && found.Some? {
      var c := CheckPasswordSignIn(found.value, form.password, false);
      RewriteStoredUser(app.identity, found.value, c.user);
    }
  }

  lemma RegisterPreservesWellFormed(app: App, form: RegisterForm, modelValid: bool)
    requires WellFormed(app.identity)
    ensures WellFormed(Register(app, form, modelValid).app.identity)
  {
    var u := NewAccount(app.identity, form, CountryRepository.GetCity(app.countries, form.cityId));
    CreateUserPreservesWellFormed(app.identity, u, form.password);
  }

  lemma ConfirmEmailPreservesWellFormed(app: App, userId: string, token: string)
    requires WellFormed(app.identity)
    ensures WellFormed(ConfirmEmail(app, userId, token).app.identity)
  {
    var found := UserHelper.GetUserById(app.identity, userId);
    if found.Some? {
      RewriteStoredUser(app.identity, found.value, found.value.(emailConfirmed := true));
    }
  }

  lemma ChangePasswordPreservesWellFormed(app: App, principal: Option<Principal>, form: ChangePasswordForm, modelValid: bool)
    requires WellFormed(app.identity)
    ensures WellFormed(ChangePassword(app, principal, form, modelValid).app.identity)
  {
    if principal.Some? {
      var found := UserHelper.GetUserByEmail(app.identity, principal.value.name);
      if found.Some? {
        var u := found.value;
        RewriteStoredUser(app.identity, u, u.(passwordHash := form.newPassword, securityStamp := NewStamp(u.securityStamp)));
      }
    }
  }

  lemma CreateTokenPreservesWellFormed(app: App, form: LoginForm, modelValid: bool, jti: string, now: Time.Instant, config: TokenConfig)
    requires WellFormed(app.identity) && Time.Valid(now)
    ensures WellFormed(CreateToken(app, form, modelValid, jti, now, config).app.identity)
  {
    var found := UserHelper.GetUserByEmail(app.identity, form.userName);
    if found.Some? {
      var c := CheckPasswordSignIn(found.value, form.password, false);
      RewriteStoredUser(app.identity, found.value, c.user);
    }
  }

  lemma ResetPasswordPreservesWellFormed(app: App, form: ResetPasswordForm)
    requires WellFormed(app.identity)
    ensures WellFormed(ResetPassword(app, form).app.identity)
  {
    var found := ResetTarget(app.identity, form);
    if found.Some? {
      var u := found.value;
      RewriteStoredUser(app.identity, u, u.(passwordHash := form.password, securityStamp := NewStamp(u.securityStamp)));
    }
  }

  lemma ManageUserPreservesWellFormed(app: App, principal: Option<Principal>, action: AdminAction, id: string)
    requires WellFormed(app.identity)
    ensures WellFormed(ManageUser(app, principal, action, id).app.identity)
  {
    var found := UserHelper.GetUserById(app.identity, id);
    if IsAdmin(principal) && id != "" && found.Some? {
      var u := found.value;
      assert u.id in UserIds(app.identity.users);
      match action
      case GrantAdmin =>
        if AddToRole(app.identity, u, AdminRole).Success? {
          AddToRolePreservesWellFormed(app.identity, u, AdminRole);
        }
      case RevokeAdmin =>
        RemoveFromRolePreservesWellFormed(app.identity, u, AdminRole);
      case Delete =>
        DeleteUserPreservesWellFormed(app.identity, u);
    }
  }

  // ------------------------------------------------------------ properties

  /** The record a successful registration adds: the last one of the store. */
  function Newest(st: State): User
    requires |st.users| > 0
  {
    st.users[|st.users| - 1]
  }

  /** Registration changes nothing unless it sends mail, which it does exactly
      when it reports success; then exactly one user was added — under a new
      id, with the submitted username as both email and user name, the
      submitted names, address, phone number and city, unconfirmed, holding
      the submitted password — and exactly one mail went to that address,
      carrying a confirmation link for that user that verifies. */
  lemma RegisterMailsOnlyNewUsers(app: App, form: RegisterForm, modelValid: bool)
    ensures var r := Register(app, form, modelValid);
      r.app.outbox == app.outbox ==> r.app == app
    ensures var r := Register(app, form, modelValid);
      r.app.outbox != app.outbox <==> r.outcome == Page(Some(ConfirmationSent), [])
    ensures var r := Register(app, form, modelValid);
      r.app.outbox != app.outbox ==>
        && modelValid
        && UserHelper.GetUserByEmail(app.identity, form.userName).None?
        && PasswordErrors(form.password) == []
        && |r.app.identity.users| == |app.identity.users| + 1
        && r.app.identity.users[..|app.identity.users|] == app.identity.users
        && r.app.identity.roles == app.identity.roles && r.app.identity.userRoles == app.identity.userRoles
        && var nu := Newest(r.app.identity);
        && nu.id !in UserIds(app.identity.users)
        && nu.email == form.userName && nu.userName == form.userName
        && nu.firstName == form.firstName && nu.lastName == form.lastName
        && nu.address == form.address && nu.phoneNumber == form.phoneNumber
        && nu.city == CountryRepository.GetCity(app.countries, form.cityId)
        && !nu.emailConfirmed
        && PasswordOk(nu, form.password)
        && r.app.outbox == app.outbox + [Mail(form.userName, ConfirmEmailSubject, ConfirmEmailLink(nu.id, GenerateToken(nu, EmailConfirmation)))]
        && VerifyToken(nu, EmailConfirmation, GenerateToken(nu, EmailConfirmation))
  {
    var r := Register(app, form, modelValid);
    if r.app.outbox != app.outbox {
      var st := app.identity;
      assert r.app.identity.users == st.users + [Newest(r.app.identity)];
      assert r.app.identity.users[..|st.users|] == st.users;
    }
  }

  /** A registered but unconfirmed user cannot log in, even with the right
      password: the options require a confirmed email. */
  lemma UnconfirmedCannotLogin(app: App, form: RegisterForm, rememberMe: bool, returnUrl: Option<string>)
    requires WellFormed(app.identity)
    requires Register(app, form, true).app.outbox != app.outbox
    ensures Login(Register(app, form, true).app, LoginForm(form.userName, form.password, rememberMe), true, returnUrl).outcome
      == Page(None, [FailedToLogin])
  {
    var r := Register(app, form, true);
    RegisterMailsOnlyNewUsers(app, form, true);
    RegisterPreservesWellFormed(app, form, true);
    var nu := Newest(r.app.identity);
    assert nu in r.app.identity.users;
    var found := FindByName(r.app.identity, form.userName);
    assert found.Some?;
    UserNameDeterminesUser(r.app.identity, found.value, nu);
  }

  /** Following the mailed link confirms the new user, who can then log in
      with the password given at registration. */
  lemma RegisterConfirmLogin(app: App, form: RegisterForm, rememberMe: bool, returnUrl: Option<string>)
    requires WellFormed(app.identity)
    requires Register(app, form, true).app.outbox != app.outbox
    ensures var r := Register(app, form, true);
      var link := r.app.outbox[|r.app.outbox| - 1].link;
      var c := ConfirmEmail(r.app, link.userId, link.token);
      && c.outcome == Page(None, [])
      && UserHelper.Login(c.app.identity, form.userName, form.password, rememberMe).result == SignInSucceeded
      && (Login(c.app, LoginForm(form.userName, form.password, rememberMe), true, returnUrl).outcome.SignedIn?
          <==> returnUrl != Some(""))
  {
    var r := Register(app, form, true);
    RegisterMailsOnlyNewUsers(app, form, true);
    RegisterPreservesWellFormed(app, form, true);
    var nu := Newest(r.app.identity);
    var link := r.app.outbox[|r.app.outbox| - 1].link;
    assert link == ConfirmEmailLink(nu.id, GenerateToken(nu, EmailConfirmation));
    assert nu in r.app.identity.users;
    UserHelper.LookupsExact(r.app.identity, nu);
    assert nu.id != "";
    var c := ConfirmEmail(r.app, link.userId, link.token);
    var confirmed := nu.(emailConfirmed := true);
    assert c.app.identity == ReplaceUser(r.app.identity, confirmed);
    ConfirmEmailPreservesWellFormed(r.app, link.userId, link.token);
    assert c.app.identity.users[|r.app.identity.users| - 1] == confirmed;
    assert confirmed in c.app.identity.users;
    var found := FindByName(c.app.identity, form.userName);
    UserNameDeterminesUser(c.app.identity, found.value, confirmed);
    assert UserHelper.Login(c.app.identity, form.userName, form.password, rememberMe).result == SignInSucceeded;
  }

  /** Confirmation succeeds exactly for a non-empty id of a stored user and a
      non-empty token that verifies for it; it then confirms that user only. */
  lemma ConfirmEmailSucceedsExactly(app: App, userId: string, token: string)
    ensures var r := ConfirmEmail(app, userId, token);
      var found := UserHelper.GetUserById(app.identity, userId);
      && (r.outcome == Page(None, []) <==>
            userId != "" && token != "" && found.Some? && VerifyToken(found.value, EmailConfirmation, token))
      && (r.outcome == Page(None, []) ==>
            r.app.identity == ReplaceUser(app.identity, found.value.(emailConfirmed := true)))
  {
  }

  /** Following a confirmation link a second time succeeds again and changes
      nothing: the confirmation token is not consumed. */
  lemma ConfirmEmailReplay(app: App, userId: string, token: string)
    requires WellFormed(app.identity)
    requires ConfirmEmail(app, userId, token).outcome == Page(None, [])
    ensures var r := ConfirmEmail(app, userId, token);
      ConfirmEmail(r.app, userId, token) == r
  {
    var u := UserHelper.GetUserById(app.identity, userId).value;
    var v := u.(emailConfirmed := true);
    var r := ConfirmEmail(app, userId, token);
    assert r.app.identity == ReplaceUser(app.identity, v);
    ReplaceUserStores(app.identity, u, v);
    ConfirmEmailPreservesWellFormed(app, userId, token);
    UserHelper.LookupsExact(r.app.identity, v);
    ReplaceUserByStored(r.app.identity, v);
  }

  /** After a password change the signed-in user logs in with the new password
      whenever it may sign in at all, and no longer with the old one. The
      principal's name is the user name the cookie carries, which registration
      makes equal to the email. */
  lemma ChangePasswordThenLogin(app: App, principal: Option<Principal>, form: ChangePasswordForm, rememberMe: bool)
    requires WellFormed(app.identity)
    requires ChangePassword(app, principal, form, true).outcome == Redirect(ChangeUserPath)
    requires Account(app, principal).Some? && Account(app, principal).value.userName == principal.value.name
    ensures var st := ChangePassword(app, principal, form, true).app.identity;
      var u := Account(app, principal).value;
      && (UserHelper.Login(st, principal.value.name, form.newPassword, rememberMe).result == SignInSucceeded
          <==> CanSignIn(u) && !u.lockedOut)
      && (form.oldPassword != form.newPassword ==>
            UserHelper.Login(st, principal.value.name, form.oldPassword, rememberMe).result != SignInSucceeded)
  {
    var u := Account(app, principal).value;
    var v := u.(passwordHash := form.newPassword, securityStamp := NewStamp(u.securityStamp));
    var st := ChangePassword(app, principal, form, true).app.identity;
    assert st == ReplaceUser(app.identity, v);
    RewriteStoredUser(app.identity, u, v);
    var i :| 0 <= i < |app.identity.users| && app.identity.users[i] == u;
    assert st.users[i] == v;
    var found := FindByName(st, principal.value.name);
    UserNameDeterminesUser(st, found.value, v);
  }

  /** A token is issued exactly when the form is valid, the email belongs to a
      user, and that user may sign in — email confirmed, not locked out,
      password correct — the expiry is representable and the signing key is
      at least 128 bits. An empty key and a too short key or expiry are the
      only faults. The endpoint never counts a failure, so no account is
      locked or unlocked by it. */
  lemma CreateTokenIssuesExactly(app: App, form: LoginForm, modelValid: bool, jti: string, now: Time.Instant, config: TokenConfig)
    requires Time.Valid(now) && WellFormed(app.identity)
    ensures var r := CreateToken(app, form, modelValid, jti, now, config);
      var found := UserHelper.GetUserByEmail(app.identity, form.userName);
      && (r.outcome.Created? <==>
            && modelValid && found.Some?
            && found.value.emailConfirmed && !found.value.lockedOut && PasswordOk(found.value, form.password)
            && now.year + 10 <= 9999 && Text.Utf8Length(config.key) >= MinKeyBytes)
      && (r.outcome == Fault(ArgumentException) <==> !r.outcome.BadRequest? && config.key == "")
      && (r.outcome == Fault(ArgumentOutOfRange) ==>
            config.key != "" && (now.year + 10 > 9999 || Text.Utf8Length(config.key) < MinKeyBytes))
      && (r.outcome.Created? || r.outcome.BadRequest? || r.outcome == Fault(ArgumentException) || r.outcome == Fault(ArgumentOutOfRange))
      && UserHelper.NoLockoutEffect(app.identity, r.app.identity)
  {
    var found := UserHelper.GetUserByEmail(app.identity, form.userName);
    if found.Some? {
      UserHelper.ValidatePasswordNoLockoutEffect(app.identity, found.value, form.password);
    }
  }

  /** Two tokens issued with different jti values differ. */
  lemma CreateTokenDistinctJti(app: App, form: LoginForm, jti1: string, jti2: string, now: Time.Instant, config: TokenConfig)
    requires Time.Valid(now) && jti1 != jti2
    requires CreateToken(app, form, true, jti1, now, config).outcome.Created?
    ensures CreateToken(app, form, true, jti2, now, config).outcome.Created?
    ensures CreateToken(app, form, true, jti1, now, config).outcome.token != CreateToken(app, form, true, jti2, now, config).outcome.token
  {
  }

  /** Recovery mails exactly when the email belongs to a user, and then one mail
      to that address whose link carries a reset token that verifies for that user. */
  lemma RecoverPasswordMailsResetLink(app: App, email: string, modelValid: bool)
    ensures var r := RecoverPassword(app, email, modelValid);
      var found := UserHelper.GetUserByEmail(app.identity, email);
      && (r.app.outbox != app.outbox <==> modelValid && found.Some?)
      && (r.app.outbox != app.outbox ==>
            && |r.app.outbox| == |app.outbox| + 1
            && r.app.outbox[..|app.outbox|] == app.outbox
            && r.app.outbox[|app.outbox|].to == email == found.value.email
            && r.app.outbox[|app.outbox|].link.ResetPasswordLink?
            && VerifyToken(found.value, PasswordReset, r.app.outbox[|app.outbox|].link.token))
  {
    var r := RecoverPassword(app, email, modelValid);
    if r.app.outbox != app.outbox {
      assert r.app.outbox[..|app.outbox|] == app.outbox;
    }
  }

  /** The mailed reset link resets the password once: afterwards the new
      password is the user's, and the same link is refused. The email is one
      a valid recovery form carried, so it is not blank. */
  lemma RecoverThenReset(app: App, email: string, newPassword: string)
    requires WellFormed(app.identity)
    requires !IsBlank(email) && UserHelper.GetUserByEmail(app.identity, email).Some?
    requires PasswordErrors(newPassword) == []
    ensures var r1 := RecoverPassword(app, email, true);
      var token := r1.app.outbox[|r1.app.outbox| - 1].link.token;
      var r2 := ResetPassword(r1.app, ResetPasswordForm(email, token, newPassword));
      && r2.outcome == Page(Some(ResetDone), [])
      && UserHelper.GetUserByEmail(r2.app.identity, email).Some?
      && PasswordOk(UserHelper.GetUserByEmail(r2.app.identity, email).value, newPassword)
      && ResetPassword(r2.app, ResetPasswordForm(email, token, newPassword)).outcome == Page(Some(ResetFailed), [])
  {
    var u := UserHelper.GetUserByEmail(app.identity, email).value;
    var r1 := RecoverPassword(app, email, true);
    var token := r1.app.outbox[|r1.app.outbox| - 1].link;
    assert token == ResetPasswordLink(GenerateToken(u, PasswordReset));
    var r2 := ResetPassword(r1.app, ResetPasswordForm(email, token.token, newPassword));
    var v := u.(passwordHash := newPassword, securityStamp := NewStamp(u.securityStamp));
    assert r2.app.identity == ReplaceUser(app.identity, v);
    ResetPasswordPreservesWellFormed(r1.app, ResetPasswordForm(email, token.token, newPassword));
    var i :| 0 <= i < |app.identity.users| && app.identity.users[i] == u;
    assert r2.app.identity.users[i] == v;
    UserHelper.LookupsExact(r2.app.identity, v);
    NewStampRevokesTokens(u, PasswordReset, PasswordReset);
    assert !VerifyToken(v, PasswordReset, token.token);
  }

  /** After Admin is granted to a user, the listing shows that user, flagged
      as admin wherever it appears. */
  lemma GrantAdminShowsInIndex(app: App, principal: Option<Principal>, id: string)
    requires IsAdmin(principal)
    requires ManageUser(app, principal, GrantAdmin, id).outcome == Redirect(IndexPath)
    ensures var rows := Index(ManageUser(app, principal, GrantAdmin, id).app, principal).outcome.rows;
      && (exists i :: 0 <= i < |rows| && rows[i].user.id == id)
      && (forall i :: 0 <= i < |rows| && rows[i].user.id == id ==> rows[i].isAdmin)
  {
    var u := UserHelper.GetUserById(app.identity, id).value;
    var st' := ManageUser(app, principal, GrantAdmin, id).app.identity;
    var rows := Index(ManageUser(app, principal, GrantAdmin, id).app, principal).outcome.rows;
    assert u in st'.users;
    assert u in multiset(UserHelper.ListedUsers(rows));
    var i :| 0 <= i < |rows| && UserHelper.ListedUsers(rows)[i] == u;
    assert rows[i].user.id == id;
  }

  /** The effect of the Admin actions on an existing user: granting puts that
      user, and only it, in the Admin role (or throws when the role is missing);
      revoking takes it, and only it, out; deleting removes that user and its
      memberships. Users, roles and the other memberships stay as they were. */
  lemma ManageUserEffect(app: App, principal: Option<Principal>, action: AdminAction, id: string)
    requires IsAdmin(principal) && id != ""
    requires UserHelper.GetUserById(app.identity, id).Some?
    ensures var r := ManageUser(app, principal, action, id);
      var st := app.identity;
      var st' := r.app.identity;
      && st'.roles == st.roles
      && (r.outcome == Redirect(IndexPath) || (action == GrantAdmin && r.outcome == Fault(InvalidOperation("Role ADMIN does not exist.")) && r.app == app))
      && (r.outcome.Fault? <==> action == GrantAdmin && AdminRole !in st.roles)
      && (action != Delete ==> st'.users == st.users)
      && (action == GrantAdmin && r.outcome == Redirect(IndexPath) ==>
            forall v, role :: IsInRole(st', v, role) <==> IsInRole(st, v, role) || (v.id == id && role == AdminRole))
      && (action == RevokeAdmin ==>
            forall v, role :: IsInRole(st', v, role) <==> IsInRole(st, v, role) && !(v.id == id && role == AdminRole))
      && (action == Delete ==>
            && (forall v :: v in st'.users <==> v in st.users && v.id != id)
            && (forall v, role :: IsInRole(st', v, role) <==> IsInRole(st, v, role) && v.id != id))
  {
    var st := app.identity;
    var u := UserHelper.GetUserById(st, id).value;
    match action
    case GrantAdmin =>
      AdminRoleKey();
      assert "Role " + NormalizeKey(AdminRole) + " does not exist." == "Role ADMIN does not exist.";
      var a := AddToRole(st, u, AdminRole);
      if a.Failure? {
        assert ManageUser(app, principal, action, id) == Response(app, Fault(InvalidOperation("Role ADMIN does not exist.")));
      } else {
        assert ManageUser(app, principal, action, id) == Response(app.(identity := a.value.state), Redirect(IndexPath));
      }
    case RevokeAdmin =>
      assert ManageUser(app, principal, action, id) ==
        Response(app.(identity := RemoveFromRole(st, u, AdminRole).state), Redirect(IndexPath));
    case Delete =>
      assert ManageUser(app, principal, action, id) == Response(app.(identity := DeleteUser(st, u)), Redirect(IndexPath));
  }

  /** The store names the Admin role by its normalized key. */
  lemma AdminRoleKey()
    ensures NormalizeKey(AdminRole) == "ADMIN"
  {
    var k := NormalizeKey(AdminRole);
    assert k[0] == 'A' && k[1] == 'D' && k[2] == 'M' && k[3] == 'I' && k[4] == 'N';
  }
}
