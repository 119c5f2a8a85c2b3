# Auth-WebApp-NetCore2.1: account management, modelled in Dafny

This project models the account core of an ASP.NET Core 2.1 web application,
covering these parts:

- registration with email confirmation;
- cookie login;
- password change, recovery and reset;
- an API endpoint that issues JWT bearer tokens;
- Admin-only user management (list, grant or revoke Admin, delete);
- the start-up seeder that creates the roles, the country/city reference data
  and three test users;
- the country/city repository behind the registration form's combo boxes.

Each controller action is a pure function from the application state and the
request's inputs to the new state and the HTTP outcome. Sent mail is an
append-only outbox.

The ASP.NET Core Identity behaviour the code relies on lives in `Identity`,
reduced to deterministic functions:

- the options set in `Startup.ConfigureServices`;
- password and user validation;
- the password sign-in check;
- the user, role and membership stores;
- purpose tokens.

Hashing and data protection are replaced by stand-ins that keep their
contracts:

- the stored hash is the password itself;
- a purpose token is the purpose name, the user's security stamp and the user's
  id, and it verifies only when it equals the token the user's current record
  would mint;
- setting a password renews the stamp, which revokes every earlier token.

Files, one module each:

| file | module | models |
|---|---|---|
| `wrappers.dfy` | `Wrappers` | `Option`, `Result` |
| `seqs.dfy` | `Seqs` | first-match search (`Where(..).FirstOrDefault()`) |
| `text.dfy` | `Text` | ordinal string order, UTF-16 and UTF-8 lengths, `int.ToString` and its parse |
| `ordering.dfy` | `Ordering` | sort by string keys (`OrderBy(..).ThenBy(..)`) |
| `entities.dfy` | `Entities` | `User`, `Country`, `City`, `Roles`, the field annotations |
| `identity.dfy` | `Identity` | the Identity framework as configured in `Startup.cs` |
| `user_helper.dfy` | `UserHelper` | `Helpers/UserHelper.cs` |
| `countries.dfy` | `CountryRepository` | `Data/Repositories/CountryRepository.cs` |
| `seed.dfy` | `SeedDb` | `Data/SeedDb.cs` |
| `time.dfy` | `Time` | `DateTime.AddYears`, used for the token expiry |
| `account.dfy` | `AccountController` | `Controllers/AccountController.cs` |

Behaviour of the code that is easy to expect otherwise, as the model states it:

- **The API token endpoint requires a confirmed email.** The controller never
  reads `EmailConfirmed`, and one might expect this endpoint to skip that gate.
  But `CheckPasswordSignInAsync` runs the framework's pre-sign-in check, and
  the options set `RequireConfirmedEmail`. So an unconfirmed user gets 400
  there (`AccountController.CreateTokenIssuesExactly`).
- **Confirmation tokens are not single use.** Confirming an email does not
  renew the security stamp, so following the same link again succeeds and
  changes nothing (`AccountController.ConfirmEmailReplay`). Reset tokens are
  single use (`AccountController.RecoverThenReset`).
- **Errors from missing data are exceptions.** These are unhandled exceptions,
  not typed results:
  - `AddToRoleAsync` on a role that does not exist;
  - `ResetPasswordAsync` with a verifying token and a blank password, which
    model binding turns into null before the password validator sees it;
  - the expiry year overflow;
  - a signing key that is empty or shorter than 128 bits;
  - an empty `ReturnUrl` after a successful login, since `Redirect` refuses an
    empty URL. The sign-in is recorded before the throw.
- **Lengths are UTF-16 code units.** `[MaxLength]` and the password's minimum
  length count `string.Length`, so a character outside the Basic Multilingual
  Plane counts twice. The signing key's size counts UTF-8 bytes.

## Model

| member | source | states |
|---|---|---|
| `Entities.FullName` | AuthWebAppNetCore.Web/Data/Entities/User.cs:17-18 | the display name is the first name, one space, then the last name |
| `Entities.SplitFullNameRoundTrip` | AuthWebAppNetCore.Web/Data/Entities/User.cs:17-18 | a first name without spaces and the last name can be read back from the display name |
| `Entities.FullNameNotInjective` | AuthWebAppNetCore.Web/Data/Entities/User.cs:17-18 | with a space in the first name, two different name pairs give the same display name |
| `Entities.NumberCities` | AuthWebAppNetCore.Web/Data/Entities/Country.cs:16-19 | 0 when the city collection is null, otherwise its size |
| `Entities.ValidateUser` | AuthWebAppNetCore.Web/Data/Entities/User.cs:9-21 | a user passes iff first and last name have at most 50 UTF-16 code units and the address at most 100; each field's error appears iff its limit is exceeded |
| `Entities.ValidateCountry` | AuthWebAppNetCore.Web/Data/Entities/Country.cs:11-14 | a country name passes iff it is not blank (by the full Unicode white-space set) and has at most 50 UTF-16 code units, with one error per broken rule |
| `Entities.ValidateCity` | AuthWebAppNetCore.Web/Data/Entities/City.cs:10-13 | a city name passes iff it is not blank (by the full Unicode white-space set) and has at most 50 UTF-16 code units, with one error per broken rule |
| `Entities.ValidateCityCountsUnits` | AuthWebAppNetCore.Web/Data/Entities/City.cs:10-13 | 26 characters above U+FFFF are 52 code units, too long for a city name; a name of ideographic spaces is blank |
| `Identity.PasswordErrors` | AuthWebAppNetCore.Web/Startup.cs:37-42 | a password is accepted iff it is not blank and has at least 6 UTF-16 code units; no digit, case, symbol or distinct-character rule applies |
| `Identity.PasswordLengthCountsUnits` | AuthWebAppNetCore.Web/Startup.cs:37-42 | three characters above U+FFFF are long enough for a password; six ideographic spaces are blank and refused |
| `Identity.UserErrors` | AuthWebAppNetCore.Web/Startup.cs:36 | a user is accepted iff the user name is non-blank, uses only allowed characters and belongs to no other user, and the email is non-blank, well formed and belongs to no other user |
| `Identity.CheckPasswordSignIn` | AuthWebAppNetCore.Web/Startup.cs:35 | a sign-in succeeds iff the email is confirmed, the account is not locked out and the password matches; an unconfirmed email gives NotAllowed; without lockout-on-failure a failed check leaves the record as it was |
| `Identity.IdDeterminesUser` | AuthWebAppNetCore.Web/Helpers/UserHelper.cs:105-115 | in a well-formed store two users with the same id are the same user |
| `Identity.EmailDeterminesUser` | AuthWebAppNetCore.Web/Startup.cs:36 | with unique emails required, two stored users with the same email are the same user |
| `Identity.UserNameDeterminesUser` | AuthWebAppNetCore.Web/Helpers/UserHelper.cs:122-129 | in a well-formed store two users with the same user name are the same user |
| `Identity.FindByName` | AuthWebAppNetCore.Web/Helpers/UserHelper.cs:122-129 | the lookup the password sign-in uses finds a stored user with that name, and finds none iff no user has it |
| `Identity.CreateUser` | AuthWebAppNetCore.Web/Helpers/UserHelper.cs:27-30 | creation succeeds iff the password and the user are valid; the user is then appended with the password and a new stamp; a refusal changes nothing and carries errors |
| `Identity.CreateUserPreservesWellFormed` | AuthWebAppNetCore.Web/Helpers/UserHelper.cs:27-30 | creating a user with a new non-empty id keeps ids, emails and user names unique |
| `Identity.ReplaceUserPreservesWellFormed` | AuthWebAppNetCore.Web/Helpers/UserHelper.cs:146-149 | updating a record without changing its email or user name keeps the store well formed |
| `Identity.AddToRole` | AuthWebAppNetCore.Web/Helpers/UserHelper.cs:32-35 | adding a user to a role that does not exist throws an InvalidOperation naming the role by its upper-case key ("Role ADMIN does not exist."); an existing membership is reported; otherwise exactly that membership is added |
| `Identity.AddToRolePreservesWellFormed` | AuthWebAppNetCore.Web/Helpers/UserHelper.cs:32-35 | adding a stored user to a role keeps every membership pointing at a stored user and an existing role |
| `Identity.RemoveFromRole` | AuthWebAppNetCore.Web/Helpers/UserHelper.cs:136-139 | removing a membership the user does not have reports UserNotInRole and changes nothing; otherwise exactly that membership is removed |
| `Identity.RemoveFromRolePreservesWellFormed` | AuthWebAppNetCore.Web/Helpers/UserHelper.cs:136-139 | removing a membership keeps the store well formed |
| `Identity.DeleteUser` | AuthWebAppNetCore.Web/Helpers/UserHelper.cs:59-62 | deleting removes exactly the users with that id and exactly their memberships; the roles are unchanged |
| `Identity.DeleteUserPreservesWellFormed` | AuthWebAppNetCore.Web/Helpers/UserHelper.cs:59-62 | deleting a user keeps the store well formed |
| `Identity.ConfirmEmail` | AuthWebAppNetCore.Web/Helpers/UserHelper.cs:54-57 | confirmation succeeds iff the token verifies for the user, and then only that record becomes confirmed; otherwise the result is InvalidToken and nothing changes |
| `Identity.TokenBoundToPurpose` | AuthWebAppNetCore.Web/Helpers/UserHelper.cs:64-72 | a token that verifies for one purpose verifies for no other |
| `Identity.NewStampRevokesTokens` | AuthWebAppNetCore.Web/Helpers/UserHelper.cs:141-144 | once the security stamp is renewed, no token minted before verifies for any purpose |
| `Identity.SetPassword` | AuthWebAppNetCore.Web/Helpers/UserHelper.cs:37-40 | setting a password succeeds iff the password is valid, and then only that user's record changes, to the new password and a renewed security stamp; a refusal changes nothing and carries errors |
| `Identity.ChangePassword` | AuthWebAppNetCore.Web/Helpers/UserHelper.cs:37-40 | a wrong current password is reported as PasswordMismatch and changes nothing; with the right one the change is exactly setting the new password |
| `Identity.ResetPassword` | AuthWebAppNetCore.Web/Helpers/UserHelper.cs:141-144 | a reset token that does not verify for the user is reported as InvalidToken and changes nothing, whatever the password; with a verifying token the reset is exactly setting the new password |
| `Identity.CreateRole` | AuthWebAppNetCore.Web/Helpers/UserHelper.cs:47-50 | a role is created iff its name is non-blank and new; a blank name is reported invalid and a taken one duplicate; a refusal changes nothing |
| `Identity.CreateRolePreservesWellFormed` | AuthWebAppNetCore.Web/Helpers/UserHelper.cs:47-50 | creating a role keeps the store well formed |
| `UserHelper.CheckRole` | AuthWebAppNetCore.Web/Helpers/UserHelper.cs:42-52 | afterwards a non-blank role exists; an existing role leaves the store unchanged; at most that role is added and users and memberships are untouched |
| `UserHelper.CheckRoleIdempotent` | AuthWebAppNetCore.Web/Helpers/UserHelper.cs:42-52 | checking a role twice is the same as checking it once |
| `UserHelper.GetAllUsers` | AuthWebAppNetCore.Web/Helpers/UserHelper.cs:74-91 | the listing holds every user exactly once, ordered by first name and then last name, and flags a user as admin iff it is in the Admin role |
| `UserHelper.GetUserByEmail` | AuthWebAppNetCore.Web/Helpers/UserHelper.cs:93-103 | the lookup finds a stored user with exactly that email, and finds none iff no user has it |
| `UserHelper.GetUserById` | AuthWebAppNetCore.Web/Helpers/UserHelper.cs:105-115 | the lookup finds a stored user with exactly that id, and finds none iff no user has it |
| `UserHelper.LookupsExact` | AuthWebAppNetCore.Web/Helpers/UserHelper.cs:93-115 | in a well-formed store, looking a stored user up by its email or its id returns that user |
| `UserHelper.Login` | AuthWebAppNetCore.Web/Helpers/UserHelper.cs:122-129 | login succeeds iff the user name finds a user who may sign in, is not locked out and gave the right password; only success issues a session, for that user and persistent iff remember-me; failure changes nothing |
| `UserHelper.LoginNoLockoutEffect` | AuthWebAppNetCore.Web/Helpers/UserHelper.cs:122-129 | login never locks or unlocks an account and never counts a failure |
| `UserHelper.ValidatePassword` | AuthWebAppNetCore.Web/Helpers/UserHelper.cs:151-157 | validation succeeds iff the user may sign in, is not locked out and gave the right password; no session is issued, and failure changes nothing |
| `UserHelper.ValidatePasswordNoLockoutEffect` | AuthWebAppNetCore.Web/Helpers/UserHelper.cs:151-157 | password validation never locks or unlocks an account and never counts a failure |
| `CountryRepository.AddCity` | AuthWebAppNetCore.Web/Data/Repositories/CountryRepository.cs:20-31 | for an unknown country nothing changes; otherwise that country alone gains one city with the form's name and a new key, appended after its cities |
| `CountryRepository.AddCityPreservesWellFormed` | AuthWebAppNetCore.Web/Data/Repositories/CountryRepository.cs:20-31 | adding a city keeps country and city keys unique |
| `CountryRepository.AddCityCountsOneMore` | AuthWebAppNetCore.Web/Data/Repositories/CountryRepository.cs:20-31 | adding a city to a known country raises that country's city count by one |
| `CountryRepository.DeleteCity` | AuthWebAppNetCore.Web/Data/Repositories/CountryRepository.cs:33-44 | with no owner the result is 0 and nothing changes; an owned city that some user references is refused by the database's foreign key (`SaveChanges` throws); otherwise the city leaves its owner only, and the owner's id is returned |
| `CountryRepository.DeleteCityPreservesWellFormed` | AuthWebAppNetCore.Web/Data/Repositories/CountryRepository.cs:33-44 | a deletion that goes through keeps the keys unique |
| `CountryRepository.DeleteCityUndoesAddCity` | AuthWebAppNetCore.Web/Data/Repositories/CountryRepository.cs:20-44 | when every referenced key is a stored city, deleting the city just added goes through, restores the countries exactly and returns the country's id |
| `CountryRepository.DeleteCityCountsOneFewer` | AuthWebAppNetCore.Web/Data/Repositories/CountryRepository.cs:33-44 | deleting an owned city goes through iff no user references it, and then lowers its owner's city count by one |
| `CountryRepository.GetCountriesWithCities` | AuthWebAppNetCore.Web/Data/Repositories/CountryRepository.cs:46-51 | the result holds every country exactly once, ordered by name |
| `CountryRepository.GetCountryWithCities` | AuthWebAppNetCore.Web/Data/Repositories/CountryRepository.cs:53-59 | the lookup finds a stored country with that id, and finds none iff no country has it |
| `CountryRepository.UpdateCity` | AuthWebAppNetCore.Web/Data/Repositories/CountryRepository.cs:61-72 | with no owner the result is 0 and nothing changes; otherwise only the city with that id changes, and the owner's id is returned |
| `CountryRepository.UpdateCityThenGetCity` | AuthWebAppNetCore.Web/Data/Repositories/CountryRepository.cs:61-77 | after an update, looking the id up returns the new city, and every country's city count is unchanged |
| `CountryRepository.GetCity` | AuthWebAppNetCore.Web/Data/Repositories/CountryRepository.cs:74-77 | the lookup finds a city with that id that some country holds, and finds none iff no country holds it |
| `CountryRepository.NextCityId` | AuthWebAppNetCore.Web/Data/Repositories/CountryRepository.cs:28-30 | the key given to a new city is positive and used by no country |
| `CountryRepository.GetComboCountries` | AuthWebAppNetCore.Web/Data/Repositories/CountryRepository.cs:79-96 | the country combo starts with the "(Select a country...)" item of value 0, followed by one item per country (as a multiset), ordered by text |
| `CountryRepository.CountryItemReadsBack` | AuthWebAppNetCore.Web/Data/Repositories/CountryRepository.cs:81-85 | a country item's value parses back to the country's id |
| `CountryRepository.ComboCountryValuesAreIds` | AuthWebAppNetCore.Web/Data/Repositories/CountryRepository.cs:79-96 | each combo entry after the placeholder is some country's item, and its value parses back to that country's id |
| `CountryRepository.GetComboCities` | AuthWebAppNetCore.Web/Data/Repositories/CountryRepository.cs:98-118 | the city combo starts with the "(Select a city...)" placeholder; an unknown country gives only the placeholder; otherwise one item per city of the country, ordered by text |
| `CountryRepository.GetCountry` | AuthWebAppNetCore.Web/Data/Repositories/CountryRepository.cs:120-126 | the lookup finds a stored country that holds the city's id, and finds none iff no country holds it |
| `Text.IntToStringRoundTrip` | AuthWebAppNetCore.Web/Data/Repositories/CountryRepository.cs:84 | the decimal text of an id parses back to the id |
| `SeedDb.CheckRoles` | AuthWebAppNetCore.Web/Data/SeedDb.cs:115-119 | afterwards both Admin and Customer exist, nothing else is added, users and memberships are untouched, and a store with both roles is unchanged |
| `SeedDb.AddCountry` | AuthWebAppNetCore.Web/Data/SeedDb.cs:105-113 | one country is appended, with the given name, a new id and one city per given name, in order |
| `SeedDb.AddCountries` | AuthWebAppNetCore.Web/Data/SeedDb.cs:87-103 | the countries are appended in order, each with its name and its cities' names; earlier countries are kept |
| `SeedDb.AddCountryPreservesWellFormed` | AuthWebAppNetCore.Web/Data/SeedDb.cs:105-113 | adding a seed country keeps country and city keys unique |
| `SeedDb.AddCountriesPreservesWellFormed` | AuthWebAppNetCore.Web/Data/SeedDb.cs:87-103 | adding all seed countries keeps country and city keys unique |
| `SeedDb.FirstCity` | AuthWebAppNetCore.Web/Data/SeedDb.cs:72 | a test user's city is the first city of the first country; no country is a null dereference, and an unloaded city collection is a null argument |
| `SeedDb.Enrol` | AuthWebAppNetCore.Web/Data/SeedDb.cs:81-83 | putting a new user in its role and confirming its email fails only when the role does not exist; the user comes out confirmed |
| `SeedDb.AddUser` | AuthWebAppNetCore.Web/Data/SeedDb.cs:62-85 | a missing first city propagates its exception, and a refused creation is "Could not create the user in seeder"; success implies the user was created, and the countries are untouched |
| `SeedDb.AddUserOutcome` | AuthWebAppNetCore.Web/Data/SeedDb.cs:62-85 | a user created by the seeder is stored under a new id, with its email as user name, the given names, a confirmed email, password 123456 and its role; nothing earlier is lost |
| `SeedDb.AddUserPreservesWellFormed` | AuthWebAppNetCore.Web/Data/SeedDb.cs:62-85 | a seeded user keeps the store well formed |
| `SeedDb.CheckUser` | AuthWebAppNetCore.Web/Data/SeedDb.cs:44-60 | a test user already found by email and in its role is returned with nothing changed; the countries are never changed |
| `SeedDb.CheckUserOutcome` | AuthWebAppNetCore.Web/Data/SeedDb.cs:44-60 | afterwards the returned user is stored, has the email and is in the role; nothing earlier is lost |
| `SeedDb.CheckUserPreservesWellFormed` | AuthWebAppNetCore.Web/Data/SeedDb.cs:44-60 | checking a test user keeps the store well formed |
| `SeedDb.CheckUserRegisters` | AuthWebAppNetCore.Web/Data/SeedDb.cs:44-60 | afterwards looking the email up finds a user in the role |
| `SeedDb.CheckUserAddsUser` | AuthWebAppNetCore.Web/Data/SeedDb.cs:44-85 | a test user with an acceptable, unused address and an existing role is created without failure; every other record was there before |
| `SeedDb.AddUserAddsUser` | AuthWebAppNetCore.Web/Data/SeedDb.cs:62-85 | creating a user with an acceptable, unused address and an existing role succeeds, keeps the roles, and adds no record but that user's |
| `SeedDb.CheckUsers` | AuthWebAppNetCore.Web/Data/SeedDb.cs:39-41 | checking the test users in turn never touches the countries |
| `SeedDb.CheckUsersRegisters` | AuthWebAppNetCore.Web/Data/SeedDb.cs:39-41 | checking the test users keeps the store well formed, keeps what was there, and registers every one of them in its role |
| `SeedDb.CheckUsersWhenRegistered` | AuthWebAppNetCore.Web/Data/SeedDb.cs:44-60 | test users who are all registered already are checked without any change |
| `SeedDb.CheckUsersAddsUsers` | AuthWebAppNetCore.Web/Data/SeedDb.cs:39-41 | test users with distinct, acceptable, unused addresses and existing roles are all created without failure |
| `SeedDb.TestUsersAccepted` | AuthWebAppNetCore.Web/Data/SeedDb.cs:39-41 | the three test addresses are accepted as user names and emails, are distinct, and name the Admin or Customer role |
| `SeedDb.Seed` | AuthWebAppNetCore.Web/Data/SeedDb.cs:25-42 | a successful seed leaves countries in place; countries that were already there are kept as they were |
| `SeedDb.SeedRegistersUsers` | AuthWebAppNetCore.Web/Data/SeedDb.cs:25-42 | a successful seed leaves a well-formed store with both roles, and each test user's email finds a user in its role |
| `SeedDb.SeedIdempotent` | AuthWebAppNetCore.Web/Data/SeedDb.cs:25-42 | seeding a seeded database again changes nothing |
| `SeedDb.SeedAddsCountries` | AuthWebAppNetCore.Web/Data/SeedDb.cs:33-36 | a successful seed of an empty set of countries leaves exactly the seed countries with their cities |
| `SeedDb.SeedCountriesWellFormed` | AuthWebAppNetCore.Web/Data/SeedDb.cs:87-103 | adding the thirteen seed countries to well-formed countries keeps country and city keys unique |
| `SeedDb.SeedFreshDatabase` | AuthWebAppNetCore.Web/Data/SeedDb.cs:25-42 | seeding a database with no users and no countries does not fail (what it then holds is stated by `SeedDb.SeedRegistersUsers`) |
| `Time.AddYears` | AuthWebAppNetCore.Web/Controllers/AccountController.cs:356 | adding years keeps the month and time of day, and keeps the day except 29 February in a common year, which becomes the 28th; a year outside 1..9999 is an error |
| `Time.AddYearsIsLater` | AuthWebAppNetCore.Web/Controllers/AccountController.cs:356 | an expiry a positive number of years on is strictly later |
| `Time.LeapDayTenYearsOn` | AuthWebAppNetCore.Web/Controllers/AccountController.cs:356 | ten years on from 29 February 2016 is 28 February 2026 |
| `AccountController.Login` | AuthWebAppNetCore.Web/Controllers/AccountController.cs:63-85 | a valid form whose password sign-in fails re-shows the page with "Failed to login." and changes nothing; a successful sign-in redirects to a non-empty ReturnUrl, or home without one, and an empty ReturnUrl is an ArgumentException after the sign-in was recorded |
| `AccountController.LoginPreservesWellFormed` | AuthWebAppNetCore.Web/Controllers/AccountController.cs:63-85 | a login keeps the store well formed |
| `AccountController.Register` | AuthWebAppNetCore.Web/Controllers/AccountController.cs:118-164 | an invalid form and a taken email change nothing, the taken email reported as already registered; otherwise the confirmation message appears iff the password and the new user are valid, and a refused creation says "The user couldn't be created." and changes nothing; the countries never change |
| `AccountController.RegisterMailsOnlyNewUsers` | AuthWebAppNetCore.Web/Controllers/AccountController.cs:118-164 | registration changes nothing unless it mails, and mails iff it reports success; a mail means exactly one new unconfirmed user under a new id, holding the form's address as email and user name, its names, address, phone, city and password, and exactly one mail to that address whose confirmation link verifies |
| `AccountController.RegisterPreservesWellFormed` | AuthWebAppNetCore.Web/Controllers/AccountController.cs:118-164 | registration keeps the store well formed |
| `AccountController.UnconfirmedCannotLogin` | AuthWebAppNetCore.Web/Startup.cs:35 | a freshly registered user cannot log in before confirming, even with the right password |
| `AccountController.RegisterConfirmLogin` | AuthWebAppNetCore.Web/Controllers/AccountController.cs:146-192 | following the mailed link confirms the new user, whose password sign-in then succeeds with the registration password; the login action signs in iff the ReturnUrl is not empty |
| `AccountController.ConfirmEmail` | AuthWebAppNetCore.Web/Controllers/AccountController.cs:172-192 | the outcome is either not found, with nothing changed, or the confirmation page; mail and countries are untouched |
| `AccountController.ConfirmEmailSucceedsExactly` | AuthWebAppNetCore.Web/Controllers/AccountController.cs:172-192 | confirmation succeeds iff the id and token are non-empty, the id finds a user and the token verifies for that user; only that user then becomes confirmed |
| `AccountController.ConfirmEmailReplay` | AuthWebAppNetCore.Web/Controllers/AccountController.cs:172-192 | following a confirmation link again succeeds and changes nothing |
| `AccountController.ConfirmEmailPreservesWellFormed` | AuthWebAppNetCore.Web/Controllers/AccountController.cs:172-192 | confirmation keeps the store well formed |
| `AccountController.ChangePassword` | AuthWebAppNetCore.Web/Controllers/AccountController.cs:293-320 | the password changes, with a redirect to ChangeUser, iff a signed-in user is found by its name, the old password matches and the new one is valid, and then exactly as setting that password would; an anonymous caller is sent to the not-authorized page, an unknown user gets "User no found.", a wrong old password "Incorrect password.", an invalid new one the first password error; nothing else changes |
| `AccountController.ChangePasswordPreservesWellFormed` | AuthWebAppNetCore.Web/Controllers/AccountController.cs:293-320 | a password change keeps the store well formed |
| `AccountController.ChangePasswordThenLogin` | AuthWebAppNetCore.Web/Controllers/AccountController.cs:293-320 | after a password change the user's password sign-in succeeds with the new password whenever it may sign in at all, and fails with a different old one |
| `AccountController.CreateToken` | AuthWebAppNetCore.Web/Controllers/AccountController.cs:328-370 | a 400 changes nothing; an issued token has the email as subject, the given jti, the configured issuer and audience, expires ten years after now, and was signed with a key of at least 16 UTF-8 bytes |
| `AccountController.CreateTokenIssuesExactly` | AuthWebAppNetCore.Web/Controllers/AccountController.cs:328-370 | a token is issued iff the form is valid, the email finds a confirmed, unlocked user with that password, the expiry year exists and the key has at least 16 bytes; an empty key is an ArgumentException, a late expiry or short key an ArgumentOutOfRange, and nothing else faults; no account is locked or unlocked |
| `AccountController.CreateTokenDistinctJti` | AuthWebAppNetCore.Web/Controllers/AccountController.cs:343-347 | two requests with different jti values both succeed and get different tokens |
| `AccountController.CreateTokenPreservesWellFormed` | AuthWebAppNetCore.Web/Controllers/AccountController.cs:328-370 | issuing a token keeps the store well formed |
| `AccountController.RecoverPassword` | AuthWebAppNetCore.Web/Controllers/AccountController.cs:388-414 | users are never changed; mail is sent iff the "sent to email" message is shown; an unknown email is reported and changes nothing |
| `AccountController.RecoverPasswordMailsResetLink` | AuthWebAppNetCore.Web/Controllers/AccountController.cs:388-414 | one mail is sent iff the form is valid and the email finds a user; it goes to that address, and its reset link verifies for that user |
| `AccountController.ResetPassword` | AuthWebAppNetCore.Web/Controllers/AccountController.cs:431-450 | "User not found." iff the email is blank (bound as null) or no user has it; an ArgumentNull fault iff the token verifies for that user and the password is blank (bound as null); "Password reset successful." iff the token verifies and the new password is valid, and then the password is set exactly as setting it would; otherwise "Error while resetting the password."; every outcome but success changes nothing |
| `AccountController.RecoverThenReset` | AuthWebAppNetCore.Web/Controllers/AccountController.cs:388-450 | the mailed reset link sets a valid new password, and the same link is refused afterwards |
| `AccountController.ResetPasswordPreservesWellFormed` | AuthWebAppNetCore.Web/Controllers/AccountController.cs:431-450 | a password reset keeps the store well formed |
| `AccountController.Index` | AuthWebAppNetCore.Web/Controllers/AccountController.cs:458-463 | an Admin gets the listing of every user once, ordered by first then last name, each flagged as admin iff in the Admin role; anyone else is sent to the not-authorized page; nothing changes |
| `AccountController.GrantAdminShowsInIndex` | AuthWebAppNetCore.Web/Controllers/AccountController.cs:458-509 | after Admin is granted to a user, the Admin listing shows that user and flags it as admin wherever it appears |
| `AccountController.ManageUser` | AuthWebAppNetCore.Web/Controllers/AccountController.cs:470-532 | a non-Admin caller is redirected and changes nothing; an empty or unknown id is not found and changes nothing |
| `AccountController.ManageUserEffect` | AuthWebAppNetCore.Web/Controllers/AccountController.cs:470-532 | on an existing user, granting adds exactly that Admin membership and throws "Role ADMIN does not exist." only when the role is missing; revoking removes exactly it; deleting removes that user and its memberships; everything else is kept |
| `AccountController.ManageUserPreservesWellFormed` | AuthWebAppNetCore.Web/Controllers/AccountController.cs:470-532 | the Admin actions keep the store well formed |

## Left out

- The request pipeline is reduced to its results:
  - Model binding and view-model validation become a `modelValid` input.
  - The signed-in principal becomes an input (`Option<Principal>`).
  - A view becomes a `Page` with its message and model errors.
- Mail sending (SMTP) is an append-only outbox. A link is the action and query
  it carries; URL formatting and the mail HTML are not modelled.
- Hashing, data protection and JWT signing (HMAC-SHA256 with the configured
  key) are foreign code. They are replaced by the stand-ins described above.
  The issued token is its claims and expiry, not its serialized form.
- Token lifetimes are not modelled, since they depend on the clock. This covers
  the one-day lifetime of purpose tokens and the lockout end time. The clock's
  reading for the API token is an input `now`, in whole seconds.
- The jti is an input rather than a new `Guid`. New user ids come from
  `FreshId`, a deterministic stand-in that is longer than every id in use.
- String comparison is exact and ordinal, so database collation is not
  modelled:
  - email lookup is case-sensitive here;
  - sort order is by code point. Ordinal .NET order compares UTF-16 code
    units, which differs only between code points above U+FFFF and those from
    U+E000 to U+FFFF.
- `Identity.FindByName`: the framework looks user names up through their
  `ToUpperInvariant` normalization, so its lookup ignores case. The model
  compares exactly, so `"Bob"` does not find `"bob"` here.
- `Identity.NormalizeKey`: `ToUpperInvariant` also upper-cases letters
  outside ASCII (`"é"` becomes `"É"`); the model maps only `a` to `z`.
- `Identity.UserErrors`: the framework's duplicate checks go through the same
  normalized lookups, so `"Bob@x.com"` and `"bob@x.com"` collide there. The
  model treats them as different and states no case-insensitive uniqueness.
- `UserHelper.GetUserByEmail`: the framework's email lookup is normalized the
  same way; the model's is exact.
- `CountryRepository.GetComboCities`: the city items are sorted in memory by
  `OrderBy` on the text, which uses the current culture's comparer, so
  `"berlin"` comes before `"Zurich"` there. The model orders by code point,
  which puts `"Zurich"` first. The country combo is sorted by the database
  and is covered by the collation line above.
- `Ordering.SortByKey`: LINQ's `OrderBy` is stable, but the model proves only
  that the result is a sorted permutation. The relative order of users with
  the same first and last name is not stated.
- Strings are sequences of Unicode scalar values. A .NET string holding an
  unpaired surrogate cannot be represented.
- Ids are unbounded integers; 32-bit overflow of `int` keys is not modelled.
- Entity Framework behaviour is reduced to sequences:
  - the database assigns a new city the next free key;
  - a navigation collection that is not loaded is `None`;
  - change tracking and `SaveChanges` are not modelled.
- `GetComboCities` uses `Countries.Find` without `Include`. In Entity Framework
  that can leave `Cities` null unless the context already tracks them. The
  model reads the cities as stored.
- `UpdateCityAsync` writes through a detached `City` that carries no country
  key. The model keeps the city with its owner.
- `SeedDb.AddUser`: on a later start the first country's cities are not
  loaded, so `Countries.FirstOrDefault().Cities` is null. This is modelled as
  the ArgumentNull failure of `SeedDb.FirstCity`. Whether the data context has
  them loaded is an input (`cities: None`).
- `SeedDb.SeedAddsCountries` states equality with the result of
  `AddCountriesAndCities` rather than listing the thirteen countries again. The
  names and cities of each seed country follow from the contract of
  `SeedDb.AddCountries`.
- `EnsureCreatedAsync` and the delete behaviour configured in `DataContext`
  (cascade turned into restrict) are not modelled: deleting a user removes its
  record and memberships only. The one consequence modelled is that a city a
  user references cannot be deleted; which city keys users reference is an
  input of `CountryRepository.DeleteCity`.
- Not modelled: the GET actions that only render a view, `Logout`,
  `ChangeUser`, `GetCitiesAsync` and `NotAuthorized`, and `UpdateUserAsync`
  except as the record write behind confirmation and password changes.
- The login redirect to a caller-supplied `ReturnUrl` is modelled as written,
  with no local-URL check. A query with several `ReturnUrl` values is reduced
  to its first.
- `AccountController.CreateToken`: a missing `Tokens:Key` setting (null) is
  not modelled; the key is always a string. Key sizes are measured in UTF-8
  bytes as `Encoding.UTF8.GetBytes` produces them.
- Concurrency between requests is not modelled. Each action is one atomic
  transition.
