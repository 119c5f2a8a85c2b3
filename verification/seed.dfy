/** `SeedDb`: the start-up seeding of the database — the two roles, the
    countries with their cities on an empty database, and three test users
    that are created confirmed and put in their role when missing. */
module SeedDb {
  import opened Wrappers
  import opened Entities
  import opened Identity
  import UserHelper
  import CountryRepository

  /** What the seeder works on: the identity store and the countries the data context sees. */
  datatype Db = Db(identity: State, countries: seq<Country>)

  /** A user the seeder looked up or created, and the database after it. */
  datatype Seeded = Seeded(db: Db, user: User)

  const SeedPassword: string := "123456"
  const SeedAddress: string := "Calle Luna Calle Sol"
  const SeedPhoneNumber: string := "350 634 2747"
  const SeedFailure: string := "Could not create the user in seeder"

  /** The countries and cities put into an empty database, in the order they are added. */
  function SeedCountries(): seq<(string, seq<string>)>
  {
    [
      ("Argentina", ["Córdoba", "Buenos Aires", "Rosario", "Tandil", "Salta", "Mendoza"]),
      ("Bolivia", ["La Paz", "Sucre", "Potosi", "Cochabamba"]),
      ("Brasil", ["Rio de Janeiro", "São Paulo", "Salvador", "Porto Alegre", "Curitiba", "Recife", "Belo Horizonte", "Fortaleza"]),
      ("Chile", ["Santiago", "Valdivia", "Concepción", "Puerto Montt", "Temuco", "La Serena", "Chillán"]),
      ("Colombia", ["Medellín", "Bogota", "Calí", "Barranquilla", "Bucaramanga", "Cartagena", "Pereira"]),
      ("Ecuador", ["Quito", "Guayaquil", "Ambato", "Manta", "Loja", "Santo"]),
      ("Estados Unidos", ["New York", "Los Ángeles", "Chicago", "Washington", "San Francisco", "Miami", "Boston"]),
      ("Panamá", ["Chitré", "Santiago", "La Arena", "Agua Dulce", "Monagrillo", "Ciudad de Panamá", "Colón", "Los Santos"]),
      ("Paraguay", ["Asunción", "Ciudad del Este", "Encarnación", "San  Lorenzo", "Luque", "Areguá"]),
      ("Peru", ["Lima", "Arequipa", "Cusco", "Trujillo", "Chiclayo", "Iquitos"]),
      ("México", ["Guadalajara", "Ciudad de México", "Monterrey", "Ciudad Obregón", "Hermosillo", "La Paz", "Culiacán", "Los Mochis"]),
      ("Uruguay", ["Montevideo", "Punta del Este", "Colonia del Sacramento", "Las Piedras"]),
      ("Venezuela", ["Caracas", "Valencia", "Maracaibo", "Ciudad Bolivar", "Maracay", "Barquisimeto"])
    ]
  }

  // ------------------------------------------------------------------- roles

  lemma RoleNamesNotBlank()
    ensures !IsBlank(AdminRole) && !IsBlank(CustomerRole)
  {
    assert !IsWhiteSpace(AdminRole[0]);
    assert !IsWhiteSpace(CustomerRole[0]);
  }

  /** `CheckRoles`: afterwards both roles exist, and nothing else has changed. */
  function CheckRoles(st: State): (r: State)
    ensures AdminRole in r.roles && CustomerRole in r.roles
    ensures st.roles <= r.roles <= st.roles + {AdminRole, CustomerRole}
    ensures r.users == st.users && r.userRoles == st.userRoles
    ensures AdminRole in st.roles && CustomerRole in st.roles ==> r == st
  {
    RoleNamesNotBlank();
    UserHelper.CheckRole(UserHelper.CheckRole(st, AdminRole), CustomerRole)
  }

  // --------------------------------------------------------------- countries

  function CityNames(cities: seq<City>): seq<string>
  {
    seq(|cities|, k requires 0 <= k < |cities| => cities[k].name)
  }

  /** The largest country id in use, or 0. */
  function MaxCountryId(cs: seq<Country>): (m: int)
    ensures m >= 0
    ensures forall i :: 0 <= i < |cs| ==> cs[i].id <= m
  {
    if |cs| == 0 then 0
    else
      var rest := MaxCountryId(cs[1..]);
      assert forall i :: 1 <= i < |cs| ==> cs[i] == cs[1..][i - 1];
      if cs[0].id > rest then cs[0].id else rest
  }

  /** `AddCountry`: a new country holding one new city per name, in order;
      the keys are the ones the database hands out on save. */
  function AddCountry(cs: seq<Country>, name: string, cityNames: seq<string>): (r: seq<Country>)
    ensures |r| == |cs| + 1 && r[..|cs|] == cs
    ensures r[|cs|].name == name && r[|cs|].cities.Some?
    ensures CityNames(CitiesOf(r[|cs|])) == cityNames
    ensures forall i :: 0 <= i < |cs| ==> cs[i].id != r[|cs|].id
  {
    var first := CountryRepository.NextCityId(cs);
    var cities := seq(|cityNames|, k requires 0 <= k < |cityNames| => City(first + k, cityNames[k]));
    assert CityNames(cities) == cityNames;
    cs + [Country(MaxCountryId(cs) + 1, name, Some(cities))]
  }

  /** Adds the countries of `entries` one after the other. */
  function AddCountries(cs: seq<Country>, entries: seq<(string, seq<string>)>): (r: seq<Country>)
    ensures |r| == |cs| + |entries| && r[..|cs|] == cs
    ensures forall j :: 0 <= j < |entries| ==>
      r[|cs| + j].name == entries[j].0 && CityNames(CitiesOf(r[|cs| + j])) == entries[j].1
    decreases |entries|
  {
    if |entries| == 0 then cs
    else
      var next := AddCountry(cs, entries[0].0, entries[0].1);
      var r := AddCountries(next, entries[1..]);
      assert r[..|cs|] == r[..|next|][..|cs|];
      assert r[|cs|] == r[..|next|][|cs|] == next[|cs|];
      forall j | 1 <= j < |entries|
        ensures r[|cs| + j].name == entries[j].0 && CityNames(CitiesOf(r[|cs| + j])) == entries[j].1
      {
        assert r[|cs| + j] == r[|next| + (j - 1)] && entries[j] == entries[1..][j - 1];
      }
      r
  }

  /** `AddCountriesAndCitiesAsync`. */
  function AddCountriesAndCities(cs: seq<Country>): (r: seq<Country>)
    ensures |r| == |cs| + 13
  {
    AddCountries(cs, SeedCountries())
  }

  /** Countries whose city ids lie on either side of `first` share no city. */
  lemma SeparatedCountriesDisjoint(c: Country, d: Country, first: int)
    requires forall k :: 0 <= k < |CitiesOf(c)| ==> CitiesOf(c)[k].id < first
    requires forall k :: 0 <= k < |CitiesOf(d)| ==> CitiesOf(d)[k].id >= first
    ensures CountryRepository.NoSharedCity(c, d) && CountryRepository.NoSharedCity(d, c)
  {
  }

  /** Appending a country with a new id and its own new cities keeps the keys unique. */
  lemma AppendCountryPreservesWellFormed(cs: seq<Country>, c: Country)
    requires CountryRepository.WellFormed(cs)
    requires c.id >= 1 && c.cities.Some? && CountryRepository.CityIdsOk(CitiesOf(c))
    requires forall i :: 0 <= i < |cs| ==> cs[i].id != c.id
    requires forall i :: 0 <= i < |cs| ==> CountryRepository.NoSharedCity(cs[i], c) && CountryRepository.NoSharedCity(c, cs[i])
    ensures CountryRepository.WellFormed(cs + [c])
  {
    var r := cs + [c];
    assert forall i :: 0 <= i < |cs| ==> r[i] == cs[i];
    forall i, j | 0 <= i < |r| && 0 <= j < |r| && i != j
      ensures CountryRepository.NoSharedCity(r[i], r[j])
    {
      if i < |cs| && j < |cs| {
        assert CountryRepository.NoSharedCity(cs[i], cs[j]);
      }
    }
  }

  /** Adding a country keeps country and city keys unique. */
  lemma AddCountryPreservesWellFormed(cs: seq<Country>, name: string, cityNames: seq<string>)
    requires CountryRepository.WellFormed(cs)
    ensures CountryRepository.WellFormed(AddCountry(cs, name, cityNames))
  {
    var r := AddCountry(cs, name, cityNames);
    var c := r[|cs|];
    var first := CountryRepository.NextCityId(cs);
    assert r == cs + [c];
    assert forall k :: 0 <= k < |CitiesOf(c)| ==> CitiesOf(c)[k].id == first + k;
    forall i | 0 <= i < |cs|
      ensures CountryRepository.NoSharedCity(cs[i], c) && CountryRepository.NoSharedCity(c, cs[i])
    {
      SeparatedCountriesDisjoint(cs[i], c, first);
    }
    AppendCountryPreservesWellFormed(cs, c);
  }

  lemma {:induction false} AddCountriesPreservesWellFormed(cs: seq<Country>, entries: seq<(string, seq<string>)>)
    requires CountryRepository.WellFormed(cs)
    ensures CountryRepository.WellFormed(AddCountries(cs, entries))
    decreases |entries|
  {
    if |entries| > 0 {
      AddCountryPreservesWellFormed(cs, entries[0].0, entries[0].1);
      AddCountriesPreservesWellFormed(AddCountry(cs, entries[0].0, entries[0].1), entries[1..]);
    }
  }

  // ------------------------------------------------------------------- users

  /** `after` keeps every user record, role and membership of `before`. */
  ghost predicate Grows(before: State, after: State)
  {
    && (forall v :: v in before.users ==> v in after.users)
    && before.roles <= after.roles
    && before.userRoles <= after.userRoles
  }

  /** The user the email finds is in the role. */
  predicate Registered(st: State, email: string, role: string)
  {
    match UserHelper.GetUserByEmail(st, email)
    case None => false
    case Some(u) => IsInRole(st, u, role)
  }

  /** `Countries.FirstOrDefault().Cities.FirstOrDefault()`: the first city of
      the first country, or none when that country has no city. No country
      is a null dereference, a country whose cities are not loaded a null
      argument. */
  function FirstCity(cs: seq<Country>): (r: Result<Option<City>, Exception>)
    ensures |cs| == 0 ==> r == Failure(NullReference)
    ensures |cs| > 0 && cs[0].cities.None? ==> r == Failure(ArgumentNull)
    ensures r == Success(None) <==> |cs| > 0 && cs[0].cities == Some([])
    ensures r.Success? && r.value.Some? ==> |CitiesOf(cs[0])| > 0 && r.value.value == CitiesOf(cs[0])[0]
  {
    if |cs| == 0 then Failure(NullReference)
    else match cs[0].cities
      case None => Failure(ArgumentNull)
      case Some(cities) => Success(if |cities| == 0 then None else Some(cities[0]))
  }

  /** The user `AddUser` builds before saving it. */
  function NewSeedUser(st: State, userName: string, firstName: string, lastName: string, city: Option<City>): User
  {
    User(FreshId(st.users), userName, userName, firstName, lastName, SeedAddress, SeedPhoneNumber,
         city, false, "", "", 0, false)
  }

  /** What follows a successful creation: the role, then the email confirmed
      with a freshly generated token. Only a missing role can fail. */
  function Enrol(db: Db, stored: User, role: string): (r: Result<Seeded, Exception>)
    ensures r.Failure? <==> !IsInRole(db.identity, stored, role) && role !in db.identity.roles
    ensures r.Success? ==> r.value.user == stored.(emailConfirmed := true) && r.value.db.countries == db.countries
  {
    match AddToRole(db.identity, stored, role)
    case Failure(e) => Failure(e)
    case Success(added) =>
      var confirmed := ConfirmEmail(added.state, stored, GenerateToken(stored, EmailConfirmation));
      Success(Seeded(db.(identity := confirmed.state), stored.(emailConfirmed := true)))
  }

  /** `AddUser`: creates the user with the seed password in the first city of
      the first country, puts it in the role and confirms its email. A refused
      creation is an invalid operation. */
  function AddUser(db: Db, userName: string, firstName: string, lastName: string, role: string): (r: Result<Seeded, Exception>)
    ensures FirstCity(db.countries).Failure? ==> r == Failure(FirstCity(db.countries).error)
    ensures && FirstCity(db.countries).Success?
            && CreateUser(db.identity, NewSeedUser(db.identity, userName, firstName, lastName, FirstCity(db.countries).value), SeedPassword).result.Failed?
            ==> r == Failure(InvalidOperation(SeedFailure))
    ensures r.Success? ==>
      && FirstCity(db.countries).Success?
      && CreateUser(db.identity, NewSeedUser(db.identity, userName, firstName, lastName, FirstCity(db.countries).value), SeedPassword).result.Succeeded?
      && r.value.db.countries == db.countries
  {
    match FirstCity(db.countries)
    case Failure(e) => Failure(e)
    case Success(city) =>
      var u := NewSeedUser(db.identity, userName, firstName, lastName, city);
      var created := CreateUser(db.identity, u, SeedPassword);
      if created.result.Failed? then Failure(InvalidOperation(SeedFailure))
      else Enrol(db.(identity := created.state), AsCreated(u, SeedPassword), role)
  }

  /** `CheckUserAsync`: looks the user up by email, creates it when missing,
      and puts it in the role when it is not there yet. */
  function CheckUser(db: Db, userName: string, firstName: string, lastName: string, role: string): (r: Result<Seeded, Exception>)
    ensures r.Success? ==> r.value.db.countries == db.countries
    ensures Registered(db.identity, userName, role) ==>
      r == Success(Seeded(db, UserHelper.GetUserByEmail(db.identity, userName).value))
  {
    var found := UserHelper.GetUserByEmail(db.identity, userName);
    var looked := if found.Some? then Success(Seeded(db, found.value)) else AddUser(db, userName, firstName, lastName, role);
    match looked
    case Failure(e) => Failure(e)
    case Success(s) =>
      if IsInRole(s.db.identity, s.user, role) then Success(s)
      else
        match AddToRole(s.db.identity, s.user, role)
        case Failure(e) => Failure(e)
        case Success(upd) => Success(Seeded(s.db.(identity := upd.state), s.user))
  }

  /** A test user of the seed: email (also the user name), names and role. */
  datatype TestUser = TestUser(email: string, firstName: string, lastName: string, role: string)

  const TestUsers: seq<TestUser> := [
    TestUser("admin@gmail.com", "Isaac", "Rebolledo", AdminRole),
    TestUser("brad@gmail.com", "Brad", "Pit", CustomerRole),
    TestUser("angelina@gmail.com", "Angelina", "Jolie", CustomerRole)
  ]

  /** `CheckUserAsync` for each test user in turn; the first exception stops the seed. */
  function CheckUsers(db: Db, users: seq<TestUser>): (r: Result<Db, Exception>)
    ensures r.Success? ==> r.value.countries == db.countries
    decreases |users|
  {
    if |users| == 0 then Success(db)
    else
      match CheckUser(db, users[0].email, users[0].firstName, users[0].lastName, users[0].role)
      case Failure(e) => Failure(e)
      case Success(s) => CheckUsers(s.db, users[1..])
  }

  /** The countries the seed works with: the seed countries when there are none. */
  function CountriesToSeed(cs: seq<Country>): seq<Country>
  {
    if |cs| == 0 then AddCountriesAndCities(cs) else cs
  }

  /** `SeedAsync`: the roles, the countries when there are none, then the test users. */
  function Seed(db: Db): (r: Result<Db, Exception>)
    ensures r.Success? ==>
      && |r.value.countries| > 0
      && (|db.countries| > 0 ==> r.value.countries == db.countries)
  {
    CheckUsers(Db(CheckRoles(db.identity), CountriesToSeed(db.countries)), TestUsers)
  }

  // ------------------------------------------------------------------ lemmas

  /** After a successful enrolment the confirmed user is stored and in the
      role, and every earlier record, role and membership is kept. */
  lemma EnrolOutcome(db: Db, st: State, stored: User, role: string)
    requires db.identity == st.(users := st.users + [stored])
    requires stored.id !in UserIds(st.users)
    requires Enrol(db, stored, role).Success?
    ensures var s := Enrol(db, stored, role).value;
      && s.user in s.db.identity.users
      && IsInRole(s.db.identity, s.user, role)
      && Grows(st, s.db.identity)
  {
    var added := AddToRole(db.identity, stored, role).value;
    var confirmed := ConfirmEmail(added.state, stored, GenerateToken(stored, EmailConfirmation));
    assert added.state.users == st.users + [stored];
    assert confirmed.state.users[|st.users|] == stored.(emailConfirmed := true);
    forall v | v in st.users ensures v in confirmed.state.users {
      var i :| 0 <= i < |st.users| && st.users[i] == v;
      assert confirmed.state.users[i] == v;
    }
  }

  /** A user the seeder creates is stored under a new id, with the email as
      user name, confirmed, with the seed password and in the role; every
      earlier record, role and membership is kept. */
  lemma AddUserOutcome(db: Db, userName: string, firstName: string, lastName: string, role: string)
    requires AddUser(db, userName, firstName, lastName, role).Success?
    ensures var s := AddUser(db, userName, firstName, lastName, role).value;
      && s.user in s.db.identity.users
      && s.user.id !in UserIds(db.identity.users)
      && s.user.userName == userName && s.user.email == userName
      && s.user.firstName == firstName && s.user.lastName == lastName
      && s.user.emailConfirmed
      && PasswordOk(s.user, SeedPassword)
      && IsInRole(s.db.identity, s.user, role)
      && Grows(db.identity, s.db.identity)
  {
    var st := db.identity;
    var u := NewSeedUser(st, userName, firstName, lastName, FirstCity(db.countries).value);
    var created := CreateUser(st, u, SeedPassword);
    assert created.state == st.(users := st.users + [AsCreated(u, SeedPassword)]);
    EnrolOutcome(db.(identity := created.state), st, AsCreated(u, SeedPassword), role);
  }

  /** After a successful `CheckUser` the returned user is stored, has the
      email and is in the role, and the store has only grown. */
  lemma CheckUserOutcome(db: Db, userName: string, firstName: string, lastName: string, role: string)
    requires CheckUser(db, userName, firstName, lastName, role).Success?
    ensures var s := CheckUser(db, userName, firstName, lastName, role).value;
      && s.user in s.db.identity.users
      && s.user.email == userName
      && IsInRole(s.db.identity, s.user, role)
      && Grows(db.identity, s.db.identity)
  {
    if UserHelper.GetUserByEmail(db.identity, userName).None? {
      AddUserOutcome(db, userName, firstName, lastName, role);
    }
  }

  lemma AddUserPreservesWellFormed(db: Db, userName: string, firstName: string, lastName: string, role: string)
    requires WellFormed(db.identity)
    requires AddUser(db, userName, firstName, lastName, role).Success?
    ensures WellFormed(AddUser(db, userName, firstName, lastName, role).value.db.identity)
  {
    var st := db.identity;
    var u := NewSeedUser(st, userName, firstName, lastName, FirstCity(db.countries).value);
    var created := CreateUser(st, u, SeedPassword);
    var stored := AsCreated(u, SeedPassword);
    CreateUserPreservesWellFormed(st, u, SeedPassword);
    assert created.state.users[|st.users|] == stored;
    assert stored.id in UserIds(created.state.users);
    AddToRolePreservesWellFormed(created.state, stored, role);
    var added := AddToRole(created.state, stored, role).value;
    forall v | v in added.state.users && v.id == stored.id
      ensures v.email == stored.email && v.userName == stored.userName
    {
      IdDeterminesUser(added.state, v, stored);
    }
    ReplaceUserPreservesWellFormed(added.state, stored.(emailConfirmed := true));
  }

  lemma CheckUserPreservesWellFormed(db: Db, userName: string, firstName: string, lastName: string, role: string)
    requires WellFormed(db.identity)
    requires CheckUser(db, userName, firstName, lastName, role).Success?
    ensures WellFormed(CheckUser(db, userName, firstName, lastName, role).value.db.identity)
  {
    var found := UserHelper.GetUserByEmail(db.identity, userName);
    var s := if found.Some? then Seeded(db, found.value) else AddUser(db, userName, firstName, lastName, role).value;
    if found.None? {
      AddUserPreservesWellFormed(db, userName, firstName, lastName, role);
      AddUserOutcome(db, userName, firstName, lastName, role);
    }
    if !IsInRole(s.db.identity, s.user, role) {
      assert s.user.id in UserIds(s.db.identity.users);
      AddToRolePreservesWellFormed(s.db.identity, s.user, role);
    }
  }

  /** In well-formed stores, a registration survives any growth of the store. */
  lemma RegisteredKept(st: State, st': State, email: string, role: string)
    requires WellFormed(st) && WellFormed(st') && Grows(st, st')
    requires Registered(st, email, role)
    ensures Registered(st', email, role)
  {
    var u := UserHelper.GetUserByEmail(st, email).value;
    UserHelper.LookupsExact(st', u);
  }

  /** After a successful `CheckUser` the email finds a user of the role. */
  lemma CheckUserRegisters(db: Db, userName: string, firstName: string, lastName: string, role: string)
    requires WellFormed(db.identity)
    requires CheckUser(db, userName, firstName, lastName, role).Success?
    ensures Registered(CheckUser(db, userName, firstName, lastName, role).value.db.identity, userName, role)
  {
    var s := CheckUser(db, userName, firstName, lastName, role).value;
    CheckUserPreservesWellFormed(db, userName, firstName, lastName, role);
    CheckUserOutcome(db, userName, firstName, lastName, role);
    UserHelper.LookupsExact(s.db.identity, s.user);
  }

  /** Checking a list of users keeps the store well formed, keeps every
      earlier registration and registers each listed user. */
  lemma {:induction false} CheckUsersRegisters(db: Db, users: seq<TestUser>)
    requires WellFormed(db.identity)
    requires CheckUsers(db, users).Success?
    ensures WellFormed(CheckUsers(db, users).value.identity)
    ensures Grows(db.identity, CheckUsers(db, users).value.identity)
    ensures forall t :: t in users ==> Registered(CheckUsers(db, users).value.identity, t.email, t.role)
    decreases |users|
  {
    if |users| > 0 {
      var t := users[0];
      var s := CheckUser(db, t.email, t.firstName, t.lastName, t.role).value;
      var r := CheckUsers(db, users).value;
      CheckUserPreservesWellFormed(db, t.email, t.firstName, t.lastName, t.role);
      CheckUserOutcome(db, t.email, t.firstName, t.lastName, t.role);
      CheckUserRegisters(db, t.email, t.firstName, t.lastName, t.role);
      CheckUsersRegisters(s.db, users[1..]);
      RegisteredKept(s.db.identity, r.identity, t.email, t.role);
      forall u | u in users ensures Registered(r.identity, u.email, u.role) {
        if u != t {
          assert u in users[1..];
        }
      }
    }
  }

  /** Checking users that are all registered already changes nothing. */
  lemma {:induction false} CheckUsersWhenRegistered(db: Db, users: seq<TestUser>)
    requires forall t :: t in users ==> Registered(db.identity, t.email, t.role)
    ensures CheckUsers(db, users) == Success(db)
    decreases |users|
  {
    if |users| > 0 {
      assert forall t :: t in users[1..] ==> t in users;
      CheckUsersWhenRegistered(db, users[1..]);
    }
  }

  /** A successful seed leaves a well-formed store in which each test user's
      email finds a user of its role, and both roles exist. */
  lemma SeedRegistersUsers(db: Db)
    requires WellFormed(db.identity)
    requires Seed(db).Success?
    ensures WellFormed(Seed(db).value.identity)
    ensures AdminRole in Seed(db).value.identity.roles && CustomerRole in Seed(db).value.identity.roles
    ensures forall t :: t in TestUsers ==> Registered(Seed(db).value.identity, t.email, t.role)
  {
    SeedUsersRegistered(db.identity, CountriesToSeed(db.countries), TestUsers);
  }

  /** `SeedRegistersUsers` for any countries and any list of users. */
  lemma SeedUsersRegistered(st: State, cs: seq<Country>, users: seq<TestUser>)
    requires WellFormed(st)
    requires CheckUsers(Db(CheckRoles(st), cs), users).Success?
    ensures var r := CheckUsers(Db(CheckRoles(st), cs), users).value.identity;
      && WellFormed(r)
      && AdminRole in r.roles && CustomerRole in r.roles
      && forall t :: t in users ==> Registered(r, t.email, t.role)
  {
    CheckUsersRegisters(Db(CheckRoles(st), cs), users);
  }

  /** Seeding a seeded database changes nothing. */
  lemma SeedIdempotent(db: Db)
    requires WellFormed(db.identity)
    requires Seed(db).Success?
    ensures Seed(Seed(db).value) == Seed(db)
  {
    var r := Seed(db).value;
    SeedRegistersUsers(db);
    assert CheckRoles(r.identity) == r.identity;
    CheckUsersWhenRegistered(r, TestUsers);
  }

  /** The seed countries keep country and city keys unique. */
  lemma SeedCountriesWellFormed(cs: seq<Country>)
    requires CountryRepository.WellFormed(cs)
    ensures CountryRepository.WellFormed(AddCountriesAndCities(cs))
  {
    AddCountriesPreservesWellFormed(cs, SeedCountries());
  }

  /** Seeding an empty set of countries adds exactly the seed countries, with
      their cities in order (by the contract of `AddCountries`); their keys are
      unique by `SeedCountriesWellFormed`. */
  lemma SeedAddsCountries(db: Db)
    requires |db.countries| == 0
    requires Seed(db).Success?
    ensures Seed(db).value.countries == AddCountriesAndCities(db.countries)
  {
    assert CountriesToSeed(db.countries) == AddCountriesAndCities(db.countries);
  }

  /** An address the identity options accept as both user name and email. */
  predicate AcceptedName(s: string)
  {
    !IsBlank(s) && (forall i :: 0 <= i < |s| ==> IsUserNameChar(s[i])) && IsEmailAddress(s)
  }

  /** A user whose name and email are new, acceptable and given an existing
      role is created by `CheckUser`; every other record it leaves is one
      that was there before. */
  lemma CheckUserAddsUser(db: Db, userName: string, firstName: string, lastName: string, role: string)
    requires FirstCity(db.countries).Success?
    requires role in db.identity.roles
    requires AcceptedName(userName)
    requires forall v :: v in db.identity.users ==> v.userName != userName && v.email != userName
    ensures CheckUser(db, userName, firstName, lastName, role).Success?
    ensures var s := CheckUser(db, userName, firstName, lastName, role).value;
      && s.db.identity.roles == db.identity.roles
      && s.db.countries == db.countries
      && forall v :: v in s.db.identity.users ==> v in db.identity.users || (v.userName == userName && v.email == userName)
  {
    AddUserAddsUser(db, userName, firstName, lastName, role);
    AddUserOutcome(db, userName, firstName, lastName, role);
  }

  /** `AddUser` on a fresh, acceptable address and an existing role succeeds,
      keeps the roles and adds no record but the new user's. */
  lemma AddUserAddsUser(db: Db, userName: string, firstName: string, lastName: string, role: string)
    requires FirstCity(db.countries).Success?
    requires role in db.identity.roles
    requires AcceptedName(userName)
    requires forall v :: v in db.identity.users ==> v.userName != userName && v.email != userName
    ensures AddUser(db, userName, firstName, lastName, role).Success?
    ensures var s := AddUser(db, userName, firstName, lastName, role).value;
      && s.db.identity.roles == db.identity.roles
      && forall v :: v in s.db.identity.users ==> v in db.identity.users || (v.userName == userName && v.email == userName)
  {
    var st := db.identity;
    var u := NewSeedUser(st, userName, firstName, lastName, FirstCity(db.countries).value);
    NewSeedUserCreated(db, userName, firstName, lastName);
    var stored := AsCreated(u, SeedPassword);
    var next := db.(identity := st.(users := st.users + [stored]));
    EnrolKeepsOthers(next, st, stored, role);
  }

  /** The seeder's own password and a fresh, acceptable address pass every
      validator, so the creation succeeds. */
  lemma NewSeedUserCreated(db: Db, userName: string, firstName: string, lastName: string)
    requires FirstCity(db.countries).Success?
    requires AcceptedName(userName)
    requires forall v :: v in db.identity.users ==> v.userName != userName && v.email != userName
    ensures CreateUser(db.identity, NewSeedUser(db.identity, userName, firstName, lastName, FirstCity(db.countries).value), SeedPassword).result.Succeeded?
  {
    var u := NewSeedUser(db.identity, userName, firstName, lastName, FirstCity(db.countries).value);
    assert !IsWhiteSpace(SeedPassword[0]);
    assert PasswordErrors(SeedPassword) == [];
    assert UserErrors(db.identity, u) == [];
  }

  /** Enrolling keeps the roles, and the only record it adds is the
      confirmed new user. */
  lemma EnrolKeepsOthers(db: Db, st: State, stored: User, role: string)
    requires db.identity == st.(users := st.users + [stored])
    requires Enrol(db, stored, role).Success?
    ensures var s := Enrol(db, stored, role).value;
      && s.db.identity.roles == st.roles
      && forall v :: v in s.db.identity.users ==> v in st.users || v == stored.(emailConfirmed := true)
  {
    var added := AddToRole(db.identity, stored, role).value;
    var confirmed := ConfirmEmail(added.state, stored, GenerateToken(stored, EmailConfirmation));
    forall v | v in confirmed.state.users
      ensures v in st.users || v == stored.(emailConfirmed := true)
    {
      var k :| 0 <= k < |confirmed.state.users| && confirmed.state.users[k] == v;
      assert v == added.state.users[k] || v == stored.(emailConfirmed := true);
      assert added.state.users[k] in st.users + [stored];
    }
  }

  /** Users with distinct, acceptable and unused addresses and existing roles
      are all created: checking them cannot fail. */
  lemma {:induction false} CheckUsersAddsUsers(db: Db, users: seq<TestUser>)
    requires FirstCity(db.countries).Success?
    requires forall i :: 0 <= i < |users| ==> users[i].role in db.identity.roles
    requires forall i :: 0 <= i < |users| ==> AcceptedName(users[i].email)
    requires forall i, v :: 0 <= i < |users| && v in db.identity.users ==> v.userName != users[i].email && v.email != users[i].email
    requires forall i, j :: 0 <= i < j < |users| ==> users[i].email != users[j].email
    ensures CheckUsers(db, users).Success?
    decreases |users|
  {
    if |users| > 0 {
      var t := users[0];
      CheckUserAddsUser(db, t.email, t.firstName, t.lastName, t.role);
      var s := CheckUser(db, t.email, t.firstName, t.lastName, t.role).value;
      var rest := users[1..];
      assert s.db.countries == db.countries && s.db.identity.roles == db.identity.roles;
      forall j | 0 <= j < |rest| ensures rest[j].role in s.db.identity.roles && AcceptedName(rest[j].email) {
        assert users[j + 1] == rest[j];
      }
      forall j, v | 0 <= j < |rest| && v in s.db.identity.users
        ensures v.userName != rest[j].email && v.email != rest[j].email
      {
        assert users[j + 1] == rest[j];
        assert users[0].email != users[j + 1].email;
        assert v in db.identity.users || (v.userName == t.email && v.email == t.email);
      }
      forall i, j | 0 <= i < j < |rest| ensures rest[i].email != rest[j].email {
        assert rest[i] == users[i + 1] && rest[j] == users[j + 1];
      }
      CheckUsersAddsUsers(s.db, rest);
    }
  }

  /** An address with one '@', at `k`, and otherwise only letters, digits and `-._+`. */
  lemma AcceptedNameAt(s: string, k: nat)
    requires 0 < k < |s| - 1 && s[k] == '@'
    requires !IsWhiteSpace(s[0])
    requires forall i :: 0 <= i < |s| ==> IsUserNameChar(s[i])
    requires forall i :: 0 <= i < |s| && i != k ==> s[i] != '@'
    ensures AcceptedName(s)
  {
  }

  lemma AdminEmailAccepted()
    ensures AcceptedName("admin@gmail.com")
  {
    AcceptedNameAt("admin@gmail.com", 5);
  }

  lemma BradEmailAccepted()
    ensures AcceptedName("brad@gmail.com")
  {
    AcceptedNameAt("brad@gmail.com", 4);
  }

  lemma AngelinaEmailAccepted()
    ensures AcceptedName("angelina@gmail.com")
  {
    AcceptedNameAt("angelina@gmail.com", 8);
  }

  lemma TestUserEmails()
    ensures |TestUsers| == 3
    ensures TestUsers[0].email == "admin@gmail.com" && TestUsers[0].role == AdminRole
    ensures TestUsers[1].email == "brad@gmail.com" && TestUsers[1].role == CustomerRole
    ensures TestUsers[2].email == "angelina@gmail.com" && TestUsers[2].role == CustomerRole
  {
  }

  /** The test users' addresses are acceptable and distinct. */
  lemma TestUsersAccepted()
    ensures forall i :: 0 <= i < |TestUsers| ==> AcceptedName(TestUsers[i].email)
    ensures forall i, j :: 0 <= i < j < |TestUsers| ==> TestUsers[i].email != TestUsers[j].email
    ensures forall i :: 0 <= i < |TestUsers| ==> TestUsers[i].role == AdminRole || TestUsers[i].role == CustomerRole
  {
    TestUserEmails();
    AdminEmailAccepted();
    BradEmailAccepted();
    AngelinaEmailAccepted();
    var a, b, c := TestUsers[0].email, TestUsers[1].email, TestUsers[2].email;
    assert a[0] != b[0] && b[0] != c[0] && a[1] != c[1];
  }

  /** The first seeded country has cities. */
  lemma SeededFirstCity(cs: seq<Country>)
    requires cs == []
    ensures FirstCity(AddCountriesAndCities(cs)).Success?
  {
    var r := AddCountriesAndCities(cs);
    assert CityNames(CitiesOf(r[0])) == SeedCountries()[0].1;
    assert |SeedCountries()[0].1| == 6;
  }

  /** With no users yet, both roles present and a first city to give them,
      every test user is created. */
  lemma CheckTestUsersOnEmptyStore(d: Db)
    requires d.identity.users == []
    requires AdminRole in d.identity.roles && CustomerRole in d.identity.roles
    requires FirstCity(d.countries).Success?
    ensures CheckUsers(d, TestUsers).Success?
  {
    TestUsersAccepted();
    CheckUsersAddsUsers(d, TestUsers);
  }

  /** Seeding a database without users or countries succeeds (and so, by
      `SeedRegistersUsers`, registers each test user in its role). */
  lemma SeedFreshDatabase(db: Db)
    requires db.identity.users == [] && db.countries == []
    ensures Seed(db).Success?
  {
    SeededFirstCity(db.countries);
    CheckTestUsersOnEmptyStore(Db(CheckRoles(db.identity), AddCountriesAndCities(db.countries)));
  }
}
