/** The persisted entities (`User`, `Country`, `City`), their derived values
    and the data-annotation limits declared on their fields. */
module Entities {
  import opened Wrappers
  import Text

  /** The two role names of `Roles`. */
  const AdminRole: string := "Admin"
  const CustomerRole: string := "Customer"

  /** `[MaxLength]` limits of the entities. */
  const FirstNameMaxLength: nat := 50
  const LastNameMaxLength: nat := 50
  const AddressMaxLength: nat := 100
  const CountryNameMaxLength: nat := 50
  const CityNameMaxLength: nat := 50

  datatype City = City(id: int, name: string)

  /** `cities` is `None` when the navigation collection is null (not loaded). */
  datatype Country = Country(id: int, name: string, cities: Option<seq<City>>)

  /** The identity record of a user: the source's own fields plus the
      `IdentityUser` fields its behaviour depends on. `passwordHash` stands
      for the stored hash, `securityStamp` for the value purpose tokens are
      bound to, and `lockedOut` for a lockout end in the future. */
  datatype User = User(
    id: string,
    userName: string,
    email: string,
    firstName: string,
    lastName: string,
    address: string,
    phoneNumber: string,
    city: Option<City>,
    emailConfirmed: bool,
    passwordHash: string,
    securityStamp: string,
    accessFailedCount: nat,
    lockedOut: bool)

  lemma RoleNamesDistinct()
    ensures AdminRole != CustomerRole
  {
  }

  /** The display name: first name, one space, last name. */
  function FullName(u: User): (r: string)
    ensures |r| == |u.firstName| + 1 + |u.lastName|
    ensures r[..|u.firstName|] == u.firstName
    ensures r[|u.firstName|] == ' '
    ensures r[|u.firstName| + 1..] == u.lastName
  {
    u.firstName + " " + u.lastName
  }

  /** Index of the first space in `s`, or `|s|` when there is none. */
  function FirstSpace(s: string): (k: nat)
    ensures k <= |s|
    ensures k < |s| ==> s[k] == ' '
    ensures forall i :: 0 <= i < k ==> s[i] != ' '
  {
    if |s| == 0 then 0 else if s[0] == ' ' then 0 else 1 + FirstSpace(s[1..])
  }

  /** Splits a display name at its first space: the partner of `FullName`. */
  function SplitFullName(s: string): (string, string)
  {
    var k := FirstSpace(s);
    if k < |s| then (s[..k], s[k + 1..]) else (s, "")
  }

  /** A first name without spaces can be recovered, with the last name, from
      the display name. */
  lemma SplitFullNameRoundTrip(u: User)
    requires forall i :: 0 <= i < |u.firstName| ==> u.firstName[i] != ' '
    ensures SplitFullName(FullName(u)) == (u.firstName, u.lastName)
  {
    var s := FullName(u);
    var n := |u.firstName|;
    assert forall i :: 0 <= i < n ==> s[i] != ' ' by {
      forall i | 0 <= i < n ensures s[i] != ' ' {
        assert s[..n][i] == s[i];
      }
    }
    FirstSpaceAt(s, n);
  }

  lemma {:induction false} FirstSpaceAt(s: string, n: nat)
    requires n < |s| && s[n] == ' '
    requires forall i :: 0 <= i < n ==> s[i] != ' '
    ensures FirstSpace(s) == n
  {
    if n > 0 {
      FirstSpaceAt(s[1..], n - 1);
    }
  }

  /** Without that restriction the display name is ambiguous. */
  lemma FullNameNotInjective(u: User)
    requires u.firstName == "Ana Maria" && u.lastName == "Lopez"
    ensures FullName(u) == FullName(u.(firstName := "Ana", lastName := "Maria Lopez"))
  {
  }

  /** The cities of a country, a null collection read as empty. */
  function CitiesOf(c: Country): seq<City>
  {
    match c.cities
    case None => []
    case Some(cs) => cs
  }

  /** `NumberCities`: 0 for a null collection, otherwise its size. */
  function NumberCities(c: Country): (n: nat)
    ensures c.cities.None? ==> n == 0
    ensures c.cities.Some? ==> n == |c.cities.value|
    ensures n == |CitiesOf(c)|
  {
    if c.cities.None? then 0 else |c.cities.value|
  }

  /** `char.IsWhiteSpace`: the Unicode space, line and paragraph separators,
      U+0009 to U+000D, and U+0085. */
  predicate IsWhiteSpace(c: char)
  {
    c == ' ' || c == '\t' || c == '\n' || c == '\r' || c == '\U{000B}' || c == '\U{000C}'
    || c == '\U{0085}' || c == '\U{00A0}' || c == '\U{1680}'
    || ('\U{2000}' <= c <= '\U{200A}')
    || c == '\U{2028}' || c == '\U{2029}' || c == '\U{202F}' || c == '\U{205F}' || c == '\U{3000}'
  }

  /** `string.IsNullOrWhiteSpace` for a non-null string. */
  predicate IsBlank(s: string)
  {
    forall i :: 0 <= i < |s| ==> IsWhiteSpace(s[i])
  }

  /** A data-annotation failure on a field, named by its display name. */
  datatype FieldError = Required(field: string) | TooLong(field: string, max: nat)

  /** The message the annotation produces. */
  function Message(e: FieldError): string
  {
    match e
    case Required(f) => "The " + f + " field is required."
    case TooLong(f, max) => "The field " + f + " only can contain " + Text.NatToString(max) + " characters length."
  }

  /** `[MaxLength(max)]` on a field with display name `field`: the limit is on
      `string.Length`, i.e. UTF-16 code units. */
  function CheckMaxLength(field: string, value: string, max: nat): (errs: seq<FieldError>)
    ensures errs == [] <==> Text.Utf16Length(value) <= max
    ensures errs != [] ==> errs == [TooLong(field, max)]
  {
    if Text.Utf16Length(value) > max then [TooLong(field, max)] else []
  }

  /** `[Required]` (empty strings not allowed) on a field. */
  function CheckRequired(field: string, value: string): (errs: seq<FieldError>)
    ensures errs == [] <==> !IsBlank(value)
    ensures errs != [] ==> errs == [Required(field)]
  {
    if IsBlank(value) then [Required(field)] else []
  }

  /** Validation of the annotated `User` fields. */
  function ValidateUser(u: User): (errs: seq<FieldError>)
    ensures errs == [] <==>
      && Text.Utf16Length(u.firstName) <= FirstNameMaxLength
      && Text.Utf16Length(u.lastName) <= LastNameMaxLength
      && Text.Utf16Length(u.address) <= AddressMaxLength
    ensures TooLong("First Name", FirstNameMaxLength) in errs <==> Text.Utf16Length(u.firstName) > FirstNameMaxLength
    ensures TooLong("Last Name", LastNameMaxLength) in errs <==> Text.Utf16Length(u.lastName) > LastNameMaxLength
    ensures TooLong("Address", AddressMaxLength) in errs <==> Text.Utf16Length(u.address) > AddressMaxLength
  {
    CheckMaxLength("First Name", u.firstName, FirstNameMaxLength)
    + CheckMaxLength("Last Name", u.lastName, LastNameMaxLength)
    + CheckMaxLength("Address", u.address, AddressMaxLength)
  }

  /** Validation of `Country.Name`: required and at most 50 UTF-16 code units. */
  function ValidateCountry(c: Country): (errs: seq<FieldError>)
    ensures errs == [] <==> !IsBlank(c.name) && Text.Utf16Length(c.name) <= CountryNameMaxLength
    ensures Required("Country") in errs <==> IsBlank(c.name)
    ensures TooLong("Country", CountryNameMaxLength) in errs <==> Text.Utf16Length(c.name) > CountryNameMaxLength
  {
    CheckRequired("Country", c.name) + CheckMaxLength("Country", c.name, CountryNameMaxLength)
  }

  /** Validation of `City.Name`: required and at most 50 UTF-16 code units. */
  function ValidateCity(c: City): (errs: seq<FieldError>)
    ensures errs == [] <==> !IsBlank(c.name) && Text.Utf16Length(c.name) <= CityNameMaxLength
    ensures Required("City") in errs <==> IsBlank(c.name)
    ensures TooLong("City", CityNameMaxLength) in errs <==> Text.Utf16Length(c.name) > CityNameMaxLength
  {
    CheckRequired("City", c.name) + CheckMaxLength("City", c.name, CityNameMaxLength)
  }

  /** The limits count code units: 26 characters outside the Basic Multilingual
      Plane are 52 units, too long for a city name, while a name made of the
      ideographic space U+3000 is blank. */
  lemma ValidateCityCountsUnits()
    ensures ValidateCity(City(0, seq(26, _ => '\U{1F3D9}'))) == [TooLong("City", CityNameMaxLength)]
    ensures ValidateCity(City(0, "\U{3000}\U{3000}")) == [Required("City")]
  {
    var s := seq(26, _ => '\U{1F3D9}');
    Text.Utf16LengthAstral(s);
  }
}
