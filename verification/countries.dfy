/** `CountryRepository`: the country/city reference data as a sequence of
    countries, each owning a sequence of cities, with the repository's
    queries, city edits and combo-box builders. */
module CountryRepository {
  import opened Wrappers
  import opened Entities
  import opened Seqs
  import Ordering
  import Text

  /** `CityViewModel`: the form posted to add a city to a country. */
  datatype CityForm = CityForm(countryId: int, cityId: int, name: string)

  /** `SelectListItem`: one entry of a combo box. */
  datatype SelectListItem = SelectListItem(text: string, value: string)

  const CountryPlaceholder: SelectListItem := SelectListItem("(Select a country...)", "0")
  const CityPlaceholder: SelectListItem := SelectListItem("(Select a city...)", "0")

  /** The country owns a city with this id. */
  predicate HasCity(c: Country, cityId: int)
  {
    exists k :: 0 <= k < |CitiesOf(c)| && CitiesOf(c)[k].id == cityId
  }

  /** City ids within one collection are positive and pairwise distinct. */
  ghost predicate CityIdsOk(cities: seq<City>)
  {
    && (forall k :: 0 <= k < |cities| ==> cities[k].id >= 1)
    && (forall a, b :: 0 <= a < b < |cities| ==> cities[a].id != cities[b].id)
  }

  /** No city of `c` belongs to `d` as well. */
  ghost predicate NoSharedCity(c: Country, d: Country)
  {
    forall k :: 0 <= k < |CitiesOf(c)| ==> !HasCity(d, CitiesOf(c)[k].id)
  }

  /** Keys start at 1 and are unique (country ids among countries, city ids
      among all cities), and every country's cities are loaded. */
  ghost predicate WellFormed(cs: seq<Country>)
  {
    && (forall i :: 0 <= i < |cs| ==> cs[i].id >= 1 && cs[i].cities.Some? && CityIdsOk(CitiesOf(cs[i])))
    && (forall i, j :: 0 <= i < j < |cs| ==> cs[i].id != cs[j].id)
    && (forall i, j :: 0 <= i < |cs| && 0 <= j < |cs| && i != j ==> NoSharedCity(cs[i], cs[j]))
  }

  /** Position of the country with this id (`Where(c => c.Id == id).FirstOrDefault()`), or `|cs|`. */
  function CountryIndex(cs: seq<Country>, id: int): (i: nat)
    ensures i <= |cs|
    ensures i < |cs| ==> cs[i].id == id
    ensures forall j :: 0 <= j < i ==> cs[j].id != id
  {
    FindIndex(cs, (c: Country) => c.id == id)
  }

  /** Position of the first country owning this city, or `|cs|`. */
  function OwnerIndex(cs: seq<Country>, cityId: int): (i: nat)
    ensures i <= |cs|
    ensures i < |cs| ==> HasCity(cs[i], cityId)
    ensures forall j :: 0 <= j < i ==> !HasCity(cs[j], cityId)
  {
    FindIndex(cs, (c: Country) => HasCity(c, cityId))
  }

  /** `GetCountryWithCitiesAsync` (and `Countries.Find`): the country with this id, or null. */
  function GetCountryWithCities(cs: seq<Country>, id: int): (r: Option<Country>)
    ensures r.Some? ==> r.value in cs && r.value.id == id
    ensures r.None? <==> forall c :: c in cs ==> c.id != id
  {
    var i := CountryIndex(cs, id);
    if i < |cs| then Some(cs[i]) else None
  }

  /** `GetCountryAsync(city)`: a country whose cities contain the city's id, or null. */
  function GetCountry(cs: seq<Country>, city: City): (r: Option<Country>)
    ensures r.Some? ==> r.value in cs && HasCity(r.value, city.id)
    ensures r.None? <==> forall c :: c in cs ==> !HasCity(c, city.id)
  {
    var i := OwnerIndex(cs, city.id);
    if i < |cs| then Some(cs[i]) else None
  }

  /** `GetCityAsync`: the city with this id, or null. */
  function GetCity(cs: seq<Country>, cityId: int): (r: Option<City>)
    ensures r.Some? ==> r.value.id == cityId && exists c :: c in cs && r.value in CitiesOf(c)
    ensures r.None? <==> forall c :: c in cs ==> !HasCity(c, cityId)
  {
    var i := OwnerIndex(cs, cityId);
    if i < |cs| then
      var k := FindIndex(CitiesOf(cs[i]), (c: City) => c.id == cityId);
      assert cs[i] in cs;
      Some(CitiesOf(cs[i])[k])
    else None
  }

  /** The largest city id in use, or 0. */
  function MaxCityId(cs: seq<Country>): (m: int)
    ensures m >= 0
    ensures forall i, k :: 0 <= i < |cs| && 0 <= k < |CitiesOf(cs[i])| ==> CitiesOf(cs[i])[k].id <= m
  {
    if |cs| == 0 then 0
    else
      var rest := MaxCityId(cs[1..]);
      var here := MaxId(CitiesOf(cs[0]));
      assert forall i :: 1 <= i < |cs| ==> cs[i] == cs[1..][i - 1];
      if here > rest then here else rest
  }

  function MaxId(cities: seq<City>): (m: int)
    ensures m >= 0
    ensures forall k :: 0 <= k < |cities| ==> cities[k].id <= m
  {
    if |cities| == 0 then 0
    else
      var rest := MaxId(cities[1..]);
      assert forall k :: 1 <= k < |cities| ==> cities[k] == cities[1..][k - 1];
      if cities[0].id > rest then cities[0].id else rest
  }

  /** The key the database assigns to the next city: above every city id in use. */
  function NextCityId(cs: seq<Country>): (id: int)
    ensures id >= 1
    ensures forall i, k :: 0 <= i < |cs| && 0 <= k < |CitiesOf(cs[i])| ==> CitiesOf(cs[i])[k].id < id
    ensures forall c :: c in cs ==> !HasCity(c, id)
  {
    MaxCityId(cs) + 1
  }

  /** `AddCityAsync`: appends a new city with the form's name to the form's
      country; an unknown country leaves everything unchanged. */
  function AddCity(cs: seq<Country>, form: CityForm): (r: seq<Country>)
    ensures CountryIndex(cs, form.countryId) == |cs| ==> r == cs
    ensures CountryIndex(cs, form.countryId) < |cs| ==>
      var i := CountryIndex(cs, form.countryId);
      && |r| == |cs|
      && (forall j :: 0 <= j < |cs| && j != i ==> r[j] == cs[j])
      && r[i].id == cs[i].id && r[i].name == cs[i].name
      && CitiesOf(r[i]) == CitiesOf(cs[i]) + [City(NextCityId(cs), form.name)]
  {
    var i := CountryIndex(cs, form.countryId);
    if i == |cs| then cs
    else cs[i := cs[i].(cities := Some(CitiesOf(cs[i]) + [City(NextCityId(cs), form.name)]))]
  }

  /** The cities without those having this id, in order. */
  function RemoveCity(cities: seq<City>, cityId: int): (r: seq<City>)
    ensures forall c :: c in r <==> c in cities && c.id != cityId
    ensures |r| <= |cities|
  {
    if |cities| == 0 then []
    else if cities[0].id == cityId then RemoveCity(cities[1..], cityId)
    else [cities[0]] + RemoveCity(cities[1..], cityId)
  }

  /** The cities with the one having `city`'s id replaced by `city`. */
  function ReplaceCity(cities: seq<City>, city: City): (r: seq<City>)
    ensures |r| == |cities|
    ensures forall k :: 0 <= k < |cities| ==> r[k] == (if cities[k].id == city.id then city else cities[k])
  {
    seq(|cities|, k requires 0 <= k < |cities| => if cities[k].id == city.id then city else cities[k])
  }

  /** The repository's answer to a city edit: the new countries and the owner's id, 0 for none. */
  datatype CityEdit = CityEdit(countries: seq<Country>, countryId: int)

  /** The `DbUpdateException` of `SaveChangesAsync`: the database refused the
      change because a foreign key still points at the deleted row. */
  datatype DbError = ForeignKeyViolation

  /** `DeleteCityAsync`: 0 and no change when no country owns the city.
      Otherwise the city is removed from its owner and the owner's id returned,
      unless a user still lives in it: `User.City` is an optional key whose
      dependants are not loaded here, so the database refuses the delete.
      `inUse` holds the ids of the cities some user references. */
  function DeleteCity(cs: seq<Country>, city: City, inUse: set<int>): (r: Result<CityEdit, DbError>)
    ensures OwnerIndex(cs, city.id) == |cs| ==> r == Success(CityEdit(cs, 0))
    ensures OwnerIndex(cs, city.id) < |cs| && city.id in inUse ==> r == Failure(ForeignKeyViolation)
    ensures OwnerIndex(cs, city.id) < |cs| && city.id !in inUse ==>
      var i := OwnerIndex(cs, city.id);
      && r.Success?
      && r.value.countryId == cs[i].id
      && |r.value.countries| == |cs|
      && (forall j :: 0 <= j < |cs| && j != i ==> r.value.countries[j] == cs[j])
      && r.value.countries[i] == cs[i].(cities := Some(RemoveCity(CitiesOf(cs[i]), city.id)))
  {
    var i := OwnerIndex(cs, city.id);
    if i == |cs| then Success(CityEdit(cs, 0))
    else if city.id in inUse then Failure(ForeignKeyViolation)
    else Success(CityEdit(cs[i := cs[i].(cities := Some(RemoveCity(CitiesOf(cs[i]), city.id)))], cs[i].id))
  }

  /** Users can only reference cities that are stored: the foreign key holds. */
  predicate ReferencesStored(cs: seq<Country>, inUse: set<int>)
  {
    forall id :: id in inUse ==> GetCity(cs, id).Some?
  }

  /** `UpdateCityAsync`: writes the city over the stored one with its id and
      returns the owner's id; 0 and no change when no country owns it. */
  function UpdateCity(cs: seq<Country>, city: City): (r: CityEdit)
    ensures OwnerIndex(cs, city.id) == |cs| ==> r == CityEdit(cs, 0)
    ensures OwnerIndex(cs, city.id) < |cs| ==>
      var i := OwnerIndex(cs, city.id);
      && r.countryId == cs[i].id
      && |r.countries| == |cs|
      && (forall j :: 0 <= j < |cs| && j != i ==> r.countries[j] == cs[j])
      && r.countries[i] == cs[i].(cities := Some(ReplaceCity(CitiesOf(cs[i]), city)))
  {
    var i := OwnerIndex(cs, city.id);
    if i == |cs| then CityEdit(cs, 0)
    else CityEdit(cs[i := cs[i].(cities := Some(ReplaceCity(CitiesOf(cs[i]), city)))], cs[i].id)
  }

  function CountryKey(c: Country): seq<string> { [c.name] }
  function ItemKey(item: SelectListItem): seq<string> { [item.text] }

  /** `GetCountriesWithCities`: every country once, ordered by name. */
  function GetCountriesWithCities(cs: seq<Country>): (r: seq<Country>)
    ensures multiset(r) == multiset(cs)
    ensures Ordering.SortedByKey(r, CountryKey)
  {
    Ordering.SortByKey(cs, CountryKey)
  }

  function CountryItem(c: Country): SelectListItem
  {
    SelectListItem(c.name, Text.IntToString(c.id))
  }

  function CityItem(c: City): SelectListItem
  {
    SelectListItem(c.name, Text.IntToString(c.id))
  }

  function CountryItems(cs: seq<Country>): (items: seq<SelectListItem>)
    ensures |items| == |cs|
    ensures forall i :: 0 <= i < |cs| ==> items[i] == CountryItem(cs[i])
  {
    seq(|cs|, i requires 0 <= i < |cs| => CountryItem(cs[i]))
  }

  function CityItems(cities: seq<City>): (items: seq<SelectListItem>)
    ensures |items| == |cities|
    ensures forall i :: 0 <= i < |cities| ==> items[i] == CityItem(cities[i])
  {
    seq(|cities|, i requires 0 <= i < |cities| => CityItem(cities[i]))
  }

  /** `GetComboCountries`: the placeholder, then one item per country ordered by text. */
  function GetComboCountries(cs: seq<Country>): (r: seq<SelectListItem>)
    ensures |r| == |cs| + 1
    ensures r[0] == CountryPlaceholder
    ensures multiset(r[1..]) == multiset(CountryItems(cs))
    ensures Ordering.SortedByKey(r[1..], ItemKey)
  {
    var sorted := Ordering.SortByKey(CountryItems(cs), ItemKey);
    assert |sorted| == |multiset(sorted)| == |cs|;
    assert ([CountryPlaceholder] + sorted)[1..] == sorted;
    [CountryPlaceholder] + sorted
  }

  /** `GetComboCities`: the placeholder, then the country's cities ordered by
      text; only the placeholder for an unknown country. */
  function GetComboCities(cs: seq<Country>, countryId: int): (r: seq<SelectListItem>)
    ensures |r| >= 1 && r[0] == CityPlaceholder
    ensures GetCountryWithCities(cs, countryId).None? ==> r == [CityPlaceholder]
    ensures GetCountryWithCities(cs, countryId).Some? ==>
      && multiset(r[1..]) == multiset(CityItems(CitiesOf(GetCountryWithCities(cs, countryId).value)))
      && Ordering.SortedByKey(r[1..], ItemKey)
  {
    match GetCountryWithCities(cs, countryId)
    case None => [CityPlaceholder]
    case Some(c) =>
      var sorted := Ordering.SortByKey(CityItems(CitiesOf(c)), ItemKey);
      assert ([CityPlaceholder] + sorted)[1..] == sorted;
      [CityPlaceholder] + sorted
  }

  // ------------------------------------------------------------------ lemmas

  /** Appending a city with a new positive id keeps a collection's ids valid. */
  lemma AppendCityIdsOk(cities: seq<City>, city: City)
    requires CityIdsOk(cities) && city.id >= 1
    requires forall k :: 0 <= k < |cities| ==> cities[k].id != city.id
    ensures CityIdsOk(cities + [city])
  {
  }

  /** Giving `c` one more city that `d` does not own keeps the two disjoint. */
  lemma AppendCityKeepsDisjoint(c: Country, c2: Country, d: Country, city: City)
    requires NoSharedCity(c, d) && NoSharedCity(d, c)
    requires CitiesOf(c2) == CitiesOf(c) + [city]
    requires !HasCity(d, city.id)
    ensures NoSharedCity(c2, d) && NoSharedCity(d, c2)
  {
    forall k | 0 <= k < |CitiesOf(c2)| ensures !HasCity(d, CitiesOf(c2)[k].id) {
      if k < |CitiesOf(c)| {
        assert CitiesOf(c2)[k] == CitiesOf(c)[k];
      }
    }
    forall k | 0 <= k < |CitiesOf(d)| ensures !HasCity(c2, CitiesOf(d)[k].id) {
      assert !HasCity(c, CitiesOf(d)[k].id);
    }
  }

  lemma AddCityPreservesWellFormed(cs: seq<Country>, form: CityForm)
    requires WellFormed(cs)
    ensures WellFormed(AddCity(cs, form))
  {
    var i := CountryIndex(cs, form.countryId);
    if i < |cs| {
      var city := City(NextCityId(cs), form.name);
      var c := cs[i].(cities := Some(CitiesOf(cs[i]) + [city]));
      assert AddCity(cs, form) == cs[i := c];
      assert cs[i] in cs;
      assert forall k :: 0 <= k < |CitiesOf(cs[i])| ==> CitiesOf(cs[i])[k].id != city.id;
      AppendCityIdsOk(CitiesOf(cs[i]), city);
      forall j | 0 <= j < |cs| && j != i
        ensures NoSharedCity(c, cs[j]) && NoSharedCity(cs[j], c)
      {
        assert cs[j] in cs;
        assert NoSharedCity(cs[i], cs[j]) && NoSharedCity(cs[j], cs[i]);
        AppendCityKeepsDisjoint(cs[i], c, cs[j], city);
      }
      ReplaceCountryPreservesWellFormed(cs, i, c);
    }
  }

  /** Replacing one country by one with the same key, valid city keys and no
      city shared with any other country keeps the countries well formed. */
  lemma ReplaceCountryPreservesWellFormed(cs: seq<Country>, i: nat, c: Country)
    requires WellFormed(cs) && i < |cs|
    requires c.id == cs[i].id && c.cities.Some? && CityIdsOk(CitiesOf(c))
    requires forall j :: 0 <= j < |cs| && j != i ==> NoSharedCity(c, cs[j]) && NoSharedCity(cs[j], c)
    ensures WellFormed(cs[i := c])
  {
    var r := cs[i := c];
    forall j, l | 0 <= j < |r| && 0 <= l < |r| && j != l
      ensures NoSharedCity(r[j], r[l])
    {
      if j != i && l != i {
        assert NoSharedCity(cs[j], cs[l]);
      }
    }
  }

  lemma {:induction false} RemoveCityAbsent(cities: seq<City>, cityId: int)
    requires forall k :: 0 <= k < |cities| ==> cities[k].id != cityId
    ensures RemoveCity(cities, cityId) == cities
  {
    if |cities| > 0 {
      RemoveCityAbsent(cities[1..], cityId);
      assert cities == [cities[0]] + cities[1..];
    }
  }

  lemma {:induction false} RemoveCityAppended(cities: seq<City>, city: City)
    ensures RemoveCity(cities + [city], city.id) == RemoveCity(cities, city.id)
  {
    if |cities| == 0 {
      assert RemoveCity([city], city.id) == RemoveCity([], city.id);
    } else {
      assert (cities + [city])[1..] == cities[1..] + [city];
      RemoveCityAppended(cities[1..], city);
    }
  }

  /** Deleting the city just added restores the repository and reports the
      country: no user can live in a city that did not exist before. */
  lemma DeleteCityUndoesAddCity(cs: seq<Country>, form: CityForm, inUse: set<int>)
    requires WellFormed(cs) && ReferencesStored(cs, inUse)
    requires CountryIndex(cs, form.countryId) < |cs|
    ensures DeleteCity(AddCity(cs, form), City(NextCityId(cs), form.name), inUse) == Success(CityEdit(cs, form.countryId))
  {
    var i := CountryIndex(cs, form.countryId);
    var added := AddCity(cs, form);
    var city := City(NextCityId(cs), form.name);
    assert GetCity(cs, city.id).None?;
    AddedCityOwner(cs, form);
    RemoveAddedCity(cs, form);
    assert added[i := cs[i]] == cs;
  }

  /** Removing the city just added leaves the country's former cities. */
  lemma RemoveAddedCity(cs: seq<Country>, form: CityForm)
    requires WellFormed(cs)
    requires CountryIndex(cs, form.countryId) < |cs|
    ensures var i := CountryIndex(cs, form.countryId);
      RemoveCity(CitiesOf(AddCity(cs, form)[i]), NextCityId(cs)) == CitiesOf(cs[i])
  {
    var i := CountryIndex(cs, form.countryId);
    var city := City(NextCityId(cs), form.name);
    assert forall k :: 0 <= k < |CitiesOf(cs[i])| ==> CitiesOf(cs[i])[k].id != city.id by {
      assert cs[i] in cs;
    }
    RemoveCityAppended(CitiesOf(cs[i]), city);
    RemoveCityAbsent(CitiesOf(cs[i]), city.id);
  }

  /** The country a city was just added to is the first that has its id. */
  lemma AddedCityOwner(cs: seq<Country>, form: CityForm)
    requires WellFormed(cs)
    requires CountryIndex(cs, form.countryId) < |cs|
    ensures OwnerIndex(AddCity(cs, form), NextCityId(cs)) == CountryIndex(cs, form.countryId)
  {
    var i := CountryIndex(cs, form.countryId);
    var added := AddCity(cs, form);
    var city := City(NextCityId(cs), form.name);
    assert CitiesOf(added[i])[|CitiesOf(cs[i])|] == city;
    forall j | 0 <= j < i ensures !HasCity(added[j], city.id) {
      assert cs[j] in cs;
    }
  }

  /** Adding a city to a known country counts one more city there. */
  lemma AddCityCountsOneMore(cs: seq<Country>, form: CityForm)
    requires CountryIndex(cs, form.countryId) < |cs|
    ensures var i := CountryIndex(cs, form.countryId);
      NumberCities(AddCity(cs, form)[i]) == NumberCities(cs[i]) + 1
  {
  }

  /** With unique ids, removing an id present once removes exactly one city. */
  lemma {:induction false} RemoveCityOnce(cities: seq<City>, k: nat)
    requires k < |cities|
    requires forall a, b :: 0 <= a < b < |cities| ==> cities[a].id != cities[b].id
    ensures |RemoveCity(cities, cities[k].id)| == |cities| - 1
  {
    var id := cities[k].id;
    if k == 0 {
      RemoveCityAbsent(cities[1..], id);
    } else {
      RemoveCityOnce(cities[1..], k - 1);
    }
  }

  /** In a well-formed repository, deleting an owned city succeeds iff no user
      lives in it, and then counts one city fewer at its owner. */
  lemma DeleteCityCountsOneFewer(cs: seq<Country>, city: City, inUse: set<int>)
    requires WellFormed(cs)
    requires OwnerIndex(cs, city.id) < |cs|
    ensures var r := DeleteCity(cs, city, inUse);
      r.Success? <==> city.id !in inUse
    ensures var r := DeleteCity(cs, city, inUse);
      var i := OwnerIndex(cs, city.id);
      r.Success? ==> NumberCities(r.value.countries[i]) == NumberCities(cs[i]) - 1
  {
    var i := OwnerIndex(cs, city.id);
    var cities := CitiesOf(cs[i]);
    var k :| 0 <= k < |cities| && cities[k].id == city.id;
    RemoveCityOnce(cities, k);
  }

  /** Putting a city with a new positive id in front keeps a collection's ids valid. */
  lemma PrependCityIdsOk(city: City, rest: seq<City>)
    requires CityIdsOk(rest) && city.id >= 1
    requires forall k :: 0 <= k < |rest| ==> rest[k].id != city.id
    ensures CityIdsOk([city] + rest)
  {
    var r := [city] + rest;
    forall a, b | 0 <= a < b < |r| ensures r[a].id != r[b].id {
      assert r[b] == rest[b - 1];
      if a > 0 {
        assert r[a] == rest[a - 1];
      }
    }
  }

  lemma {:induction false} RemoveCityKeepsIdsOk(cities: seq<City>, cityId: int)
    requires CityIdsOk(cities)
    ensures CityIdsOk(RemoveCity(cities, cityId))
  {
    if |cities| > 0 {
      var tail := cities[1..];
      assert CityIdsOk(tail) by {
        assert forall k :: 0 <= k < |tail| ==> tail[k] == cities[k + 1];
      }
      RemoveCityKeepsIdsOk(tail, cityId);
      if cities[0].id != cityId {
        var rest := RemoveCity(tail, cityId);
        forall k | 0 <= k < |rest| ensures rest[k].id != cities[0].id {
          assert rest[k] in tail;
          var m :| 0 <= m < |tail| && tail[m] == rest[k];
          assert cities[m + 1] == rest[k];
        }
        PrependCityIdsOk(cities[0], rest);
      }
    }
  }

  /** A country whose cities all belong to `d` owns only ids `d` owns. */
  lemma HasCityFromSubset(c: Country, d: Country, cityId: int)
    requires forall k :: 0 <= k < |CitiesOf(c)| ==> CitiesOf(c)[k] in CitiesOf(d)
    ensures HasCity(c, cityId) ==> HasCity(d, cityId)
  {
    if HasCity(c, cityId) {
      var m :| 0 <= m < |CitiesOf(c)| && CitiesOf(c)[m].id == cityId;
      var n :| 0 <= n < |CitiesOf(d)| && CitiesOf(d)[n] == CitiesOf(c)[m];
    }
  }

  /** Replacing a country by one with the same id and a well-formed subset of
      its cities keeps the repository well formed. */
  lemma ShrinkCitiesPreservesWellFormed(cs: seq<Country>, i: nat, c: Country)
    requires WellFormed(cs) && i < |cs|
    requires c.id == cs[i].id && c.cities.Some? && CityIdsOk(CitiesOf(c))
    requires forall k :: 0 <= k < |CitiesOf(c)| ==> CitiesOf(c)[k] in CitiesOf(cs[i])
    ensures WellFormed(cs[i := c])
  {
    forall j | 0 <= j < |cs| && j != i
      ensures NoSharedCity(c, cs[j]) && NoSharedCity(cs[j], c)
    {
      assert NoSharedCity(cs[i], cs[j]) && NoSharedCity(cs[j], cs[i]);
      forall k | 0 <= k < |CitiesOf(c)| ensures !HasCity(cs[j], CitiesOf(c)[k].id) {
        var m :| 0 <= m < |CitiesOf(cs[i])| && CitiesOf(cs[i])[m] == CitiesOf(c)[k];
      }
      forall k | 0 <= k < |CitiesOf(cs[j])| ensures !HasCity(c, CitiesOf(cs[j])[k].id) {
        HasCityFromSubset(c, cs[i], CitiesOf(cs[j])[k].id);
      }
    }
    ReplaceCountryPreservesWellFormed(cs, i, c);
  }

  lemma DeleteCityPreservesWellFormed(cs: seq<Country>, city: City, inUse: set<int>)
    requires WellFormed(cs)
    ensures var r := DeleteCity(cs, city, inUse);
      r.Success? ==> WellFormed(r.value.countries)
  {
    var i := OwnerIndex(cs, city.id);
    if i < |cs| && city.id !in inUse {
      var old_ := CitiesOf(cs[i]);
      var c := cs[i].(cities := Some(RemoveCity(old_, city.id)));
      RemoveCityKeepsIdsOk(old_, city.id);
      assert DeleteCity(cs, city, inUse).value.countries == cs[i := c];
      ShrinkCitiesPreservesWellFormed(cs, i, c);
    }
  }

  /** After an update of an owned city, looking the id up yields the new city,
      and every country keeps its number of cities. */
  lemma UpdateCityThenGetCity(cs: seq<Country>, city: City)
    requires WellFormed(cs)
    requires OwnerIndex(cs, city.id) < |cs|
    ensures GetCity(UpdateCity(cs, city).countries, city.id) == Some(city)
    ensures forall j :: 0 <= j < |cs| ==> NumberCities(UpdateCity(cs, city).countries[j]) == NumberCities(cs[j])
  {
    var i := OwnerIndex(cs, city.id);
    var r := UpdateCity(cs, city).countries;
    var cities := CitiesOf(cs[i]);
    var k :| 0 <= k < |cities| && cities[k].id == city.id;
    assert CitiesOf(r[i])[k] == city;
    assert OwnerIndex(r, city.id) == i;
    var found := FindIndex(CitiesOf(r[i]), (c: City) => c.id == city.id);
    assert CitiesOf(r[i])[found] == city;
  }

  lemma CountryItemReadsBack(c: Country)
    ensures Text.ParseInt(CountryItem(c).value) == c.id
  {
    Text.IntToStringRoundTrip(c.id);
  }

  /** Every value of the country combo box past the placeholder reads back as a country's id. */
  lemma ComboCountryValuesAreIds(cs: seq<Country>, k: nat)
    requires 1 <= k < |cs| + 1
    ensures exists j :: 0 <= j < |cs| && GetComboCountries(cs)[k] == CountryItem(cs[j])
                        && Text.ParseInt(GetComboCountries(cs)[k].value) == cs[j].id
  {
    var r := GetComboCountries(cs);
    var items := CountryItems(cs);
    assert r[k] == r[1..][k - 1];
    assert r[k] in multiset(items) by {
      assert r[k] in multiset(r[1..]);
    }
    var j :| 0 <= j < |items| && items[j] == r[k];
    CountryItemReadsBack(cs[j]);
  }
}
