/** Creating a competition through the API: reject a name already in COMPETITION, look the
    country up by name, then save a new row stamped with the request time and the API's
    audit user. The COMPETITION table is a repository class; COUNTRY is only read. */
module CompetitionService {
  import opened Wrappers

  const UPDATED_BY: string := "COMPETITION_API_USER"

  /** A COUNTRY row as this service sees it. */
  datatype Country = Country(id: nat, name: string, code: string)

  /** A COMPETITION row; `countryId` is the COUNTRY_ID the country reference is saved as,
      and times are opaque instants. */
  datatype Competition = Competition(competitionId: nat, name: string, countryId: nat,
                                     createdAt: int, updatedAt: int, updatedBy: string)

  datatype CompetitionRequest = CompetitionRequest(name: string, countryName: string)

  /** The exceptions `createCompetition` ends in: its own two, and the repository's when a
      country name matches more than one row. */
  datatype ServiceError =
    | IllegalState(message: string)
    | IllegalArgument(message: string)
    | NonUniqueResult

  /** The COMPETITION rows and the next identity value. */
  datatype CompetitionStore = CompetitionStore(rows: seq<Competition>, nextId: nat)

  function AlreadyExists(name: string): string {
    "Competition with name '" + name + "' already exists."
  }

  function CountryNotFound(countryName: string): string {
    "Country '" + countryName + "' not found. Competition must be associated with an existing country."
  }

  /** `CompetitionRepository.findByName`: NAME is unique, so the first match is the match. */
  function FindCompetitionByName(rows: seq<Competition>, name: Option<string>): (r: Option<Competition>)
    ensures r.Some? ==> r.value in rows && name == Some(r.value.name)
    ensures r.None? <==> forall i | 0 <= i < |rows| :: name != Some(rows[i].name)
    decreases |rows|
  {
    if rows == [] then None
    else if name == Some(rows[0].name) then Some(rows[0])
    else FindCompetitionByName(rows[1..], name)
  }

  /** The COUNTRY rows with a given NAME. */
  function CountriesNamed(countries: seq<Country>, name: string): (r: seq<Country>)
    ensures forall c | c in r :: c in countries && c.name == name
    ensures forall c | c in countries && c.name == name :: c in r
    decreases |countries|
  {
    if countries == [] then []
    else (if countries[0].name == name then [countries[0]] else []) + CountriesNamed(countries[1..], name)
  }

  /** `CountryRepository.findByName`: NAME is not unique, and more than one match is an
      exception rather than a choice. */
  function FindCountryByName(countries: seq<Country>, name: string): Result<Option<Country>, ServiceError> {
    var matches := CountriesNamed(countries, name);
    if |matches| == 0 then Success(None)
    else if |matches| == 1 then Success(Some(matches[0]))
    else Failure(NonUniqueResult)
  }

  predicate NameTaken(store: CompetitionStore, name: string) {
    FindCompetitionByName(store.rows, Some(name)).Some?
  }

  /** `createCompetition` at instant `now`: the result and the store it leaves. */
  function Create(store: CompetitionStore, countries: seq<Country>, request: CompetitionRequest, now: int)
    : (r: (Result<Competition, ServiceError>, CompetitionStore))
    ensures r.0.Failure? ==> r.1 == store
    ensures r.0.Success? ==>
              && r.1 == CompetitionStore(store.rows + [r.0.value], store.nextId + 1)
              && r.0.value.competitionId == store.nextId && r.0.value.name == request.name
              && r.0.value.createdAt == now && r.0.value.updatedAt == now
  {
    if NameTaken(store, request.name) then (Failure(IllegalState(AlreadyExists(request.name))), store)
    else
      match FindCountryByName(countries, request.countryName)
      case Failure(e) => (Failure(e), store)
      case Success(None) => (Failure(IllegalArgument(CountryNotFound(request.countryName))), store)
      case Success(Some(country)) =>
        var saved := Competition(store.nextId, request.name, country.id, now, now, UPDATED_BY);
        (Success(saved), CompetitionStore(store.rows + [saved], store.nextId + 1))
  }

  class CompetitionRepository {
    var rows: seq<Competition>
    var nextId: nat

    function State(): CompetitionStore
      reads this
    {
      CompetitionStore(rows, nextId)
    }

    constructor (initial: CompetitionStore)
      ensures State() == initial
    {
      rows := initial.rows;
      nextId := initial.nextId;
    }

    /** `save` of a new entity: the identity column assigns its id. */
    method Save(entity: Competition) returns (saved: Competition)
      modifies this
      ensures saved == entity.(competitionId := old(nextId))
      ensures rows == old(rows) + [saved] && nextId == old(nextId) + 1
    {
      saved := entity.(competitionId := nextId);
      rows := rows + [saved];
      nextId := nextId + 1;
    }
  }

  /** The service method against the COMPETITION repository. */
  method CreateCompetition(repository: CompetitionRepository, countries: seq<Country>,
                           request: CompetitionRequest, now: int)
    returns (result: Result<Competition, ServiceError>)
    modifies repository
    ensures (result, repository.State()) == Create(old(repository.State()), countries, request, now)
  {
    if FindCompetitionByName(repository.rows, Some(request.name)).Some? {
      result := Failure(IllegalState(AlreadyExists(request.name)));
      return;
    }
    var found := FindCountryByName(countries, request.countryName);
    if found.Failure? {
      result := Failure(found.error);
      return;
    }
    if found.value.None? {
      result := Failure(IllegalArgument(CountryNotFound(request.countryName)));
      return;
    }
    var country := found.value.value;
    var entity := Competition(0, request.name, country.id, 0, 0, "");
    entity := entity.(createdAt := now, updatedAt := now, updatedBy := UPDATED_BY);
    var saved := repository.Save(entity);
    result := Success(saved);
  }

  // ---------------------------------------------------------------------------
  // Properties.
  // ---------------------------------------------------------------------------

  /** A name already stored is rejected with IllegalStateException whatever the countries,
      and the store is unchanged: the duplicate check comes first. */
  lemma DuplicateRejected(store: CompetitionStore, countries: seq<Country>, request: CompetitionRequest, now: int, i: nat)
    requires i < |store.rows| && store.rows[i].name == request.name
    ensures Create(store, countries, request, now) == (Failure(IllegalState(AlreadyExists(request.name))), store)
  {
  }

  /** A new name whose country name matches no COUNTRY row is rejected with
      IllegalArgumentException and nothing is saved. */
  lemma UnknownCountryRejected(store: CompetitionStore, countries: seq<Country>, request: CompetitionRequest, now: int)
    requires !NameTaken(store, request.name)
    requires forall c | c in countries :: c.name != request.countryName
    ensures Create(store, countries, request, now) ==
              (Failure(IllegalArgument(CountryNotFound(request.countryName))), store)
  {
    NoCountryNamed(countries, request.countryName);
  }

  lemma {:induction false} NoCountryNamed(countries: seq<Country>, name: string)
    requires forall c | c in countries :: c.name != name
    ensures CountriesNamed(countries, name) == []
    decreases |countries|
  {
    if countries != [] {
      NoCountryNamed(countries[1..], name);
    }
  }

  /** Creation succeeds exactly when the name is new and exactly one COUNTRY row has the
      country name; a failure leaves the store as it was. */
  lemma CreateSucceedsIff(store: CompetitionStore, countries: seq<Country>, request: CompetitionRequest, now: int)
    ensures var (r, store') := Create(store, countries, request, now);
            && (r.Success? <==> !NameTaken(store, request.name) && |CountriesNamed(countries, request.countryName)| == 1)
            && (r.Failure? ==> store' == store)
  {
  }

  /** A success adds exactly one row at the end: the requested name, the id of a country
      with the requested name, the next identity value, and the audit fields. */
  lemma CreatedRow(store: CompetitionStore, countries: seq<Country>, request: CompetitionRequest, now: int)
    requires Create(store, countries, request, now).0.Success?
    ensures var (r, store') := Create(store, countries, request, now);
            && store'.rows == store.rows + [r.value]
            && store'.nextId == store.nextId + 1
            && r.value.competitionId == store.nextId
            && r.value.name == request.name
            && (exists c | c in countries :: c.name == request.countryName && c.id == r.value.countryId)
            && r.value.createdAt == now && r.value.updatedAt == now
            && r.value.updatedBy == UPDATED_BY
  {
    var c := CountriesNamed(countries, request.countryName)[0];
    assert c in CountriesNamed(countries, request.countryName);
  }

  /** After a successful creation, the same request fails as a duplicate. */
  lemma SecondCreateFails(store: CompetitionStore, countries: seq<Country>, request: CompetitionRequest, now: int, later: int)
    requires Create(store, countries, request, now).0.Success?
    ensures var store' := Create(store, countries, request, now).1;
            Create(store', countries, request, later) == (Failure(IllegalState(AlreadyExists(request.name))), store')
  {
    var (r, store') := Create(store, countries, request, now);
    var i := |store.rows|;
    assert store'.rows[i] == r.value;
    DuplicateRejected(store', countries, request, later, i);
  }

  /** No two COMPETITION rows share a name. */
  predicate UniqueNames(rows: seq<Competition>) {
    forall i, j | 0 <= i < j < |rows| :: rows[i].name != rows[j].name
  }

  /** Creation keeps competition names unique. */
  lemma CreateKeepsNamesUnique(store: CompetitionStore, countries: seq<Country>, request: CompetitionRequest, now: int)
    requires UniqueNames(store.rows)
    ensures UniqueNames(Create(store, countries, request, now).1.rows)
  {
    var (r, store') := Create(store, countries, request, now);
    if r.Success? {
      forall i, j | 0 <= i < j < |store'.rows|
        ensures store'.rows[i].name != store'.rows[j].name
      {
        if j == |store.rows| {
          assert store'.rows[i] == store.rows[i];
          assert Some(store.rows[i].name) != Some(request.name);
        }
      }
    }
  }
}
