/** Registering a season of a competition: look the competition up by name, then save one
    TEAM_COMPETITION_SEASON row carrying it, the two season years and the request's audit
    value. There is no team lookup and no duplicate check. */
module TeamCompetitionSeasonService {
  import opened Wrappers
  import opened JavaStrings
  import opened CompetitionService

  datatype BatchRequest = BatchRequest(competitionName: Option<string>, seasonStartYear: int,
                                       seasonEndYear: int, updatedBy: Option<string>)

  /** A TEAM_COMPETITION_SEASON row; the competition reference is saved as its id. */
  datatype Season = Season(id: nat, competitionId: nat, seasonStartYear: int, seasonEndYear: int,
                           updatedBy: Option<string>)

  datatype SeasonStore = SeasonStore(rows: seq<Season>, nextId: nat)

  /** `String.format("Failed: Competition '%s' not found.", name)`; `%s` of null is "null". */
  function NotFoundMessage(name: Option<string>): string {
    "Failed: Competition '" + Str(name) + "' not found."
  }

  function ProcessedMessage(name: string): string {
    "Competition '" + name + "' batch request processed for "
  }

  /** `processBatchRequest` against the COMPETITION rows: the response message and the
      season store it leaves. */
  function Process(store: SeasonStore, competitions: seq<Competition>, request: BatchRequest): (r: (string, SeasonStore))
    ensures store.rows <= r.1.rows && |r.1.rows| <= |store.rows| + 1
    ensures |r.1.rows| == |store.rows| + 1 ==>
              && r.1.nextId == store.nextId + 1
              && r.1.rows[|store.rows|].id == store.nextId
              && r.1.rows[|store.rows|].seasonStartYear == request.seasonStartYear
              && r.1.rows[|store.rows|].seasonEndYear == request.seasonEndYear
              && exists c | c in competitions :: request.competitionName == Some(c.name) && r.1.rows[|store.rows|].competitionId == c.competitionId
    ensures |r.1.rows| == |store.rows| ==> r.1 == store
  {
    match FindCompetitionByName(competitions, request.competitionName)
    case None => (NotFoundMessage(request.competitionName), store)
    case Some(c) =>
      var row := Season(store.nextId, c.competitionId, request.seasonStartYear, request.seasonEndYear, request.updatedBy);
      (ProcessedMessage(c.name), SeasonStore(store.rows + [row], store.nextId + 1))
  }

  class SeasonRepository {
    var rows: seq<Season>
    var nextId: nat

    function State(): SeasonStore
      reads this
    {
      SeasonStore(rows, nextId)
    }

    constructor (initial: SeasonStore)
      ensures State() == initial
    {
      rows := initial.rows;
      nextId := initial.nextId;
    }

    /** `save` of a new entity: the identity column assigns its id. */
    method Save(entity: Season)
      modifies this
      ensures rows == old(rows) + [entity.(id := old(nextId))] && nextId == old(nextId) + 1
    {
      rows := rows + [entity.(id := nextId)];
      nextId := nextId + 1;
    }
  }

  method ProcessBatchRequest(repository: SeasonRepository, competitions: seq<Competition>, request: BatchRequest)
    returns (message: string)
    modifies repository
    ensures (message, repository.State()) == Process(old(repository.State()), competitions, request)
  {
    var found := FindCompetitionByName(competitions, request.competitionName);
    if found.None? {
      message := NotFoundMessage(request.competitionName);
      return;
    }
    var competition := found.value;
    var entity := Season(0, competition.competitionId, request.seasonStartYear, request.seasonEndYear, request.updatedBy);
    repository.Save(entity);
    message := ProcessedMessage(competition.name);
  }

  // ---------------------------------------------------------------------------
  // Properties.
  // ---------------------------------------------------------------------------

  /** An unknown competition name saves nothing and reports the name; a null name is never
      found. */
  lemma UnknownCompetitionSavesNothing(store: SeasonStore, competitions: seq<Competition>, request: BatchRequest)
    requires forall c | c in competitions :: request.competitionName != Some(c.name)
    ensures Process(store, competitions, request) == (NotFoundMessage(request.competitionName), store)
  {
  }

  /** A known competition saves exactly one row, appended with the next id, carrying that
      competition and the request's years and audit value as given, and the message names
      the competition. */
  lemma KnownCompetitionSavesOneRow(store: SeasonStore, competitions: seq<Competition>, request: BatchRequest, i: nat)
    requires i < |competitions| && request.competitionName == Some(competitions[i].name)
    ensures var (message, store') := Process(store, competitions, request);
            exists c | c in competitions ::
              && request.competitionName == Some(c.name)
              && message == ProcessedMessage(request.competitionName.value)
              && store'.rows == store.rows + [Season(store.nextId, c.competitionId, request.seasonStartYear,
                                                     request.seasonEndYear, request.updatedBy)]
              && store'.nextId == store.nextId + 1
  {
    assert !(forall j | 0 <= j < |competitions| :: request.competitionName != Some(competitions[j].name));
    var c := FindCompetitionByName(competitions, request.competitionName).value;
    assert c in competitions;
  }

  /** Nothing guards against repeats: the same request twice saves two rows that differ
      only in their ids, and the years are stored even when the season ends before it
      starts. */
  lemma RepeatedRequestSavesAgain(store: SeasonStore, competitions: seq<Competition>, request: BatchRequest)
    requires FindCompetitionByName(competitions, request.competitionName).Some?
    ensures var store1 := Process(store, competitions, request).1;
            var store2 := Process(store1, competitions, request).1;
            && |store2.rows| == |store.rows| + 2
            && store2.rows[|store.rows|] == store2.rows[|store.rows| + 1].(id := store.nextId)
            && store2.rows[|store.rows| + 1].seasonStartYear == request.seasonStartYear
            && store2.rows[|store.rows| + 1].seasonEndYear == request.seasonEndYear
  {
  }
}
