/** `POST /api/v1/competition`: calls the service, answers 201 with a DTO that leaves out
    the country, and turns the service's exceptions into HTTP statuses. */
module CompetitionController {
  import opened Wrappers
  import opened CompetitionService

  const UNEXPECTED: string := "An unexpected error occurred during competition creation."

  /** The client-facing competition: everything but the country. */
  datatype CompetitionDto = CompetitionDto(competitionId: nat, name: string, createdAt: int,
                                           updatedAt: int, updatedBy: string)

  /** A 201 carrying the DTO, or a ResponseStatusException with its status and reason. */
  datatype ApiResponse = Created(dto: CompetitionDto) | StatusError(status: nat, reason: string)

  function MapToDto(c: Competition): CompetitionDto {
    CompetitionDto(c.competitionId, c.name, c.createdAt, c.updatedAt, c.updatedBy)
  }

  /** The catch clauses, in order: IllegalStateException, IllegalArgumentException, any
      other exception. */
  function ToResponse(r: Result<Competition, ServiceError>): (response: ApiResponse)
    ensures response.Created? <==> r.Success?
    ensures r.Success? ==> response.dto.competitionId == r.value.competitionId && response.dto.name == r.value.name
    ensures response.StatusError? ==> response.status in {400, 409, 500}
  {
    match r
    case Success(c) => Created(MapToDto(c))
    case Failure(IllegalState(msg)) => StatusError(409, msg)
    case Failure(IllegalArgument(msg)) => StatusError(400, msg)
    case Failure(NonUniqueResult) => StatusError(500, UNEXPECTED)
  }

  function StatusCode(response: ApiResponse): nat {
    if response.Created? then 201 else response.status
  }

  /** The controller method against the service's repository. */
  method CreateCompetition(repository: CompetitionRepository, countries: seq<Country>,
                           request: CompetitionRequest, now: int)
    returns (response: ApiResponse)
    modifies repository
    ensures response == ToResponse(Create(old(repository.State()), countries, request, now).0)
    ensures repository.State() == Create(old(repository.State()), countries, request, now).1
  {
    var result := CompetitionService.CreateCompetition(repository, countries, request, now);
    response := ToResponse(result);
  }

  // ---------------------------------------------------------------------------
  // Properties.
  // ---------------------------------------------------------------------------

  /** Each outcome has its own status: 201 for a creation, 409 for IllegalStateException
      and 400 for IllegalArgumentException (both keeping the message), 500 with a fixed
      reason for anything else. */
  lemma StatusMapping(r: Result<Competition, ServiceError>)
    ensures StatusCode(ToResponse(r)) == 201 <==> r.Success?
    ensures StatusCode(ToResponse(r)) == 409 <==> r.Failure? && r.error.IllegalState?
    ensures StatusCode(ToResponse(r)) == 400 <==> r.Failure? && r.error.IllegalArgument?
    ensures StatusCode(ToResponse(r)) == 500 <==> r.Failure? && r.error.NonUniqueResult?
    ensures r.Failure? && !r.error.NonUniqueResult? ==> ToResponse(r).reason == r.error.message
    ensures r.Failure? && r.error.NonUniqueResult? ==> ToResponse(r).reason == UNEXPECTED
  {
  }

  /** The DTO keeps every field of the competition except its country: two competitions
      have the same DTO exactly when they differ at most in the country. */
  lemma MapToDtoOmitsOnlyCountry(c1: Competition, c2: Competition)
    ensures MapToDto(c1) == MapToDto(c2) <==> c1 == c2.(countryId := c1.countryId)
  {
  }

  /** A duplicate name is answered 409 with the service's message, and nothing is saved. */
  lemma DuplicateIsConflict(store: CompetitionStore, countries: seq<Country>, request: CompetitionRequest, now: int, i: nat)
    requires i < |store.rows| && store.rows[i].name == request.name
    ensures var (r, store') := Create(store, countries, request, now);
            ToResponse(r) == StatusError(409, AlreadyExists(request.name)) && store' == store
  {
    DuplicateRejected(store, countries, request, now, i);
  }
}
