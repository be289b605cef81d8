/** `POST /api/batch/teams/load`: derives the input and error paths, increments the "TEAM"
    version counter, then launches the team job with the request's country code, the new
    version and the two paths. The launch is an outcome the caller supplies. */
module TeamJobController {
  import opened Wrappers
  import opened JavaStrings
  import opened JobTrigger
  import opened DataVersionService

  const ENTITY_NAME: string := "TEAM"
  const SUCCESS_PREFIX: string := "Team Load Job started successfully. "
  const START_FAILED: string := "Failed to start job: "

  /** The arguments the job execution service receives. */
  datatype TeamLaunch = TeamLaunch(countryCode: string, version: nat, inputFile: string, errorFile: string)

  /** What the job execution service does: return an execution, or throw the application's
      JobExecutionException with a message. */
  datatype LaunchOutcome = Started(execution: Execution) | Rejected(message: string)

  /** The outcome of one request: the reply, the launch made (if any), and the counter
      table it leaves. */
  datatype Trigger = Trigger(response: Response, launched: Option<TeamLaunch>, counts: map<string, nat>)

  /** The reply once the job execution service has answered. */
  function Reply(req: TeamLaunch, outcome: LaunchOutcome): Response {
    match outcome
    case Started(e) =>
      Response(200, StartedBody(SUCCESS_PREFIX, req.inputFile, req.errorFile, req.version, e))
    case Rejected(msg) => Response(500, START_FAILED + msg)
  }

  /** `loadTeams` as a function of the counter table: `counterFails` is the version service
      throwing, `outcome` what the launch does. */
  function LoadTeams(counts: map<string, nat>, fileName: string, countryCode: string,
                     counterFails: bool, outcome: LaunchOutcome): (r: Trigger)
    ensures r.launched.None? <==> counterFails
    ensures r.launched.None? ==> r.counts == counts
    ensures r.launched.Some? ==>
              && r.launched.value.version == Counter(r.counts, ENTITY_NAME) > Counter(counts, ENTITY_NAME)
              && r.launched.value.countryCode == countryCode
              && r.launched.value.inputFile == InputFile(fileName)
              && r.launched.value.errorFile == ErrorFile(fileName)
    ensures r.response.status == 200 || r.response.status == 500
  {
    if counterFails then Trigger(Response(500, COUNTER_FAILED), None, counts)
    else
      var (v, counts') := Next(counts, ENTITY_NAME);
      var req := TeamLaunch(countryCode, v, InputFile(fileName), ErrorFile(fileName));
      Trigger(Reply(req, outcome), Some(req), counts')
  }

  /** The controller, against the version counter it shares with the other controller. */
  method LoadTeamsRequest(counter: DataVersionCounter, fileName: string, countryCode: string,
                          counterFails: bool, outcome: LaunchOutcome)
    returns (response: Response, launched: Option<TeamLaunch>)
    modifies counter
    ensures Trigger(response, launched, counter.counts) ==
              LoadTeams(old(counter.counts), fileName, countryCode, counterFails, outcome)
  {
    var inputFile := InputFile(fileName);
    var errorFile := ErrorFile(fileName);
    if counterFails {
      response, launched := Response(500, COUNTER_FAILED), None;
      return;
    }
    var newVersion := counter.GetAndIncrementVersion(ENTITY_NAME);
    var req := TeamLaunch(countryCode, newVersion, inputFile, errorFile);
    launched := Some(req);
    response := Reply(req, outcome);
  }

  // ---------------------------------------------------------------------------
  // Properties.
  // ---------------------------------------------------------------------------

  /** A counter failure answers 500 before anything else happens: no launch and no change
      to the counter. */
  lemma CounterFailureShortCircuits(counts: map<string, nat>, fileName: string, countryCode: string, outcome: LaunchOutcome)
    ensures var r := LoadTeams(counts, fileName, countryCode, true, outcome);
            r.response == Response(500, COUNTER_FAILED) && r.launched.None? && r.counts == counts
  {
  }

  /** Otherwise the "TEAM" counter is incremented once, and the launch receives the country
      code unchanged, the new count and the two derived paths; a rejected launch does not
      undo the increment. */
  lemma IncrementThenLaunch(counts: map<string, nat>, fileName: string, countryCode: string, outcome: LaunchOutcome)
    ensures var r := LoadTeams(counts, fileName, countryCode, false, outcome);
            && r.launched.Some?
            && r.launched.value.version == Counter(counts, ENTITY_NAME) + 1
            && Counter(r.counts, ENTITY_NAME) == r.launched.value.version
            && (forall e | e != ENTITY_NAME :: Counter(r.counts, e) == Counter(counts, e))
            && r.launched.value.countryCode == countryCode
            && r.launched.value.inputFile == InputFile(fileName)
            && r.launched.value.errorFile == ErrorFile(fileName)
  {
    NextStoresReturnedValue(counts, ENTITY_NAME);
  }

  /** The reply is 200 exactly when the counter worked and the launch started; every
      failure is a 500. */
  lemma OkIffStarted(counts: map<string, nat>, fileName: string, countryCode: string,
                     counterFails: bool, outcome: LaunchOutcome)
    ensures var r := LoadTeams(counts, fileName, countryCode, counterFails, outcome);
            && (r.response.status == 200 <==> !counterFails && outcome.Started?)
            && (r.response.status != 200 ==> r.response.status == 500)
            && (!counterFails && outcome.Rejected? ==> r.response.body == START_FAILED + outcome.message)
  {
  }

  /** A successful reply names the input file, the error file and the new version. */
  lemma SuccessBodyNamesLaunch(req: TeamLaunch, e: Execution)
    ensures var body := Reply(req, Started(e)).body;
            Contains(body, req.inputFile) && Contains(body, req.errorFile) && Contains(body, IntToString(req.version))
  {
    StartedBodyNamesLaunch(SUCCESS_PREFIX, req.inputFile, req.errorFile, req.version, e);
  }
}
