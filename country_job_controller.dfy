/** `POST /api/batch/countryjobs/load`: derives the input and error paths, increments the
    "COUNTRY_JOB" version counter, then launches the country job with the new version and
    the two paths. A launcher exception is rethrown wrapped in a RuntimeException, so no
    reply is built for it. */
module CountryJobController {
  import opened Wrappers
  import opened JavaStrings
  import opened JobTrigger
  import opened DataVersionService

  const ENTITY_NAME: string := "COUNTRY_JOB"
  const SUCCESS_PREFIX: string := "Country Job Load Job started successfully. "

  /** The arguments the job execution service receives. */
  datatype CountryLaunch = CountryLaunch(version: nat, inputFile: string, errorFile: string)

  /** The four checked exceptions Spring Batch's launcher declares. */
  datatype LaunchFailure =
    | InstanceAlreadyComplete
    | ExecutionAlreadyRunning
    | ParametersInvalid
    | RestartRefused

  datatype LaunchOutcome = Started(execution: Execution) | Threw(failure: LaunchFailure)

  /** What the request ends in: a reply, or a RuntimeException wrapping the launcher's
      exception, which leaves the controller. */
  datatype Reply = Answered(response: Response) | Propagated(cause: LaunchFailure)

  datatype Trigger = Trigger(reply: Reply, launched: Option<CountryLaunch>, counts: map<string, nat>)

  /** The 200 reply once the launcher has started the job. */
  function StartedResponse(req: CountryLaunch, e: Execution): Response {
    Response(200, StartedBody(SUCCESS_PREFIX, req.inputFile, req.errorFile, req.version, e))
  }

  function LoadCountryJobs(counts: map<string, nat>, fileName: string, counterFails: bool, outcome: LaunchOutcome): (r: Trigger)
    ensures r.launched.None? <==> counterFails
    ensures r.launched.None? ==> r.counts == counts
    ensures r.launched.Some? ==>
              && r.launched.value.version == Counter(r.counts, ENTITY_NAME) > Counter(counts, ENTITY_NAME)
              && r.launched.value.inputFile == InputFile(fileName)
              && r.launched.value.errorFile == ErrorFile(fileName)
  {
    if counterFails then Trigger(Answered(Response(500, COUNTER_FAILED)), None, counts)
    else
      var (v, counts') := Next(counts, ENTITY_NAME);
      var req := CountryLaunch(v, InputFile(fileName), ErrorFile(fileName));
      match outcome
      case Started(e) =>
        Trigger(Answered(StartedResponse(req, e)), Some(req), counts')
      case Threw(failure) => Trigger(Propagated(failure), Some(req), counts')
  }

  /** The controller, against the version counter it shares with the other controller. */
  method LoadCountryJobsRequest(counter: DataVersionCounter, fileName: string, counterFails: bool, outcome: LaunchOutcome)
    returns (reply: Reply, launched: Option<CountryLaunch>)
    modifies counter
    ensures Trigger(reply, launched, counter.counts) == LoadCountryJobs(old(counter.counts), fileName, counterFails, outcome)
  {
    var inputFile := InputFile(fileName);
    var errorFile := ErrorFile(fileName);
    if counterFails {
      reply, launched := Answered(Response(500, COUNTER_FAILED)), None;
      return;
    }
    var newVersion := counter.GetAndIncrementVersion(ENTITY_NAME);
    var req := CountryLaunch(newVersion, inputFile, errorFile);
    launched := Some(req);
    match outcome {
      case Started(e) =>
        reply := Answered(StartedResponse(req, e));
      case Threw(failure) =>
        reply := Propagated(failure);
    }
  }

  // ---------------------------------------------------------------------------
  // Properties.
  // ---------------------------------------------------------------------------

  /** A counter failure answers 500 with no launch and no change to the counter. */
  lemma CounterFailureShortCircuits(counts: map<string, nat>, fileName: string, outcome: LaunchOutcome)
    ensures var r := LoadCountryJobs(counts, fileName, true, outcome);
            r.reply == Answered(Response(500, COUNTER_FAILED)) && r.launched.None? && r.counts == counts
  {
  }

  /** Otherwise the "COUNTRY_JOB" counter, and no other, is incremented once before the
      launch, which receives the new count and the two derived paths. */
  lemma IncrementThenLaunch(counts: map<string, nat>, fileName: string, outcome: LaunchOutcome)
    ensures var r := LoadCountryJobs(counts, fileName, false, outcome);
            && r.launched == Some(CountryLaunch(Counter(counts, ENTITY_NAME) + 1, InputFile(fileName), ErrorFile(fileName)))
            && Counter(r.counts, ENTITY_NAME) == Counter(counts, ENTITY_NAME) + 1
            && (forall e | e != ENTITY_NAME :: Counter(r.counts, e) == Counter(counts, e))
  {
    NextStoresReturnedValue(counts, ENTITY_NAME);
  }

  /** A launcher exception leaves the controller wrapped, after the counter was
      incremented; a started launch answers 200 for the launch it made. */
  lemma ReplyFollowsLaunch(counts: map<string, nat>, fileName: string, outcome: LaunchOutcome)
    ensures var r := LoadCountryJobs(counts, fileName, false, outcome);
            && r.launched.Some?
            && (r.reply.Propagated? <==> outcome.Threw?)
            && (outcome.Threw? ==> r.reply.cause == outcome.failure)
            && (outcome.Started? ==> r.reply == Answered(StartedResponse(r.launched.value, outcome.execution)))
  {
  }

  /** A 200 reply names the input file, the error file and the new version. */
  lemma SuccessBodyNamesLaunch(req: CountryLaunch, e: Execution)
    ensures var response := StartedResponse(req, e);
            && response.status == 200
            && Contains(response.body, req.inputFile)
            && Contains(response.body, req.errorFile)
            && Contains(response.body, IntToString(req.version))
  {
    StartedBodyNamesLaunch(SUCCESS_PREFIX, req.inputFile, req.errorFile, req.version, e);
  }

  /** The two controllers keep separate counters: a country trigger leaves the "TEAM"
      count as it was. */
  lemma SeparateCounters(counts: map<string, nat>, fileName: string, counterFails: bool, outcome: LaunchOutcome)
    ensures Counter(LoadCountryJobs(counts, fileName, counterFails, outcome).counts, "TEAM") == Counter(counts, "TEAM")
  {
    NextStoresReturnedValue(counts, ENTITY_NAME);
  }
}
