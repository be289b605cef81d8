/** The one-time team load gate: on every scheduler tick, unless a DATA_VERSION row with
    VERSION "1.0.0" exists, launch the team job with country code "ENG", that version and
    the tick's time, and record the version when the launcher returns. This DATA_VERSION
    layout (VERSION, LOAD_DATE) is not the counter's (ENTITY_NAME, VERSION_COUNT). */
module TeamLoadJobScheduler {
  import opened ChunkStep

  const DATA_VERSION: string := "1.0.0"
  const COUNTRY_CODE: string := "ENG"

  /** The job parameters of one launch. */
  datatype JobParams = JobParams(countryCode: string, dataVersion: string, time: int)

  /** What the launcher did: returned an execution (whatever its status) or threw a
      JobExecutionException. */
  datatype LaunchOutcome = Returned(status: Status) | Threw(message: string)

  /** The VERSION column of the DATA_VERSION rows, and the launches made so far. */
  datatype GateState = GateState(versions: seq<string>, launches: seq<JobParams>)

  /** One tick: the time it reads and what the launcher does if called. */
  datatype Tick = Tick(time: int, outcome: LaunchOutcome)

  /** `SELECT COUNT(*) FROM DATA_VERSION WHERE VERSION = ?`. */
  function CountVersion(rows: seq<string>, version: string): nat
    decreases |rows|
  {
    if rows == [] then 0
    else CountVersion(rows[..|rows| - 1], version) + (if rows[|rows| - 1] == version then 1 else 0)
  }

  predicate IsLoaded(rows: seq<string>, version: string) {
    CountVersion(rows, version) > 0
  }

  /** A version is loaded exactly when some row carries it. */
  lemma {:induction false} IsLoadedIff(rows: seq<string>, version: string)
    ensures IsLoaded(rows, version) <==> version in rows
    decreases |rows|
  {
    if rows != [] {
      var init := rows[..|rows| - 1];
      IsLoadedIff(init, version);
      assert rows == init + [rows[|rows| - 1]];
    }
  }

  lemma CountVersionAppend(rows: seq<string>, row: string, version: string)
    ensures CountVersion(rows + [row], version) == CountVersion(rows, version) + (if row == version then 1 else 0)
  {
    assert (rows + [row])[..|rows|] == rows;
  }

  /** One run of `runOneTimeTeamLoadJob`. */
  function Step(s: GateState, t: Tick): (r: GateState)
    ensures IsLoaded(s.versions, DATA_VERSION) ==> r == s
    ensures !IsLoaded(s.versions, DATA_VERSION) ==>
              r.launches == s.launches + [JobParams(COUNTRY_CODE, DATA_VERSION, t.time)]
    ensures !IsLoaded(s.versions, DATA_VERSION) ==>
              r.versions == s.versions + (if t.outcome.Returned? then [DATA_VERSION] else [])
  {
    if IsLoaded(s.versions, DATA_VERSION) then s
    else
      var launches := s.launches + [JobParams(COUNTRY_CODE, DATA_VERSION, t.time)];
      match t.outcome
      case Returned(_) => GateState(s.versions + [DATA_VERSION], launches)
      case Threw(_) => GateState(s.versions, launches)
  }

  class Scheduler {
    var versions: seq<string>
    var launches: seq<JobParams>

    function State(): GateState
      reads this
    {
      GateState(versions, launches)
    }

    constructor (initial: GateState)
      ensures State() == initial
    {
      versions := initial.versions;
      launches := initial.launches;
    }

    /** `isDataVersionLoaded`: counts the rows carrying the version. */
    method IsDataVersionLoaded(version: string) returns (loaded: bool)
      ensures loaded <==> version in versions
    {
      var count := 0;
      var i := 0;
      while i < |versions|
        invariant 0 <= i <= |versions|
        invariant count == CountVersion(versions[..i], version)
      {
        CountVersionAppend(versions[..i], versions[i], version);
        assert versions[..i + 1] == versions[..i] + [versions[i]];
        if versions[i] == version {
          count := count + 1;
        }
        i := i + 1;
      }
      assert versions[..i] == versions;
      loaded := count > 0;
      IsLoadedIff(versions, version);
    }

    /** `recordDataVersion`: inserts one row. */
    method RecordDataVersion(version: string)
      modifies this
      ensures versions == old(versions) + [version] && launches == old(launches)
    {
      versions := versions + [version];
    }

    /** `runOneTimeTeamLoadJob` at time `now`, the launcher behaving as `outcome`. */
    method RunOneTimeTeamLoadJob(now: int, outcome: LaunchOutcome)
      modifies this
      ensures State() == Step(old(State()), Tick(now, outcome))
    {
      var isLoaded := IsDataVersionLoaded(DATA_VERSION);
      IsLoadedIff(versions, DATA_VERSION);
      if isLoaded {
        return;
      }
      var params := JobParams(COUNTRY_CODE, DATA_VERSION, now);
      launches := launches + [params];
      if outcome.Returned? {
        RecordDataVersion(DATA_VERSION);
      }
    }
  }

  // ---------------------------------------------------------------------------
  // Sequential ticks.
  // ---------------------------------------------------------------------------

  /** The state after a sequence of ticks. */
  function Ticks(s: GateState, ts: seq<Tick>): (r: GateState)
    ensures s.versions <= r.versions && s.launches <= r.launches
    ensures |r.launches| <= |s.launches| + |ts|
    decreases |ts|
  {
    if ts == [] then s else Step(Ticks(s, ts[..|ts| - 1]), ts[|ts| - 1])
  }

  /** The parameters a sequence of launching ticks passes. */
  function Launches(ts: seq<Tick>): (r: seq<JobParams>)
    ensures |r| == |ts|
    ensures forall i | 0 <= i < |ts| :: r[i] == JobParams(COUNTRY_CODE, DATA_VERSION, ts[i].time)
  {
    seq(|ts|, i requires 0 <= i < |ts| => JobParams(COUNTRY_CODE, DATA_VERSION, ts[i].time))
  }

  predicate AllThrew(ts: seq<Tick>) {
    forall i | 0 <= i < |ts| :: ts[i].outcome.Threw?
  }

  /** The first tick whose launch returned. */
  function FirstReturned(ts: seq<Tick>): (k: nat)
    requires !AllThrew(ts)
    ensures k < |ts| && ts[k].outcome.Returned? && AllThrew(ts[..k])
    decreases |ts|
  {
    if ts[0].outcome.Returned? then 0
    else
      var k := FirstReturned(ts[1..]);
      assert ts[..k + 1] == [ts[0]] + ts[1..][..k];
      k + 1
  }

  lemma {:induction false} TicksAppend(s: GateState, ts: seq<Tick>, us: seq<Tick>)
    ensures Ticks(s, ts + us) == Ticks(Ticks(s, ts), us)
    decreases |us|
  {
    if us == [] {
      assert ts + us == ts;
    } else {
      var init := us[..|us| - 1];
      TicksAppend(s, ts, init);
      assert (ts + us)[..|ts + us| - 1] == ts + init;
    }
  }

  /** Once the version is recorded, ticks change nothing. */
  lemma {:induction false} LoadedIsFinal(s: GateState, ts: seq<Tick>)
    requires IsLoaded(s.versions, DATA_VERSION)
    ensures Ticks(s, ts) == s
    decreases |ts|
  {
    if ts != [] {
      LoadedIsFinal(s, ts[..|ts| - 1]);
    }
  }

  /** While every launch throws, each tick launches again and nothing is recorded. */
  lemma {:induction false} FailedLaunchesRetry(s: GateState, ts: seq<Tick>)
    requires !IsLoaded(s.versions, DATA_VERSION)
    requires AllThrew(ts)
    ensures Ticks(s, ts) == GateState(s.versions, s.launches + Launches(ts))
    decreases |ts|
  {
    if ts != [] {
      var init := ts[..|ts| - 1];
      FailedLaunchesRetry(s, init);
      assert ts == init + [ts[|ts| - 1]];
      LaunchesSnoc(init, ts[|ts| - 1]);
    }
  }

  /** A launch that returns after launches that threw records the version. */
  lemma ReturnAfterFailures(s: GateState, before: seq<Tick>, t: Tick)
    requires !IsLoaded(s.versions, DATA_VERSION)
    requires AllThrew(before) && t.outcome.Returned?
    ensures Ticks(s, before + [t]) == GateState(s.versions + [DATA_VERSION], s.launches + Launches(before + [t]))
  {
    FailedLaunchesRetry(s, before);
    assert (before + [t])[..|before|] == before;
    LaunchesSnoc(before, t);
    var p := JobParams(COUNTRY_CODE, DATA_VERSION, t.time);
    assert s.launches + Launches(before) + [p] == s.launches + (Launches(before) + [p]);
  }

  lemma LaunchesSnoc(ts: seq<Tick>, t: Tick)
    ensures Launches(ts + [t]) == Launches(ts) + [JobParams(COUNTRY_CODE, DATA_VERSION, t.time)]
  {
    var a, b := Launches(ts + [t]), Launches(ts) + [JobParams(COUNTRY_CODE, DATA_VERSION, t.time)];
    assert |a| == |b|;
    forall i | 0 <= i < |a|
      ensures a[i] == b[i]
    {
      if i < |ts| {
        assert (ts + [t])[i] == ts[i];
      }
    }
  }

  /** Starting without the version row, the first launch that returns records it; the ticks
      up to and including that one launch the job, and no later tick does. */
  lemma RecordedAtFirstReturn(s: GateState, ts: seq<Tick>)
    requires !IsLoaded(s.versions, DATA_VERSION)
    requires !AllThrew(ts)
    ensures var k := FirstReturned(ts);
            Ticks(s, ts) == GateState(s.versions + [DATA_VERSION], s.launches + Launches(ts[..k + 1]))
  {
    var k := FirstReturned(ts);
    var done := ts[..k + 1];
    UpToFirstReturn(s, ts, k);
    CountVersionAppend(s.versions, DATA_VERSION, DATA_VERSION);
    LoadedIsFinal(Ticks(s, done), ts[k + 1..]);
    TicksAppend(s, done, ts[k + 1..]);
    assert done + ts[k + 1..] == ts;
  }

  lemma UpToFirstReturn(s: GateState, ts: seq<Tick>, k: nat)
    requires !IsLoaded(s.versions, DATA_VERSION)
    requires k < |ts| && ts[k].outcome.Returned? && AllThrew(ts[..k])
    ensures Ticks(s, ts[..k + 1]) == GateState(s.versions + [DATA_VERSION], s.launches + Launches(ts[..k + 1]))
  {
    assert ts[..k + 1] == ts[..k] + [ts[k]];
    ReturnAfterFailures(s, ts[..k], ts[k]);
  }

  /** Over sequential ticks starting without the version row, at most one "1.0.0" row is
      ever inserted. */
  lemma AtMostOneVersionRow(s: GateState, ts: seq<Tick>)
    requires !IsLoaded(s.versions, DATA_VERSION)
    ensures CountVersion(Ticks(s, ts).versions, DATA_VERSION) <= 1
  {
    if AllThrew(ts) {
      FailedLaunchesRetry(s, ts);
    } else {
      RecordedAtFirstReturn(s, ts);
      CountVersionAppend(s.versions, DATA_VERSION, DATA_VERSION);
    }
  }

  /** The launcher's returned status is not inspected: a failed execution records the
      version just as a completed one does. */
  lemma ReturnedStatusIgnored(s: GateState, time: int, st1: Status, st2: Status)
    ensures Step(s, Tick(time, Returned(st1))) == Step(s, Tick(time, Returned(st2)))
  {
  }
}
