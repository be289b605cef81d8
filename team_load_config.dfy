/** The team load job: a reader over the seven-column team file, the team processor
    (which resolves country codes against the COUNTRY table), a MERGE writer keyed on NAME,
    and a fault-tolerant step committing chunks of 10 that tolerates 100 skips of any
    runtime exception and reports each skip to the skip listener. */
module TeamLoadConfig {
  import opened Wrappers
  import opened Upsert
  import opened ChunkStep
  import opened FlatFileReading
  import opened BatchRecords
  import opened CountryIdLookupService
  import TeamItemProcessor

  const COLUMN_NAMES: seq<string> :=
    ["name", "teamType", "stadiumName", "establishedYear", "nickname", "stadiumCapacity", "countryCode"]
  const CHUNK_SIZE: nat := 10
  const SKIP_LIMIT: nat := 100
  /** ValidationException, DataAccessException and RuntimeException: the last covers every
      kind of exception a record can raise. */
  const STEP: StepConfig := StepConfig(CHUNK_SIZE, SKIP_LIMIT, {Validation, DataAccess, FlatFileParse, OtherRuntime})

  type TeamTable = Table<string, TeamColumns>

  /** A tokenized line, its fields taken by position. */
  function MapFields(f: seq<string>): TeamCsvInput
    requires |f| == |COLUMN_NAMES|
  {
    TeamCsvInput(Some(f[0]), Some(f[1]), Some(f[2]), Some(f[3]), Some(f[4]), Some(f[5]), Some(f[6]))
  }

  /** Reading and processing one record: a parse failure and a validation failure are
      exceptions, a null from the processor filters the record. */
  function OutcomeOf(record: Result<seq<string>, ExceptionKind>, countries: CountryTable): (o: ItemOutcome<TeamDBOutput>)
    requires record.Success? ==> |record.value| == |COLUMN_NAMES|
    ensures o.Emit? <==> record.Success? && TeamItemProcessor.Process(MapFields(record.value), countries).Output?
    ensures o.Filter? <==> record.Success? && TeamItemProcessor.Process(MapFields(record.value), countries).Filtered?
    ensures o.Emit? ==> o.item == TeamItemProcessor.Process(MapFields(record.value), countries).out
  {
    match record
    case Failure(k) => Throw(k)
    case Success(fields) =>
      match TeamItemProcessor.Process(MapFields(fields), countries)
      case Output(out) => Emit(out)
      case Filtered(_) => Filter
      case Invalid(_) => Throw(Validation)
  }

  function Outcomes(lines: seq<string>, countries: CountryTable): seq<ItemOutcome<TeamDBOutput>>
  {
    var records := Records(lines, |COLUMN_NAMES|);
    seq(|records|, i requires 0 <= i < |records| => OutcomeOf(records[i], countries))
  }

  /** The writer's parameter binding, keyed on NAME; the `countryCode` slot goes to
      COUNTRY_ID. */
  function Binding(out: TeamDBOutput): (string, TeamColumns) {
    (out.name, TeamColumns(out.teamType, out.stadiumName, out.establishedYear, out.nickname,
                           out.stadiumCapacity, out.countryCode, out.updatedBy))
  }

  /** The job: its status, the skips reported to the listener, and the TEAM table it
      leaves. The COUNTRY table is only read. */
  function Load(files: map<string, seq<string>>, path: string, countries: CountryTable, t: TeamTable)
    : (r: (Status, seq<SkipEvent>, TeamTable))
    ensures !r.0.Running?
    ensures Open(files, path).Failure? ==> r == (Failed(SourceUnavailable), [], t)
    ensures t.rows.Keys <= r.2.rows.Keys
  {
    match Open(files, path)
    case Failure(cause) => (Failed(cause), [], t)
    case Success(lines) =>
      var run := Run(STEP, Outcomes(lines, countries));
      (run.status, run.skips, MergeAll(t, Bind(Binding, run.committed)))
  }

  /** Runs the team job against the TEAM table. */
  method TeamLoadJob(files: map<string, seq<string>>, path: string, countries: CountryTable,
                     table: MergeTable<string, TeamColumns>)
    returns (status: Status, notified: seq<SkipEvent>)
    modifies table
    ensures (status, notified, table.State()) == Load(files, path, countries, old(table.State()))
  {
    var input := Open(files, path);
    if input.Failure? {
      status, notified := Failed(input.error), [];
      return;
    }
    var outcomes := Outcomes(input.value, countries);
    status, notified := RunStep(STEP, outcomes, Binding, table);
  }

  // ---------------------------------------------------------------------------
  // Properties.
  // ---------------------------------------------------------------------------

  /** Every exception is skippable: the step completes exactly when at most 100 records
      raise one. The listener has then heard of every skip exactly once, chunk by chunk,
      and in record order when every line tokenized. */
  lemma CompletesIffWithinHundredSkips(lines: seq<string>, countries: CountryTable)
    ensures var xs := Outcomes(lines, countries);
            && (Run(STEP, xs).status == Completed <==> Throws(xs) <= 100)
            && (Throws(xs) <= 100 ==>
                  && Run(STEP, xs).committed == Emitted(xs)
                  && Run(STEP, xs).skips == Notices(STEP.chunkSize, xs)
                  && multiset(Run(STEP, xs).skips) == multiset(SkipLog(xs, 0))
                  && (NoReadFailure(xs) ==> Run(STEP, xs).skips == SkipLog(xs, 0)))
            && (Throws(xs) > 100 ==> Run(STEP, xs).status == Failed(SkipLimitExceeded))
  {
    var xs := Outcomes(lines, countries);
    assert AllSkippable(STEP, xs);
    RunCompletesIffWithinBudget(STEP, xs);
    SkipLimitBoundary(STEP, xs);
    NoticesPermutes(STEP.chunkSize, xs);
    if NoReadFailure(xs) {
      NoticesInOrder(STEP.chunkSize, xs);
    }
  }

  /** Every row the job writes references an existing COUNTRY row, carries the job's audit
      value, and has a name with text; rows it does not write are left as they were. */
  lemma LoadWritesResolvedRows(files: map<string, seq<string>>, path: string, countries: CountryTable, t: TeamTable)
    ensures var t' := Load(files, path, countries, t).2;
            forall k | k in t'.rows ::
              || (k in t.rows && t'.rows[k] == t.rows[k])
              || (&& (exists c | c in countries.rows :: countries.rows[c].id == t'.rows[k].columns.countryId)
                  && t'.rows[k].columns.updatedBy == TeamItemProcessor.SYSTEM_USER
                  && JavaStrings.HasText(Some(k)))
  {
    if Open(files, path).Success? {
      var lines := Open(files, path).value;
      var run := Run(STEP, Outcomes(lines, countries));
      var items := Bind(Binding, run.committed);
      var t' := MergeAll(t, items);
      forall k | k in t'.rows && !(k in t.rows && t'.rows[k] == t.rows[k])
        ensures exists c | c in countries.rows :: countries.rows[c].id == t'.rows[k].columns.countryId
        ensures t'.rows[k].columns.updatedBy == TeamItemProcessor.SYSTEM_USER
        ensures JavaStrings.HasText(Some(k))
      {
        MergeAllRowOrigin(t, items, k);
        var i :| 0 <= i < |items| && items[i] == (k, t'.rows[k].columns);
        CommittedItemResolved(lines, countries, run.committed[i]);
      }
    }
  }

  /** An item the step committed names an existing country and carries the audit value. */
  lemma CommittedItemResolved(lines: seq<string>, countries: CountryTable, y: TeamDBOutput)
    requires y in Run(STEP, Outcomes(lines, countries)).committed
    ensures && (exists c | c in countries.rows :: countries.rows[c].id == Binding(y).1.countryId)
            && Binding(y).1.updatedBy == TeamItemProcessor.SYSTEM_USER
            && JavaStrings.HasText(Some(Binding(y).0))
  {
    var xs := Outcomes(lines, countries);
    CommittedFromRecords(STEP, xs);
    var j :| 0 <= j < |xs| && xs[j] == Emit(y);
    var records := Records(lines, |COLUMN_NAMES|);
    TeamItemProcessor.ProcessOutput(MapFields(records[j].value), countries);
  }

  /** Loading the same file again against the same countries leaves the TEAM table as the
      first load left it and reports the same status and skips. */
  lemma ReloadIsIdempotent(files: map<string, seq<string>>, path: string, countries: CountryTable, t: TeamTable)
    ensures Load(files, path, countries, Load(files, path, countries, t).2) == Load(files, path, countries, t)
  {
    if Open(files, path).Success? {
      var run := Run(STEP, Outcomes(Open(files, path).value, countries));
      MergeAllIdempotent(t, Bind(Binding, run.committed));
    }
  }

  /** A reload refreshes existing rows in place: a team already stored keeps its row id,
      and a file naming only stored teams inserts nothing. */
  lemma ReloadKeepsRowIds(files: map<string, seq<string>>, path: string, countries: CountryTable, t: TeamTable, k: string)
    requires k in t.rows
    ensures var t' := Load(files, path, countries, t).2;
            k in t'.rows && t'.rows[k].id == t.rows[k].id
  {
    if Open(files, path).Success? {
      var run := Run(STEP, Outcomes(Open(files, path).value, countries));
      MergeAllAt(t, Bind(Binding, run.committed), k);
    }
  }

  /** Filtered records cost nothing from the skip budget: only exceptions count. */
  lemma FilteredRecordsAreNotSkips(lines: seq<string>, countries: CountryTable)
    ensures |Run(STEP, Outcomes(lines, countries)).skips| <= Throws(Outcomes(lines, countries))
  {
    SkipsBoundedByThrows(STEP, Outcomes(lines, countries));
  }
}
