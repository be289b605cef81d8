/** The country load job: a reader over the two-column country file, the country
    processor, a MERGE writer keyed on CODE, and a fault-tolerant step committing chunks of
    10 that tolerates 10 skips of validation or data-access failures. */
module CountryLoadConfig {
  import opened Wrappers
  import opened JavaStrings
  import opened Upsert
  import opened ChunkStep
  import opened FlatFileReading
  import opened BatchRecords
  import CountryItemProcessor

  const COLUMN_NAMES: seq<string> := ["countryId", "countryName"]
  const CHUNK_SIZE: nat := 10
  const SKIP_LIMIT: nat := 10
  const STEP: StepConfig := StepConfig(CHUNK_SIZE, SKIP_LIMIT, {Validation, DataAccess})

  type CountryTable = Table<string, CountryColumns>

  /** A tokenized line, its fields taken by position as (countryId, countryName). */
  function MapFields(fields: seq<string>): CountryCsvInput
    requires |fields| == |COLUMN_NAMES|
  {
    CountryCsvInput(Some(fields[0]), Some(fields[1]))
  }

  /** Reading and processing one record: a parse failure or a validation failure is an
      exception, anything else an item for the writer. */
  function OutcomeOf(record: Result<seq<string>, ExceptionKind>): (o: ItemOutcome<CountryDBOutput>)
    requires record.Success? ==> |record.value| == |COLUMN_NAMES|
    ensures o.Emit? <==> record.Success? && CountryItemProcessor.Process(MapFields(record.value)).Success?
    ensures o.Emit? ==> o.item == CountryItemProcessor.Process(MapFields(record.value)).value
    ensures o.Throw? ==> o.kind == (if record.Success? then Validation else record.error)
    ensures !o.Filter?
  {
    match record
    case Failure(k) => Throw(k)
    case Success(fields) =>
      match CountryItemProcessor.Process(MapFields(fields))
      case Success(out) => Emit(out)
      case Failure(_) => Throw(Validation)
  }

  /** The outcomes of the records of a file. */
  function Outcomes(lines: seq<string>): (r: seq<ItemOutcome<CountryDBOutput>>)
  {
    var records := Records(lines, |COLUMN_NAMES|);
    seq(|records|, i requires 0 <= i < |records| => OutcomeOf(records[i]))
  }

  /** The writer's parameter binding: `NAME <- :code`, `CODE <- :name`, keyed on CODE. */
  function Binding(out: CountryDBOutput): (string, CountryColumns) {
    (out.name, CountryColumns(out.code, out.updatedBy))
  }

  /** The job: open the input, run the step, and the COUNTRY table it leaves. */
  function Load(files: map<string, seq<string>>, path: string, t: CountryTable): (r: (Status, CountryTable))
    ensures !r.0.Running?
    ensures Open(files, path).Failure? ==> r == (Failed(SourceUnavailable), t)
    ensures t.rows.Keys <= r.1.rows.Keys
  {
    match Open(files, path)
    case Failure(cause) => (Failed(cause), t)
    case Success(lines) =>
      var run := Run(STEP, Outcomes(lines));
      (run.status, MergeAll(t, Bind(Binding, run.committed)))
  }

  /** Runs the country job against the COUNTRY table. */
  method CountryLoadJob(files: map<string, seq<string>>, path: string, table: MergeTable<string, CountryColumns>)
    returns (status: Status)
    modifies table
    ensures (status, table.State()) == Load(files, path, old(table.State()))
  {
    var input := Open(files, path);
    if input.Failure? {
      status := Failed(input.error);
      return;
    }
    var outcomes := Outcomes(input.value);
    var skips;
    status, skips := RunStep(STEP, outcomes, Binding, table);
  }

  // ---------------------------------------------------------------------------
  // Properties.
  // ---------------------------------------------------------------------------

  /** The two swaps cancel: an accepted row is stored under its trimmed id as CODE, with
      its trimmed name as NAME. */
  lemma BindingCancels(item: CountryCsvInput)
    requires CountryItemProcessor.Process(item).Success?
    ensures Binding(CountryItemProcessor.Process(item).value) ==
              (Trim(item.countryId.value), CountryColumns(Trim(item.countryName.value), CountryItemProcessor.UPDATED_BY))
  {
    CountryItemProcessor.ProcessOutput(item);
  }

  /** A well-formed country row. */
  predicate ValidCountryRow(code: string, columns: CountryColumns) {
    && Utf16Length(code) == 3 && Trim(code) == code
    && columns.name != [] && Trim(columns.name) == columns.name
    && columns.updatedBy == CountryItemProcessor.UPDATED_BY
  }

  /** Whatever the file, every row the job writes has a trimmed CODE of three UTF-16 units
      and a non-empty trimmed NAME; rows it does not write are left as they were. */
  lemma LoadWritesValidRows(files: map<string, seq<string>>, path: string, t: CountryTable)
    ensures var t' := Load(files, path, t).1;
            forall k | k in t'.rows :: (k in t.rows && t'.rows[k] == t.rows[k]) || ValidCountryRow(k, t'.rows[k].columns)
  {
    if Open(files, path).Success? {
      var xs := Outcomes(Open(files, path).value);
      var run := Run(STEP, xs);
      var items := Bind(Binding, run.committed);
      var t' := MergeAll(t, items);
      CommittedFromRecords(STEP, xs);
      forall k | k in t'.rows && !(k in t.rows && t'.rows[k] == t.rows[k])
        ensures ValidCountryRow(k, t'.rows[k].columns)
      {
        MergeAllRowOrigin(t, items, k);
        var i :| 0 <= i < |items| && items[i] == (k, t'.rows[k].columns);
        var j :| 0 <= j < |xs| && xs[j] == Emit(run.committed[i]);
        var records := Records(Open(files, path).value, |COLUMN_NAMES|);
        CountryItemProcessor.ProcessOutput(MapFields(records[j].value));
      }
    }
  }

  /** Loading the same file again leaves the table as the first load left it, whether
      the step completed or failed: the outcomes do not depend on the table and MERGE is
      idempotent. */
  lemma ReloadIsIdempotent(files: map<string, seq<string>>, path: string, t: CountryTable)
    ensures Load(files, path, Load(files, path, t).1) == Load(files, path, t)
  {
    if Open(files, path).Success? {
      var run := Run(STEP, Outcomes(Open(files, path).value));
      MergeAllIdempotent(t, Bind(Binding, run.committed));
    }
  }

  /** Only validation and data-access failures are skippable: a line with the wrong number
      of fields fails the whole step. */
  lemma MalformedLineFailsStep(lines: seq<string>, i: nat)
    requires i < |Records(lines, |COLUMN_NAMES|)| && Records(lines, |COLUMN_NAMES|)[i].Failure?
    ensures Run(STEP, Outcomes(lines)).status.Failed?
  {
    var xs := Outcomes(lines);
    assert xs[i] == Throw(FlatFileParse);
    assert !AllSkippable(STEP, xs);
    RunCompletesIffWithinBudget(STEP, xs);
  }

  /** A file whose lines all tokenize completes with at most 10 rejected rows, writing
      every accepted row, and fails on the eleventh. */
  lemma SkipLimitOfTen(lines: seq<string>)
    requires forall i | 0 <= i < |Records(lines, |COLUMN_NAMES|)| :: Records(lines, |COLUMN_NAMES|)[i].Success?
    ensures var xs := Outcomes(lines);
            && (Throws(xs) <= 10 ==> Run(STEP, xs).status == Completed && Run(STEP, xs).committed == Emitted(xs))
            && (Throws(xs) > 10 ==> Run(STEP, xs).status == Failed(SkipLimitExceeded))
  {
    var xs := Outcomes(lines);
    assert AllSkippable(STEP, xs);
    SkipLimitBoundary(STEP, xs);
  }

  /** A file of a header and one valid line completes and performs exactly one MERGE:
      the header is not loaded as a row. */
  lemma HeaderAndOneRow(files: map<string, seq<string>>, path: string, t: CountryTable, header: string, line: string)
    requires Open(files, path) == Success([header, line])
    requires !IsComment(header) && !IsComment(line)
    requires Tokenize(line, |COLUMN_NAMES|).Success?
    requires CountryItemProcessor.Process(MapFields(Tokenize(line, |COLUMN_NAMES|).value)).Success?
    ensures var out := CountryItemProcessor.Process(MapFields(Tokenize(line, |COLUMN_NAMES|).value)).value;
            Load(files, path, t) == (Completed, Merge(t, out.name, CountryColumns(out.code, out.updatedBy)))
  {
    var out := CountryItemProcessor.Process(MapFields(Tokenize(line, |COLUMN_NAMES|).value)).value;
    HeaderAndOneLine(header, line, |COLUMN_NAMES|);
    assert Outcomes([header, line]) == [Emit(out)];
    LoadOneItem(files, path, t, [header, line], out);
  }

  lemma LoadOneItem(files: map<string, seq<string>>, path: string, t: CountryTable, lines: seq<string>, out: CountryDBOutput)
    requires Open(files, path) == Success(lines) && Outcomes(lines) == [Emit(out)]
    ensures Load(files, path, t) == (Completed, Merge(t, out.name, CountryColumns(out.code, out.updatedBy)))
  {
    OneItemRun(out);
    assert Bind(Binding, [out]) == [Binding(out)];
    assert [Binding(out)][..0] == [];
    assert MergeAll(t, [Binding(out)]) == Merge(MergeAll(t, []), out.name, CountryColumns(out.code, out.updatedBy));
  }

  /** A one-record step with an item completes and commits the item. */
  lemma OneItemRun<T>(out: T)
    ensures Run(STEP, [Emit(out)]) == StepRun(Completed, [out], [], 0, 0, [], [])
  {
    var xs := [Emit(out)];
    assert xs[..0] == [];
    assert Fold(STEP, xs[..0]) == Start();
    assert STEP.chunkSize == 10;
    assert Fold(STEP, xs) == CountRead(STEP, StepRun(Running, [], [out], 0, 0, [], []));
    assert Fold(STEP, xs) == StepRun(Running, [], [out], 1, 0, [], []);
    assert Report([]) == [];
  }
}
