# Master-data batch loader, modelled in Dafny

The system loads football master data (countries and teams) from delimited flat files
into a relational store with Spring Batch, and offers a few REST operations around it.

- **Loading a file.** A job reads a CSV file, skips its header line and turns each line
  into a typed record. An item processor validates and transforms each record. For teams,
  the processor also resolves the team's country code to the COUNTRY row's id.
- **Chunked writing.** The step writes the surviving items in chunks of ten, each chunk in
  its own transaction, with an H2 `MERGE ... KEY` upsert. A record that raises one of the
  configured exceptions is skipped, up to a skip limit: 10 for countries, 100 for teams.
  One skip too many fails the step. Chunks committed before the failure stay written.
- **Version counter.** Controllers trigger the jobs after taking a fresh version number
  from a per-entity counter kept in the `DATA_VERSION` table (columns `ENTITY_NAME` and
  `VERSION_COUNT`).
- **Scheduler.** A scheduler runs the team job every minute. It stops once the data
  version "1.0.0" has been recorded in the `DATA_VERSION` table.
- **Competitions and seasons.** A competition service creates competitions by unique
  name, and a season service stores team-competition seasons.

Each core module corresponds to one source file; `JavaStrings`, `Upsert`, `ChunkStep` and
`FlatFileReading` model the library and framework behaviour those files rely on. Where the source changes state in
place, it is modelled by a class whose methods are proved equal to a pure function of the
old state. The properties are then proved as lemmas about that function.

| module | models |
|---|---|
| `Wrappers` | `Option` and `Result` |
| `JavaStrings` | the Java library string operations the code relies on: `trim`, `isBlank`, `StringUtils.hasText`, `toUpperCase`, `Integer.parseInt`, `Long.toString`, `startsWith` and `replace` |
| `BatchRecords` | the CSV inputs, the DB outputs and the table rows |
| `Upsert` | the `MERGE INTO ... KEY` writer |
| `ChunkStep` | a fault-tolerant chunk-oriented step: chunking, skip limit, skippable exceptions, roll-back of the open chunk, skip notifications |
| `FlatFileReading` | the `file:` prefix, delimited tokenizing, the header skip and an unopenable resource |
| `CountryItemProcessor`, `TeamItemProcessor`, `CountryIdLookupService` | the item processors and the country lookup |
| `CountryLoadConfig`, `TeamLoadConfig` | the two jobs end to end: reader, processor, step and writer |
| `DataVersionService` | the version counter |
| `TeamLoadJobScheduler` | the version gate run by the scheduler |
| `JobTrigger`, `TeamJobController`, `CountryJobController` | the two trigger endpoints |
| `CompetitionService`, `CompetitionController`, `TeamCompetitionSeasonService` | the competition and season operations |

Four points where the code behaves other than its names and comments suggest. The model
follows the code each time.

- **The "999" placeholder.** `CountryItemProcessor` rejects a code only when its trimmed
  length is not 3 *and* it is not "999". The "999" alternative therefore adds nothing, and
  a row with code "999" and a non-blank name is accepted and written. The lemmas
  `CodeRuleIsTrimmedLengthThree` and `PlaceholderCodeAccepted` state this.
- **"3 chars" means three UTF-16 code units.** Java's `length()` counts code units, so a
  character above U+FFFF counts twice, and an emoji followed by one letter is an accepted
  code. The model counts the same way (`Utf16Length`); `SupplementaryCodeAccepted` states
  the case.
- **Crossed country fields.** The country processor passes the trimmed *name* as the
  output's `code` and the trimmed *id* as its `name`. The writer binds `:code` to NAME and
  `:name` to CODE, so the two swaps cancel: the CSV's first column becomes the MERGE key
  CODE (`BindingCancels`).
- **Team country code.** The team output's field `countryCode` is declared as a String
  (TeamDBOutput.java:16), but the processor passes the `Long` id returned by the lookup in
  that position (TeamItemProcessor.java:79). Java has no implicit conversion from `Long` to
  `String`, so the processor does not compile as written. The model takes the evident
  intent, which is to store the COUNTRY id in the team's COUNTRY_ID column, and stores the id.

## Model

| member | source | states |
|---|---|---|
| CountryItemProcessor.Process | src/main/java/com/perficient/predictor/batch/processor/CountryItemProcessor.java:14-28 | A record is accepted iff its name has text after trimming and its code passes the code rule. A name failure gives the name message. A code failure gives the code message, followed by the raw id or "null". |
| CountryItemProcessor.CodeRuleIsTrimmedLengthThree | src/main/java/com/perficient/predictor/batch/processor/CountryItemProcessor.java:19-21 | The code rule accepts exactly the present ids whose trimmed length, in UTF-16 code units, is 3. The "999" alternative is subsumed. |
| CountryItemProcessor.ProcessAcceptsIff | src/main/java/com/perficient/predictor/batch/processor/CountryItemProcessor.java:16-21 | A record is accepted iff its name holds a character above U+0020 and its id, trimmed, is three UTF-16 code units long. |
| CountryItemProcessor.ProcessOutput | src/main/java/com/perficient/predictor/batch/processor/CountryItemProcessor.java:23-27 | An accepted output carries the trimmed name in `code` and the trimmed id in `name`, with the audit value "COUNTRY_LOAD_JOB". Both fields are trim-stable; the first is non-empty and the second is three UTF-16 code units long. |
| CountryItemProcessor.SupplementaryCodeAccepted | src/main/java/com/perficient/predictor/batch/processor/CountryItemProcessor.java:19-27 | An id made of one character above U+FFFF and one letter is three code units long, so with a name that has text the row is accepted and written with that id. |
| CountryItemProcessor.NameCheckedFirst | src/main/java/com/perficient/predictor/batch/processor/CountryItemProcessor.java:16-18 | Any null name, and any name made only of characters <= U+0020, is rejected with the name message, whatever the code. |
| CountryItemProcessor.PlaceholderCodeAccepted | src/main/java/com/perficient/predictor/batch/processor/CountryItemProcessor.java:19-27 | With code "999", the outcome depends on the name alone: the name is accepted with "999" as the code, or the record is rejected for its name. |
| JavaStrings.Utf16Length | src/main/java/com/perficient/predictor/batch/processor/CountryItemProcessor.java:19 | `length()` counts between one and two units per character, and equals the character count iff no character is above U+FFFF. |
| JavaStrings.Trim | src/main/java/com/perficient/predictor/batch/processor/CountryItemProcessor.java:24-25 | `trim` returns a contiguous part of the string: everything before it and after it is <= U+0020, and its own first and last characters are above U+0020. |
| JavaStrings.TrimOfUntrimmed | src/main/java/com/perficient/predictor/batch/processor/CountryItemProcessor.java:24-25 | A string with no trimmable character at either end is its own trim. |
| JavaStrings.TrimIdempotent | src/main/java/com/perficient/predictor/batch/processor/CountryItemProcessor.java:24-25 | Trimming twice equals trimming once. |
| JavaStrings.TrimEmptyIff | src/main/java/com/perficient/predictor/batch/processor/CountryItemProcessor.java:16 | `trim` yields "" iff every character is <= U+0020. |
| JavaStrings.HasTextIffNotBlank | src/main/java/com/perficient/predictor/batch/service/lookup/CountryIdLookupService.java:31-33 | `hasText` holds iff the string is non-null and not blank. |
| JavaStrings.ToUpper | src/main/java/com/perficient/predictor/batch/service/lookup/CountryIdLookupService.java:35 | Upper-casing keeps the length and maps each character on its own. |
| JavaStrings.ToUpperIdempotent | src/main/java/com/perficient/predictor/batch/service/lookup/CountryIdLookupService.java:35 | Upper-casing twice equals upper-casing once. |
| JavaStrings.ToUpperKeepsBlank | src/main/java/com/perficient/predictor/batch/service/lookup/CountryIdLookupService.java:31-35 | A string is blank iff its upper-cased form is. |
| JavaStrings.ParseInt | src/main/java/com/perficient/predictor/batch/processor/TeamItemProcessor.java:49-61 | `parseInt` only succeeds on a non-empty string, with a value in the 32-bit range. |
| JavaStrings.ParseIntOfSignedDigits | src/main/java/com/perficient/predictor/batch/processor/TeamItemProcessor.java:49-61 | An optional "+" or "-" followed by a non-empty run of ASCII digits parses iff its signed value is in the 32-bit range, and then to that value. |
| JavaStrings.ParseIntSuccess | src/main/java/com/perficient/predictor/batch/processor/TeamItemProcessor.java:49-61 | Every string that parses is an optional sign followed by a non-empty run of ASCII digits, and its result is their signed value. |
| JavaStrings.ParseIntOfToString | src/main/java/com/perficient/predictor/batch/processor/TeamItemProcessor.java:49-61 | Every 32-bit value round-trips through its decimal string and `parseInt`. |
| JavaStrings.ReplaceLength | src/main/java/com/perficient/predictor/batch/controller/TeamJobController.java:54 | `replace` changes the length by the length difference once per non-overlapping occurrence. |
| JavaStrings.OccurrencesPositiveIff | src/main/java/com/perficient/predictor/batch/controller/TeamJobController.java:54 | The occurrence count is positive iff the target occurs. |
| JavaStrings.ReplaceWithoutOccurrence | src/main/java/com/perficient/predictor/batch/controller/TeamJobController.java:54 | Without an occurrence, `replace` returns the string unchanged. |
| JavaStrings.ReplaceUnchangedIff | src/main/java/com/perficient/predictor/batch/controller/TeamJobController.java:54 | When the replacement differs in length from the target, `replace` leaves the string unchanged iff the target does not occur. |
| JavaStrings.ReplaceAfterPrefix | src/main/java/com/perficient/predictor/batch/controller/TeamJobController.java:53-54 | A prefix free of the target's first character is copied through unchanged, so `replace` acts only on the rest. |
| CountryIdLookupService.FindIdByCode | src/main/java/com/perficient/predictor/batch/service/lookup/CountryIdLookupService.java:29-46 | A null or blank code finds nothing. A non-blank code finds a row iff some upper-case stored code equals it ignoring case, and then yields that row's id. Any found id is some COUNTRY row's id. |
| CountryIdLookupService.FindIdByCodeOfUpper | src/main/java/com/perficient/predictor/batch/service/lookup/CountryIdLookupService.java:35-37 | Upper-casing a code first does not change the lookup result. |
| CountryIdLookupService.FindIdByCodeIsCaseInsensitive | src/main/java/com/perficient/predictor/batch/service/lookup/CountryIdLookupService.java:35-45 | Two codes that differ only in letter case find the same row, over any table. |
| CountryIdLookupService.LowerCaseCodeUnreachable | src/main/java/com/perficient/predictor/batch/service/lookup/CountryIdLookupService.java:35-37 | A row stored under a code that is not upper case is never returned. |
| CountryIdLookupService.CodeIsNotTrimmed | src/main/java/com/perficient/predictor/batch/service/lookup/CountryIdLookupService.java:35 | The code is upper-cased but not trimmed: " ENG" misses the "ENG" row, while "eng" finds it. |
| TeamItemProcessor.Process | src/main/java/com/perficient/predictor/batch/processor/TeamItemProcessor.java:30-82 | A record raises a validation error iff a mandatory field lacks text. An output has 32-bit year and capacity and is attributed to the system user. |
| TeamItemProcessor.MandatoryCheckOrder | src/main/java/com/perficient/predictor/batch/processor/TeamItemProcessor.java:33-43 | The checks run in the order name, team type, country code. The first field without text chooses the message. |
| TeamItemProcessor.FilteredIff | src/main/java/com/perficient/predictor/batch/processor/TeamItemProcessor.java:49-69 | A valid record is filtered (null) iff the year or the capacity does not parse or the country is unknown. The year is checked before the capacity. |
| TeamItemProcessor.ProcessOutput | src/main/java/com/perficient/predictor/batch/processor/TeamItemProcessor.java:72-81 | An output copies the name, type, stadium and nickname. It holds the parsed numbers and the id of the row stored under the upper-cased code. |
| TeamItemProcessor.LookupComesLast | src/main/java/com/perficient/predictor/batch/processor/TeamItemProcessor.java:49-69 | A record whose numbers do not parse gets the same result against any country table. |
| TeamItemProcessor.UnvalidatedFields | src/main/java/com/perficient/predictor/batch/processor/TeamItemProcessor.java:30-82 | Stadium name and nickname are never checked. Changing them changes only the same two output fields. |
| TeamItemProcessor.PaddedYearIsFiltered | src/main/java/com/perficient/predictor/batch/processor/TeamItemProcessor.java:49-54 | A valid record whose year has a space at either end is filtered, for every such year, because `parseInt` does not trim. |
| FlatFileReading.SafePath | src/main/java/com/perficient/predictor/batch/config/CountryLoadConfig.java:53 | The resolved path starts with "file:" and ends with the given path. |
| FlatFileReading.SafePathIdempotent | src/main/java/com/perficient/predictor/batch/config/TeamLoadConfig.java:64 | Prefixing is idempotent, and leaves a path unchanged iff the path already starts with "file:". |
| FlatFileReading.Split | src/main/java/com/perficient/predictor/batch/config/CountryLoadConfig.java:62 | Splitting yields at least one field, and no field holds the delimiter. |
| FlatFileReading.JoinSplit | src/main/java/com/perficient/predictor/batch/config/CountryLoadConfig.java:62 | Joining the split fields gives the line back. |
| FlatFileReading.SplitJoin | src/main/java/com/perficient/predictor/batch/config/CountryLoadConfig.java:62 | Splitting the join of delimiter-free fields gives the fields back. |
| FlatFileReading.Tokenize | src/main/java/com/perficient/predictor/batch/config/CountryLoadConfig.java:62-64 | A line is tokenized iff it has exactly as many fields as column names; the fields join back to the line. Otherwise a parse exception is raised. |
| FlatFileReading.Uncommented | src/main/java/com/perficient/predictor/batch/config/CountryLoadConfig.java:59-66 | The reader never keeps a comment line, keeps every other line, and adds no line: what it hands on is a sub-multiset of the file. |
| FlatFileReading.UncommentedOfPlain | src/main/java/com/perficient/predictor/batch/config/CountryLoadConfig.java:59-66 | A file without comment lines is handed on whole. |
| FlatFileReading.UncommentedAppend | src/main/java/com/perficient/predictor/batch/config/CountryLoadConfig.java:59-66 | Dropping comments from two concatenated parts equals dropping them from each part, so the kept lines stay in file order. |
| FlatFileReading.Records | src/main/java/com/perficient/predictor/batch/config/CountryLoadConfig.java:59-66 | Each record is either a field list of the right width or a parse exception. |
| FlatFileReading.RecordsSkipHeader | src/main/java/com/perficient/predictor/batch/config/CountryLoadConfig.java:65 | Exactly one header line is skipped; record i is the tokenized line i + 1. |
| FlatFileReading.HeaderAndOneLine | src/main/java/com/perficient/predictor/batch/config/TeamLoadConfig.java:76 | A header plus one line gives exactly one record. |
| FlatFileReading.Open | src/main/java/com/perficient/predictor/batch/config/CountryLoadConfig.java:53-56 | Opening fails, with the source unavailable, iff no file exists at the prefixed path. |
| Upsert.Merge | src/main/java/com/perficient/predictor/batch/config/CountryLoadConfig.java:79-85 | After a MERGE the key is present with the new columns. An existing row keeps its id; a new row takes the next identity value. Every other row is unchanged, and well-formedness is kept. |
| Upsert.MergeAll | src/main/java/com/perficient/predictor/batch/config/TeamLoadConfig.java:100-106 | A batch of MERGEs deletes no key and never moves the identity counter back. |
| Upsert.MergeAllAt | src/main/java/com/perficient/predictor/batch/config/TeamLoadConfig.java:100-106 | After a batch, a key is present iff it was before or is named. Its columns are those of its last item; an existing row keeps its id; unnamed rows are unchanged. |
| Upsert.MergeAllRowOrigin | src/main/java/com/perficient/predictor/batch/config/TeamLoadConfig.java:100-106 | Every row after a batch is either an untouched old row or holds some item's columns under its key. |
| Upsert.MergeAllExistingKeys | src/main/java/com/perficient/predictor/batch/config/TeamLoadConfig.java:98-103 | A batch naming only stored keys inserts nothing, and the identity counter does not move. |
| Upsert.MergeAllContainsKeys | src/main/java/com/perficient/predictor/batch/config/TeamLoadConfig.java:100-106 | Every key of a batch is present afterwards, and no row is deleted. |
| Upsert.MergeAllWellFormed | src/main/java/com/perficient/predictor/batch/config/TeamLoadConfig.java:100-106 | Batches keep the table well formed: ids are unique and below the next identity value. |
| Upsert.MergeAllIdempotent | src/main/java/com/perficient/predictor/batch/config/TeamLoadConfig.java:32-35 | Writing the same batch twice equals writing it once. |
| Upsert.MergeTable.MergeChunk | src/main/java/com/perficient/predictor/batch/config/TeamLoadConfig.java:108-113 | The batch writer's loop leaves the table equal to the MERGE of all items, in order. |
| ChunkStep.RunningShape | src/main/java/com/perficient/predictor/batch/config/CountryLoadConfig.java:100-109 | While the skips stay within budget, every item of a completed chunk is committed and the open chunk's items are pending. Otherwise the step has failed. |
| ChunkStep.FailureIsFinal | src/main/java/com/perficient/predictor/batch/config/CountryLoadConfig.java:105-108 | Once the step is no longer running, later records change nothing. |
| ChunkStep.FailedShape | src/main/java/com/perficient/predictor/batch/config/CountryLoadConfig.java:101-108 | A failed step stopped at its first failing record and committed exactly the chunks before that record's chunk. |
| ChunkStep.RunCompletesIffWithinBudget | src/main/java/com/perficient/predictor/batch/config/CountryLoadConfig.java:105-108 | The step completes iff every exception is skippable and there are at most skip-limit of them. It then commits every produced item in order, and the listener has received the skips chunk by chunk, each chunk's after its commit. |
| ChunkStep.CommittedFromRecords | src/main/java/com/perficient/predictor/batch/config/CountryLoadConfig.java:100-104 | Every committed item was produced by the processor for some record. |
| ChunkStep.RunFailureKeepsEarlierChunks | src/main/java/com/perficient/predictor/batch/config/CountryLoadConfig.java:101-108 | A failed step keeps the chunks committed before the failing record's chunk and commits nothing of that chunk. The listener has heard only of the skips of the committed chunks. |
| ChunkStep.SkipLimitBoundary | src/main/java/com/perficient/predictor/batch/config/CountryLoadConfig.java:106 | With only skippable exceptions, skip-limit of them completes the step; one more fails it with the limit exceeded. |
| ChunkStep.FilterIsFree | src/main/java/com/perficient/predictor/batch/config/TeamLoadConfig.java:124-139 | A filtered record spends no skip budget and writes nothing. |
| ChunkStep.Bind | src/main/java/com/perficient/predictor/batch/config/TeamLoadConfig.java:108-113 | Parameter binding maps the items one to one, in order. |
| ChunkStep.RunStep | src/main/java/com/perficient/predictor/batch/config/TeamLoadConfig.java:124-139 | The step's loop returns the status and skip notifications of the step semantics. The table becomes the MERGE of exactly the committed items. |
| ChunkStep.WriteChunk | src/main/java/com/perficient/predictor/batch/config/TeamLoadConfig.java:108-113 | Writing a chunk leaves the table equal to the MERGE of every item committed so far, this chunk included. |
| ChunkStep.Advance | src/main/java/com/perficient/predictor/batch/config/CountryLoadConfig.java:100-109 | A step that is no longer running ignores further records. A record never takes back committed items or notices already given. |
| ChunkStep.Fold | src/main/java/com/perficient/predictor/batch/config/CountryLoadConfig.java:100-109 | Before the end of input the step is never complete, and a failed step holds no open chunk and no unreported skip. |
| ChunkStep.Run | src/main/java/com/perficient/predictor/batch/config/CountryLoadConfig.java:100-109 | At the end of input the step has completed or failed, with no open chunk left; the end of input only adds to what was committed and reported. |
| ChunkStep.ReportPermutes | src/main/java/com/perficient/predictor/batch/config/TeamLoadConfig.java:137 | Each skip of a committed chunk reaches the listener exactly once. |
| ChunkStep.ReportInOrder | src/main/java/com/perficient/predictor/batch/config/TeamLoadConfig.java:137 | Without reader skips, a chunk's skips reach the listener in record order. |
| ChunkStep.NoticesPermutes | src/main/java/com/perficient/predictor/batch/config/TeamLoadConfig.java:130-137 | Over a completed step the listener receives one notice per raising record: the skip log, reordered within chunks. |
| ChunkStep.NoticesInOrder | src/main/java/com/perficient/predictor/batch/config/TeamLoadConfig.java:130-137 | When no record fails in the reader, the notices are the skip log in record order. |
| ChunkStep.SkipsBoundedByThrows | src/main/java/com/perficient/predictor/batch/config/TeamLoadConfig.java:130-137 | Completed or failed, the listener hears of no more skips than there were raising records. |
| CountryLoadConfig.OutcomeOf | src/main/java/com/perficient/predictor/batch/config/CountryLoadConfig.java:100-108 | A record reaches the writer iff it parsed and was accepted. A rejection is a validation exception and a parse failure is the reader's exception. Nothing is filtered. |
| CountryLoadConfig.CountryLoadJob | src/main/java/com/perficient/predictor/batch/config/CountryLoadConfig.java:113-118 | The job's status and final COUNTRY table are those of the load function. |
| CountryLoadConfig.Load | src/main/java/com/perficient/predictor/batch/config/CountryLoadConfig.java:50-118 | A load ends completed or failed. A missing input file fails it with the source unavailable and leaves the table as it was. No stored code is ever removed. |
| CountryLoadConfig.BindingCancels | src/main/java/com/perficient/predictor/batch/config/CountryLoadConfig.java:79-85 | The writer's crossed binding undoes the processor's crossing: the trimmed first column is the key CODE and the trimmed name is NAME. |
| CountryLoadConfig.LoadWritesValidRows | src/main/java/com/perficient/predictor/batch/config/CountryLoadConfig.java:79-109 | Every row after a load is an untouched old row or has a trimmed CODE of three UTF-16 code units, a non-empty trimmed NAME and the job's audit value. |
| CountryLoadConfig.ReloadIsIdempotent | src/main/java/com/perficient/predictor/batch/config/CountryLoadConfig.java:79-85 | Loading the same file twice equals loading it once, status included. |
| CountryLoadConfig.MalformedLineFailsStep | src/main/java/com/perficient/predictor/batch/config/CountryLoadConfig.java:105-108 | A line with the wrong number of fields fails the step, since parse exceptions are not skippable here. |
| CountryLoadConfig.SkipLimitOfTen | src/main/java/com/perficient/predictor/batch/config/CountryLoadConfig.java:106-108 | On a well-formed file, ten rejected rows still complete with every accepted row written, and eleven fail the step. |
| CountryLoadConfig.HeaderAndOneRow | src/main/java/com/perficient/predictor/batch/config/CountryLoadConfig.java:62-65 | A header and one valid line complete the step with exactly that one row merged. |
| CountryLoadConfig.OneItemRun | src/main/java/com/perficient/predictor/batch/config/CountryLoadConfig.java:101 | A single produced item is committed in the final short chunk. |
| TeamLoadConfig.OutcomeOf | src/main/java/com/perficient/predictor/batch/config/TeamLoadConfig.java:124-136 | A record reaches the writer iff the processor outputs it, and is filtered iff the processor returns null. Otherwise it raises the processor's or the reader's exception. |
| TeamLoadConfig.TeamLoadJob | src/main/java/com/perficient/predictor/batch/config/TeamLoadConfig.java:143-148 | The job's status, its skip notifications and the final TEAM table are those of the load function. |
| TeamLoadConfig.Load | src/main/java/com/perficient/predictor/batch/config/TeamLoadConfig.java:60-148 | A load ends completed or failed. A missing input file fails it with the source unavailable, no skip reported and the table as it was. No stored team name is ever removed. |
| TeamLoadConfig.CompletesIffWithinHundredSkips | src/main/java/com/perficient/predictor/batch/config/TeamLoadConfig.java:130-137 | The step completes iff at most 100 records raise. It then writes every output, in order; the listener receives every skip exactly once, per committed chunk, and in record order when no line fails to parse. Beyond 100 it fails on the skip limit. |
| TeamLoadConfig.LoadWritesResolvedRows | src/main/java/com/perficient/predictor/batch/config/TeamLoadConfig.java:100-106 | Every row after a load is untouched, or names a stored COUNTRY id, is attributed to the system user and has a name with text. |
| TeamLoadConfig.CommittedItemResolved | src/main/java/com/perficient/predictor/batch/config/TeamLoadConfig.java:124-128 | Every committed team item binds to a resolved country id, the system user and a name with text. |
| TeamLoadConfig.ReloadIsIdempotent | src/main/java/com/perficient/predictor/batch/config/TeamLoadConfig.java:32-35 | Loading the same file twice equals loading it once, status and skips included. |
| TeamLoadConfig.ReloadKeepsRowIds | src/main/java/com/perficient/predictor/batch/config/TeamLoadConfig.java:98-103 | A load never deletes a team row or changes its id. |
| TeamLoadConfig.FilteredRecordsAreNotSkips | src/main/java/com/perficient/predictor/batch/config/TeamLoadConfig.java:130-137 | The listener hears at most one skip per raising record; filtered records are not reported. |
| DataVersionService.Update | src/main/java/com/perficient/predictor/batch/service/DataVersionService.java:47-48 | The UPDATE touches no row iff the entity has none, and then changes nothing. Otherwise it touches one row and stores the value. |
| DataVersionService.Insert | src/main/java/com/perficient/predictor/batch/service/DataVersionService.java:51-54 | The INSERT adds the entity's row with the value and keeps every other row. |
| DataVersionService.DataVersionCounter.GetAndIncrementVersion | src/main/java/com/perficient/predictor/batch/service/DataVersionService.java:31-57 | The service returns, and leaves in the table, the next value of the counter function. |
| DataVersionService.Next | src/main/java/com/perficient/predictor/batch/service/DataVersionService.java:31-57 | The value returned is larger than the entity's previous count and is the entity's new count. |
| DataVersionService.NextStoresReturnedValue | src/main/java/com/perficient/predictor/batch/service/DataVersionService.java:38-56 | The returned value is at least 1: 1 for a new entity, the stored count plus 1 otherwise. It is the entity's new count; other entities are unchanged. |
| DataVersionService.IssuedValues | src/main/java/com/perficient/predictor/batch/service/DataVersionService.java:38-56 | Over a sequence of calls, each value is the stored count plus the earlier calls for that entity, plus 1. Each final count grows by the entity's number of calls. |
| DataVersionService.SuccessiveValuesIncrease | src/main/java/com/perficient/predictor/batch/service/DataVersionService.java:44 | Later calls for the same entity get strictly larger values, and consecutive ones differ by exactly 1. |
| TeamLoadJobScheduler.IsLoadedIff | src/main/java/com/perficient/predictor/batch/scheduler/TeamLoadJobScheduler.java:77-81 | A positive COUNT(*) means the version has a row. |
| TeamLoadJobScheduler.Step | src/main/java/com/perficient/predictor/batch/scheduler/TeamLoadJobScheduler.java:46-75 | A loaded version makes a tick do nothing. Otherwise the tick launches with ("ENG", "1.0.0", now) and records the version iff the launch returned. |
| TeamLoadJobScheduler.Ticks | src/main/java/com/perficient/predictor/batch/scheduler/TeamLoadJobScheduler.java:45-86 | Ticks only add version rows and launches, and at most one launch per tick. |
| TeamLoadJobScheduler.Scheduler.IsDataVersionLoaded | src/main/java/com/perficient/predictor/batch/scheduler/TeamLoadJobScheduler.java:77-81 | The counting loop answers whether the version is in the table. |
| TeamLoadJobScheduler.Scheduler.RecordDataVersion | src/main/java/com/perficient/predictor/batch/scheduler/TeamLoadJobScheduler.java:83-86 | The INSERT appends one version row. |
| TeamLoadJobScheduler.Scheduler.RunOneTimeTeamLoadJob | src/main/java/com/perficient/predictor/batch/scheduler/TeamLoadJobScheduler.java:46-75 | One scheduled run moves the state as the tick function says. |
| TeamLoadJobScheduler.Launches | src/main/java/com/perficient/predictor/batch/scheduler/TeamLoadJobScheduler.java:56-59 | Each launch carries the constant code and version and that tick's own time. |
| TeamLoadJobScheduler.LoadedIsFinal | src/main/java/com/perficient/predictor/batch/scheduler/TeamLoadJobScheduler.java:48-53 | Once the version is recorded, no later tick changes anything. |
| TeamLoadJobScheduler.FailedLaunchesRetry | src/main/java/com/perficient/predictor/batch/scheduler/TeamLoadJobScheduler.java:71-74 | Ticks whose launches all throw record nothing and relaunch on every tick. |
| TeamLoadJobScheduler.ReturnAfterFailures | src/main/java/com/perficient/predictor/batch/scheduler/TeamLoadJobScheduler.java:65-68 | After failed launches, the first returning launch records the version once. |
| TeamLoadJobScheduler.RecordedAtFirstReturn | src/main/java/com/perficient/predictor/batch/scheduler/TeamLoadJobScheduler.java:45-86 | Over any ticks, the version is recorded at the first returning launch; no later tick launches. |
| TeamLoadJobScheduler.AtMostOneVersionRow | src/main/java/com/perficient/predictor/batch/scheduler/TeamLoadJobScheduler.java:45-86 | Starting unloaded, sequential ticks insert at most one row for the version. |
| TeamLoadJobScheduler.ReturnedStatusIgnored | src/main/java/com/perficient/predictor/batch/scheduler/TeamLoadJobScheduler.java:65-68 | The execution status is not inspected: a launch that returns a FAILED execution records the version just like a completed one. |
| JobTrigger.InputFile | src/main/java/com/perficient/predictor/batch/controller/TeamJobController.java:53 | The input path is the base directory followed by the file name. |
| JobTrigger.ErrorFile | src/main/java/com/perficient/predictor/batch/controller/TeamJobController.java:54 | The error path lies under the base directory. |
| JobTrigger.ErrorFileIsInputFileIff | src/main/java/com/perficient/predictor/batch/controller/TeamJobController.java:53-54 | The error path equals the input path iff the name does not contain ".csv". |
| JobTrigger.ErrorFileLength | src/main/java/com/perficient/predictor/batch/controller/CountryJobController.java:58-59 | The error path is six characters longer than the input path per ".csv" occurrence. |
| JobTrigger.ErrorFileOfCsvName | src/main/java/com/perficient/predictor/batch/controller/CountryJobController.java:58-59 | For a dot-free stem, "stem.csv" gets the error file "stem.error.csv". |
| JobTrigger.StartedBodyNamesLaunch | src/main/java/com/perficient/predictor/batch/controller/TeamJobController.java:77-84 | The success body contains the input path, the error path and the new version. |
| TeamJobController.LoadTeamsRequest | src/main/java/com/perficient/predictor/batch/controller/TeamJobController.java:48-92 | The endpoint's reply, its launch and the counter table are those of the trigger function. |
| TeamJobController.LoadTeams | src/main/java/com/perficient/predictor/batch/controller/TeamJobController.java:48-92 | A job is launched iff the counter works; otherwise the counts are unchanged. A launch carries the new TEAM count, larger than the old one, the requested country code and the input and error paths of the file. The reply is 200 or 500. |
| TeamJobController.CounterFailureShortCircuits | src/main/java/com/perficient/predictor/batch/controller/TeamJobController.java:58-65 | A counter failure answers 500 with the fixed message, launches nothing and changes no count. |
| TeamJobController.IncrementThenLaunch | src/main/java/com/perficient/predictor/batch/controller/TeamJobController.java:58-74 | Otherwise TEAM's count is incremented first. The launch gets that count, the unchanged country code and both derived paths; a rejected launch does not undo the increment. |
| TeamJobController.OkIffStarted | src/main/java/com/perficient/predictor/batch/controller/TeamJobController.java:76-91 | The reply is 200 iff the counter works and the job starts. Every other reply is 500; a rejected start's body carries the exception message. |
| TeamJobController.SuccessBodyNamesLaunch | src/main/java/com/perficient/predictor/batch/controller/TeamJobController.java:77-84 | The 200 body names the input path, the error path and the new version. |
| CountryJobController.LoadCountryJobsRequest | src/main/java/com/perficient/predictor/batch/controller/CountryJobController.java:54-100 | The endpoint's reply, its launch and the counter table are those of the trigger function. |
| CountryJobController.LoadCountryJobs | src/main/java/com/perficient/predictor/batch/controller/CountryJobController.java:54-100 | A job is launched iff the counter works; otherwise the counts are unchanged. A launch carries the new COUNTRY_JOB count, larger than the old one, and the input and error paths of the file. |
| CountryJobController.CounterFailureShortCircuits | src/main/java/com/perficient/predictor/batch/controller/CountryJobController.java:63-70 | A counter failure answers 500, launches nothing and changes no count. |
| CountryJobController.IncrementThenLaunch | src/main/java/com/perficient/predictor/batch/controller/CountryJobController.java:63-79 | COUNTRY_JOB's count is incremented by one and passed to the launch with both derived paths. No other count changes. |
| CountryJobController.ReplyFollowsLaunch | src/main/java/com/perficient/predictor/batch/controller/CountryJobController.java:75-99 | The launcher's exception leaves the controller iff the launch throws, wrapped in a RuntimeException whose cause is that exception. A started launch answers 200 for the very launch it made. |
| CountryJobController.SuccessBodyNamesLaunch | src/main/java/com/perficient/predictor/batch/controller/CountryJobController.java:82-89 | The 200 body names the input path, the error path and the new version. |
| CountryJobController.SeparateCounters | src/main/java/com/perficient/predictor/batch/controller/CountryJobController.java:31-33 | Triggering the country load never changes TEAM's count. |
| CompetitionService.FindCompetitionByName | src/main/java/com/perficient/predictor/batch/service/CompetitionService.java:35 | A competition is found iff one has the requested name, and then it is such a row. |
| CompetitionService.CountriesNamed | src/main/java/com/perficient/predictor/batch/service/CompetitionService.java:40-41 | Exactly the countries with the given name are selected. |
| CompetitionService.CompetitionRepository.Save | src/main/java/com/perficient/predictor/batch/service/CompetitionService.java:56 | Saving appends the entity with the next identity value and returns the saved row. |
| CompetitionService.CreateCompetition | src/main/java/com/perficient/predictor/batch/service/CompetitionService.java:33-57 | The service's result and store are those of the create function. |
| CompetitionService.Create | src/main/java/com/perficient/predictor/batch/service/CompetitionService.java:33-57 | A failed creation leaves the store unchanged. A successful one appends exactly the new competition, with the next id, the requested name and the current time as both timestamps. |
| CompetitionService.DuplicateRejected | src/main/java/com/perficient/predictor/batch/service/CompetitionService.java:35-37 | A taken name gives the illegal-state error, whatever the country, and nothing is saved. |
| CompetitionService.UnknownCountryRejected | src/main/java/com/perficient/predictor/batch/service/CompetitionService.java:40-41 | A free name with an unknown country gives the illegal-argument error, and nothing is saved. |
| CompetitionService.CreateSucceedsIff | src/main/java/com/perficient/predictor/batch/service/CompetitionService.java:35-56 | Creation succeeds iff the name is free and exactly one country has the country name. A failure leaves the store unchanged. |
| CompetitionService.CreatedRow | src/main/java/com/perficient/predictor/batch/service/CompetitionService.java:44-56 | A created competition is appended. It has the next id, the requested name, the matching country's id, both timestamps equal to now and the audit user. |
| CompetitionService.SecondCreateFails | src/main/java/com/perficient/predictor/batch/service/CompetitionService.java:35-37 | Repeating a successful request, at any later time, fails as a duplicate and saves nothing. |
| CompetitionService.CreateKeepsNamesUnique | src/main/java/com/perficient/predictor/batch/service/CompetitionService.java:34-37 | Creation keeps competition names unique. |
| CompetitionController.CreateCompetition | src/main/java/com/perficient/predictor/batch/controller/CompetitionController.java:32-54 | The endpoint answers the service's result, mapped to a response, and leaves the service's store. |
| CompetitionController.ToResponse | src/main/java/com/perficient/predictor/batch/controller/CompetitionController.java:41-53 | The answer is 201 iff the service succeeded, with the created id and name in the body; every error answer is 400, 409 or 500. |
| CompetitionController.StatusMapping | src/main/java/com/perficient/predictor/batch/controller/CompetitionController.java:41-53 | 201 iff created, 409 iff illegal state, 400 iff illegal argument, with the message kept. 500 with a fixed reason for any other exception. |
| CompetitionController.MapToDtoOmitsOnlyCountry | src/main/java/com/perficient/predictor/batch/controller/CompetitionController.java:61-70 | Two competitions map to the same DTO iff they differ at most in their country. |
| CompetitionController.DuplicateIsConflict | src/main/java/com/perficient/predictor/batch/controller/CompetitionController.java:43-45 | A duplicate name is answered 409 with the service's message and saves nothing. |
| TeamCompetitionSeasonService.SeasonRepository.Save | src/main/java/com/perficient/predictor/batch/service/TeamCompetitionSeasonService.java:71 | Saving appends the season with the next identity value. |
| TeamCompetitionSeasonService.ProcessBatchRequest | src/main/java/com/perficient/predictor/batch/service/TeamCompetitionSeasonService.java:44-82 | The service's message and season store are those of the process function. |
| TeamCompetitionSeasonService.Process | src/main/java/com/perficient/predictor/batch/service/TeamCompetitionSeasonService.java:44-82 | A request adds at most one season and keeps every stored one. An added season has the next id, the requested years and the id of a competition with the requested name; without one the store is unchanged. |
| TeamCompetitionSeasonService.UnknownCompetitionSavesNothing | src/main/java/com/perficient/predictor/batch/service/TeamCompetitionSeasonService.java:48-57 | An unknown competition yields the not-found message and saves nothing. |
| TeamCompetitionSeasonService.KnownCompetitionSavesOneRow | src/main/java/com/perficient/predictor/batch/service/TeamCompetitionSeasonService.java:63-76 | A known competition saves exactly one season. It links to that competition with the request's years and audit value; the message names the competition. |
| TeamCompetitionSeasonService.RepeatedRequestSavesAgain | src/main/java/com/perficient/predictor/batch/service/TeamCompetitionSeasonService.java:63-71 | The service is not idempotent: repeating a request stores a second season differing only in id. Years are stored unchecked. |

## Left out

- **Data versions and counter ranges.** The `long` data version and the `Integer` COUNT are modelled as unbounded naturals; overflow after 2^63 increments is not modelled.
- **Unicode in strings.**
  - `toUpperCase` is modelled on ASCII letters only. Locale-dependent and non-ASCII case mappings are not modelled.
  - `Integer.parseInt` is modelled on ASCII digits; it also accepts other Unicode decimal digits, which the model rejects.
  - Strings are sequences of Unicode scalar values, not of UTF-16 code units. The one length the loaders test, `trim().length()`, is counted in code units by `Utf16Length`. `trim`, `hasText`, `replace` and `parseInt` give the same results over either representation, since none of the characters they look for is above U+FFFF.
- **CSV quoting.** Quoted fields and escaped delimiters of the delimited tokenizer are not modelled. A line is split on every comma.
- **Writer failures.** Failures of the MERGE writer itself (a `DataAccessException` raised while writing) are not modelled: writes always succeed. Spring Batch's retry and item-by-item scan of a failed chunk are left out with them.
- **Reader skips.** A record that fails to parse counts as a read item of its chunk, like any other record.
- **Read-then-process order.** Spring reads a whole chunk before it processes any of it; the model takes each record through reading and processing before the next. The chunks committed and the skips reported are the same. Only in a chunk that holds both a failing read and a failing process can the step's failure cause differ from the model's.
- **Side outputs.** Timestamps (`LocalDateTime.now()`, `NOW()`) are parameters. Console and log output is left out, and so is the skip listener's logging. The skip listener is modelled as the sequence of skip events it receives: the skips of a chunk reach it once the chunk's write has succeeded, just before it commits, the processor's skips before the reader's, and a rolled-back chunk reports none.
- **Concurrency.** Scheduler ticks and HTTP requests run one after another. Concurrent requests racing on the counter's read-then-update are not modelled.
- **Request validation.** Bean validation (`@Valid`) on the competition request is not modelled.
- **Launched jobs.** `CountryJobExecutionService` and `TeamJobExecutionService`, and `JobLauncher.run`, are modelled as an abstract launch outcome: started with an opaque execution, rejected, or thrown. Their JobExecution id and status are opaque values.
- **Identity columns.** IDENTITY columns are modelled as a next-id counter; reuse or gaps in identity values are not modelled.
- **Country lookup by name.** `findByName` returning more than one country is modelled as the framework's non-unique-result exception, which the controller maps to 500.
- **Null season years.** A null season start or end year in a season request is not modelled; the years are integers.
- **Out of scope.** The following are not part of this model: `HelloScheduledTask`, `BatchSchemaInitializer`, `SpringSecurityJweApplication`, `TeamCompetitionSeasonController`, and the JPA entity and repository classes beyond the rows they store.
