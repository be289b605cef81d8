/** The reader half of both load steps: the `file:` prefix rule applied to the job's input
    path, and the delimited flat-file reading the readers are built with (one header line
    skipped, comment lines ignored, each line split on commas and matched positionally
    against the column names). */
module FlatFileReading {
  import opened Wrappers
  import opened JavaStrings
  import opened ChunkStep

  const FILE_PREFIX: string := "file:"
  const DELIMITER: char := ','
  const COMMENT_PREFIX: string := "#"
  const LINES_TO_SKIP: nat := 1

  /** The resource location a reader opens for a job's input path. */
  function SafePath(path: string): (r: string)
    ensures StartsWith(r, FILE_PREFIX)
    ensures |r| >= |path| && r[|r| - |path|..] == path
  {
    if StartsWith(path, FILE_PREFIX) then path else FILE_PREFIX + path
  }

  /** A path that already names a `file:` resource is kept; prefixing twice is prefixing once. */
  lemma SafePathIdempotent(path: string)
    ensures SafePath(SafePath(path)) == SafePath(path)
    ensures StartsWith(path, FILE_PREFIX) <==> SafePath(path) == path
  {
  }

  // ---------------------------------------------------------------------------
  // Splitting a line on the delimiter.
  // ---------------------------------------------------------------------------

  /** The fields of a line: the text between delimiters, empty fields included. */
  function Split(line: string, d: char): (r: seq<string>)
    ensures |r| >= 1
    ensures forall i | 0 <= i < |r| :: d !in r[i]
    decreases |line|
  {
    if |line| == 0 then [""]
    else if line[0] == d then [""] + Split(line[1..], d)
    else
      var rest := Split(line[1..], d);
      [[line[0]] + rest[0]] + rest[1..]
  }

  /** The inverse of `Split`: the fields with the delimiter between them. */
  function Join(fields: seq<string>, d: char): string
    requires |fields| >= 1
    decreases |fields|
  {
    if |fields| == 1 then fields[0] else fields[0] + [d] + Join(fields[1..], d)
  }

  /** Splitting loses nothing: joining the fields gives the line back. */
  lemma {:induction false} JoinSplit(line: string, d: char)
    ensures Join(Split(line, d), d) == line
    decreases |line|
  {
    if |line| > 0 {
      JoinSplit(line[1..], d);
      var rest := Split(line[1..], d);
      if line[0] != d && |rest| > 1 {
        assert ([[line[0]] + rest[0]] + rest[1..])[1..] == rest[1..];
      }
    }
  }

  /** Fields without the delimiter are what splitting their join gives back. */
  lemma {:induction false} SplitJoin(fields: seq<string>, d: char)
    requires |fields| >= 1
    requires forall i | 0 <= i < |fields| :: d !in fields[i]
    ensures Split(Join(fields, d), d) == fields
    decreases |fields|, |fields[0]|
  {
    var f := fields[0];
    if f == [] {
      if |fields| > 1 {
        SplitJoin(fields[1..], d);
        assert Join(fields, d) == [d] + Join(fields[1..], d);
        assert [""] + fields[1..] == fields;
      }
    } else {
      var tail := [f[1..]] + fields[1..];
      assert forall i | 0 <= i < |tail| :: d !in tail[i] by {
        assert forall i | 1 <= i < |tail| :: tail[i] == fields[i];
        assert forall c | c in f[1..] :: c in f;
      }
      SplitJoin(tail, d);
      assert tail[1..] == fields[1..];
      assert Join(fields, d) == [f[0]] + Join(tail, d);
      assert f[0] != d by { assert f[0] in f; }
      assert [f[0]] + f[1..] == f;
      assert [[f[0]] + f[1..]] + fields[1..] == fields;
    }
  }

  // ---------------------------------------------------------------------------
  // Reading a file.
  // ---------------------------------------------------------------------------

  /** The fields of one line, checked against the number of column names; a mismatch is
      the reader's parse exception. */
  function Tokenize(line: string, columns: nat): (r: Result<seq<string>, ExceptionKind>)
    ensures r.Success? <==> |Split(line, DELIMITER)| == columns
    ensures r.Success? ==> |r.value| == columns >= 1 && Join(r.value, DELIMITER) == line
    ensures r.Success? ==> forall i | 0 <= i < columns :: DELIMITER !in r.value[i]
    ensures r.Failure? ==> r.error == FlatFileParse
  {
    JoinSplit(line, DELIMITER);
    var fields := Split(line, DELIMITER);
    if |fields| == columns then Success(fields) else Failure(FlatFileParse)
  }

  predicate IsComment(line: string) {
    StartsWith(line, COMMENT_PREFIX)
  }

  /** The lines the reader hands on, comment lines left out. */
  function Uncommented(lines: seq<string>): (r: seq<string>)
    ensures |r| <= |lines|
    ensures forall i | 0 <= i < |r| :: !IsComment(r[i])
    ensures multiset(r) <= multiset(lines)
    ensures forall i | 0 <= i < |lines| && !IsComment(lines[i]) :: lines[i] in r
  {
    if lines == [] then []
    else
      assert lines == [lines[0]] + lines[1..];
      assert forall i | 1 <= i < |lines| :: lines[i] == lines[1..][i - 1];
      (if IsComment(lines[0]) then [] else [lines[0]]) + Uncommented(lines[1..])
  }

  /** A file without comment lines is handed on whole. */
  lemma {:induction false} UncommentedOfPlain(lines: seq<string>)
    requires forall i | 0 <= i < |lines| :: !IsComment(lines[i])
    ensures Uncommented(lines) == lines
  {
    if lines != [] {
      var rest := lines[1..];
      assert forall i | 0 <= i < |rest| :: !IsComment(rest[i]) by {
        forall i | 0 <= i < |rest| ensures !IsComment(rest[i]) {
          assert rest[i] == lines[i + 1];
        }
      }
      UncommentedOfPlain(rest);
      assert !IsComment(lines[0]);
      assert lines == [lines[0]] + rest;
    }
  }

  /** Comment lines are dropped line by line: filtering a concatenation filters its parts,
      so the kept lines stay in file order. */
  lemma {:induction false} UncommentedAppend(a: seq<string>, b: seq<string>)
    ensures Uncommented(a + b) == Uncommented(a) + Uncommented(b)
  {
    if a == [] {
      assert a + b == b;
    } else {
      assert (a + b)[0] == a[0] && (a + b)[1..] == a[1..] + b;
      UncommentedAppend(a[1..], b);
    }
  }

  /** The records of a file: every uncommented line after the header, tokenized. */
  function Records(lines: seq<string>, columns: nat): (r: seq<Result<seq<string>, ExceptionKind>>)
    ensures forall i | 0 <= i < |r| :: r[i].Success? ==> |r[i].value| == columns
    ensures forall i | 0 <= i < |r| :: r[i].Failure? ==> r[i].error == FlatFileParse
  {
    var body := Uncommented(lines);
    var data := if |body| <= LINES_TO_SKIP then [] else body[LINES_TO_SKIP..];
    seq(|data|, i requires 0 <= i < |data| => Tokenize(data[i], columns))
  }

  /** Exactly one header line is skipped: record `i` comes from uncommented line `i + 1`. */
  lemma RecordsSkipHeader(lines: seq<string>, columns: nat)
    ensures var body := Uncommented(lines);
            && |Records(lines, columns)| == (if body == [] then 0 else |body| - 1)
            && forall i | 0 <= i < |Records(lines, columns)| ::
                 Records(lines, columns)[i] == Tokenize(body[i + 1], columns)
  {
  }

  /** A file of a header and one well-formed line yields one record. */
  lemma HeaderAndOneLine(header: string, line: string, columns: nat)
    requires !IsComment(header) && !IsComment(line)
    ensures Records([header, line], columns) == [Tokenize(line, columns)]
  {
    assert [header, line][1..] == [line];
    assert [line][1..] == [];
    assert Uncommented([header, line]) == [header, line];
  }

  /** Opening the resource: an input path that resolves to no file fails the step before
      any chunk starts. */
  function Open(files: map<string, seq<string>>, path: string): (r: Result<seq<string>, FailCause>)
    ensures r.Failure? <==> SafePath(path) !in files
    ensures r.Failure? ==> r.error == SourceUnavailable
  {
    var location := SafePath(path);
    if location in files then Success(files[location]) else Failure(SourceUnavailable)
  }
}
