/** What the two job-trigger controllers share: the input and error paths they derive from
    the requested file name, the HTTP reply, and the launched execution. */
module JobTrigger {
  import opened JavaStrings

  const BASE_DIR: string := "/opt/predictor/data/"
  const CSV: string := ".csv"
  const ERROR_CSV: string := ".error.csv"
  const COUNTER_FAILED: string := "Failed to prepare data version counter."

  /** An HTTP status and body. */
  datatype Response = Response(status: nat, body: string)

  /** The JobExecution a launch returns: its id and the name of its BatchStatus. */
  datatype Execution = Execution(id: int, status: string)

  /** The file the job reads: the name under the base directory. */
  function InputFile(fileName: string): (r: string)
    ensures StartsWith(r, BASE_DIR) && r[|BASE_DIR|..] == fileName
  {
    BASE_DIR + fileName
  }

  /** The file the job's rejected rows go to: every ".csv" of the name becomes ".error.csv". */
  function ErrorFile(fileName: string): (r: string)
    ensures StartsWith(r, BASE_DIR)
  {
    BASE_DIR + Replace(fileName, CSV, ERROR_CSV)
  }

  /** The error file is the input file exactly when the name has no ".csv" in it, so such a
      job would write its errors over its input. */
  lemma ErrorFileIsInputFileIff(fileName: string)
    ensures ErrorFile(fileName) == InputFile(fileName) <==> !Contains(fileName, CSV)
  {
    ReplaceUnchangedIff(fileName, CSV, ERROR_CSV);
    if ErrorFile(fileName) == InputFile(fileName) {
      assert ErrorFile(fileName)[|BASE_DIR|..] == Replace(fileName, CSV, ERROR_CSV);
    }
  }

  /** Every ".csv" is replaced, not only the extension: the error file grows by six
      characters per occurrence. */
  lemma ErrorFileLength(fileName: string)
    ensures |ErrorFile(fileName)| == |InputFile(fileName)| + 6 * Occurrences(fileName, CSV)
  {
    ReplaceLength(fileName, CSV, ERROR_CSV);
  }

  /** For a plain name with a ".csv" extension, the error file is that name with the
      extension ".error.csv". */
  lemma ErrorFileOfCsvName(stem: string)
    requires '.' !in stem
    ensures ErrorFile(stem + CSV) == BASE_DIR + stem + ERROR_CSV
  {
    ReplaceAfterPrefix(stem, CSV, CSV, ERROR_CSV);
    assert Replace(CSV, CSV, ERROR_CSV) == ERROR_CSV + Replace([], CSV, ERROR_CSV);
  }

  /** The body of a 200 reply: the title, then the two paths, the new version, the
      execution id and its status, each after its label. */
  function StartedBody(title: string, inputFile: string, errorFile: string, version: nat, e: Execution): string {
    title + "Input File: " + inputFile + ", Error File: " + errorFile + ", New Version Count: " +
    IntToString(version) + ". Execution ID: " + IntToString(e.id) + ". Status: " + e.status
  }

  /** A 200 reply names the input file, the error file and the new version. */
  lemma StartedBodyNamesLaunch(title: string, inputFile: string, errorFile: string, version: nat, e: Execution)
    ensures var body := StartedBody(title, inputFile, errorFile, version, e);
            Contains(body, inputFile) && Contains(body, errorFile) && Contains(body, IntToString(version))
  {
    MentionsParts(title, "Input File: ", inputFile, ", Error File: ", errorFile, ", New Version Count: ",
                  IntToString(version), ". Execution ID: ", IntToString(e.id), ". Status: ", e.status);
  }

  /** The 2nd, 4th and 6th parts of a concatenation of eleven occur in it. */
  lemma MentionsParts(s0: string, s1: string, s2: string, s3: string, s4: string, s5: string,
                      s6: string, s7: string, s8: string, s9: string, s10: string)
    ensures var t := s0 + s1 + s2 + s3 + s4 + s5 + s6 + s7 + s8 + s9 + s10;
            Contains(t, s2) && Contains(t, s4) && Contains(t, s6)
  {
    var t := s0 + s1 + s2 + s3 + s4 + s5 + s6 + s7 + s8 + s9 + s10;
    var tail := s7 + s8 + s9 + s10;
    assert t == (s0 + s1) + s2 + (s3 + s4 + s5 + s6 + tail);
    ContainsConcat(s0 + s1, s2, s3 + s4 + s5 + s6 + tail);
    assert t == (s0 + s1 + s2 + s3) + s4 + (s5 + s6 + tail);
    ContainsConcat(s0 + s1 + s2 + s3, s4, s5 + s6 + tail);
    assert t == (s0 + s1 + s2 + s3 + s4 + s5) + s6 + tail;
    ContainsConcat(s0 + s1 + s2 + s3 + s4 + s5, s6, tail);
  }
}
