/** The country-id resolver the team processor calls: a blank code resolves to nothing, any
    other code is upper-cased (not trimmed) and looked up in the COUNTRY table by CODE. An
    unknown code is an ordinary "no id" answer. The lookup only reads the table. */
module CountryIdLookupService {
  import opened Wrappers
  import opened JavaStrings
  import opened BatchRecords
  import opened Upsert

  /** The COUNTRY table, keyed by CODE. */
  type CountryTable = Table<string, CountryColumns>

  /** The id of the country whose stored code matches the given code ignoring case; only
      codes stored in upper case can match. */
  function FindIdByCode(countries: CountryTable, code: Option<string>): (r: Option<CountryId>)
    ensures !HasText(code) ==> r == None
    ensures r.Some? ==> exists k | k in countries.rows :: countries.rows[k].id == r.value
    ensures code.Some? && !IsBlank(code.value) ==>
              (r.Some? <==> exists k | k in countries.rows && ToUpper(k) == k :: SameIgnoringCase(k, code.value))
    ensures code.Some? && !IsBlank(code.value) ==>
              forall k | k in countries.rows && ToUpper(k) == k && SameIgnoringCase(k, code.value) ::
                r == Some(countries.rows[k].id)
  {
    if code.None? || IsBlank(code.value) then None
    else
      var normalized := ToUpper(code.value);
      ToUpperIdempotent(code.value);
      if normalized in countries.rows then Some(countries.rows[normalized].id) else None
  }

  /** Upper-casing a code first changes nothing. */
  lemma FindIdByCodeOfUpper(countries: CountryTable, code: string)
    ensures FindIdByCode(countries, Some(ToUpper(code))) == FindIdByCode(countries, Some(code))
  {
    ToUpperIdempotent(code);
    ToUpperKeepsBlank(code);
  }

  /** ASCII `equalsIgnoreCase`. */
  predicate SameIgnoringCase(a: string, b: string) {
    ToUpper(a) == ToUpper(b)
  }

  /** Two codes that are equal ignoring case find the same country, or both none. */
  lemma FindIdByCodeIsCaseInsensitive(countries: CountryTable, a: string, b: string)
    requires SameIgnoringCase(a, b)
    ensures FindIdByCode(countries, Some(a)) == FindIdByCode(countries, Some(b))
  {
    ToUpperKeepsBlank(a);
    ToUpperKeepsBlank(b);
  }

  /** A row stored under a code that is not upper case cannot be found by any code:
      every code is upper-cased before the lookup. */
  lemma LowerCaseCodeUnreachable(countries: CountryTable, k: string, code: Option<string>)
    requires WellFormed(countries)
    requires k in countries.rows && ToUpper(k) != k
    ensures FindIdByCode(countries, code) != Some(countries.rows[k].id)
  {
    if code.Some? && !IsBlank(code.value) {
      var n := ToUpper(code.value);
      ToUpperIdempotent(code.value);
      assert n != k;
    }
  }

  /** Surrounding blanks stay part of the key: " ENG" does not find "ENG", while "eng"
      does. */
  lemma CodeIsNotTrimmed(countries: CountryTable)
    requires "ENG" in countries.rows
    ensures FindIdByCode(countries, Some(" ENG")) == None || " ENG" in countries.rows
    ensures FindIdByCode(countries, Some("eng")) == Some(countries.rows["ENG"].id)
  {
    assert ToUpper(" ENG") == " ENG";
    assert !IsWhitespace('E');
    assert ToUpper("eng") == "ENG";
    assert !IsWhitespace(" ENG"[1]);
    assert !IsWhitespace("eng"[0]);
  }
}
