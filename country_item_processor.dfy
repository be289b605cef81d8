/** The country processor: validates a raw country row and trims its two fields. It never
    filters a row: every input either raises a ValidationException (`Failure`, carrying the
    message) or yields the writer's item (`Success`). */
module CountryItemProcessor {
  import opened Wrappers
  import opened JavaStrings
  import opened BatchRecords

  const UPDATED_BY: string := "COUNTRY_LOAD_JOB"
  const NAME_MISSING: string := "Country name is missing."
  const CODE_INVALID: string := "Country Code is invalid or missing (must be 3 chars or '999'): "

  /** The name test: present and not empty once trimmed. */
  predicate NameAccepted(name: Option<string>) {
    name.Some? && Trim(name.value) != []
  }

  /** The code test as written: present, and either three UTF-16 code units long once
      trimmed or exactly "999". */
  predicate CodeAccepted(id: Option<string>) {
    id.Some? && (Utf16Length(Trim(id.value)) == 3 || id.value == "999")
  }

  function Process(item: CountryCsvInput): (r: Result<CountryDBOutput, string>)
    ensures r.Success? <==> NameAccepted(item.countryName) && CodeAccepted(item.countryId)
    ensures !NameAccepted(item.countryName) ==> r == Failure(NAME_MISSING)
    ensures NameAccepted(item.countryName) && !CodeAccepted(item.countryId) ==>
              r == Failure(CODE_INVALID + Str(item.countryId))
  {
    if item.countryName.None? || Trim(item.countryName.value) == [] then
      Failure(NAME_MISSING)
    else if item.countryId.None? || (Utf16Length(Trim(item.countryId.value)) != 3 && item.countryId.value != "999") then
      Failure(CODE_INVALID + Str(item.countryId))
    else
      Success(CountryDBOutput(Trim(item.countryName.value), Trim(item.countryId.value), UPDATED_BY))
  }

  /** The "999" alternative adds nothing: "999" is already three code units long, so the
      code test is "three code units once trimmed". */
  lemma CodeRuleIsTrimmedLengthThree(id: Option<string>)
    ensures CodeAccepted(id) <==> id.Some? && Utf16Length(Trim(id.value)) == 3
  {
    if id == Some("999") {
      TrimLeadingOfUntrimmed("999");
      TrimTrailingOfUntrimmed("999");
    }
  }

  /** A row is accepted exactly when its name has a character above U+0020 and its code
      has three UTF-16 code units between the first and the last such character. */
  lemma ProcessAcceptsIff(item: CountryCsvInput)
    ensures Process(item).Success? <==>
              && item.countryName.Some?
              && (exists i | 0 <= i < |item.countryName.value| :: !IsTrimmed(item.countryName.value[i]))
              && item.countryId.Some? && Utf16Length(Trim(item.countryId.value)) == 3
  {
    CodeRuleIsTrimmedLengthThree(item.countryId);
    if item.countryName.Some? {
      TrimEmptyIff(item.countryName.value);
    }
  }

  /** An accepted row puts the trimmed name in the `code` slot and the trimmed id in the
      `name` slot (the argument order of the constructor call), both already trimmed,
      non-empty, the id three code units long, stamped with the job's audit value. */
  lemma ProcessOutput(item: CountryCsvInput)
    requires Process(item).Success?
    ensures var out := Process(item).value;
            && out.code == Trim(item.countryName.value)
            && out.name == Trim(item.countryId.value)
            && out.updatedBy == UPDATED_BY
            && Trim(out.code) == out.code && out.code != []
            && Trim(out.name) == out.name && Utf16Length(out.name) == 3
  {
    var name, id := item.countryName.value, item.countryId.value;
    assert Process(item) == Success(CountryDBOutput(Trim(name), Trim(id), UPDATED_BY));
    CodeRuleIsTrimmedLengthThree(item.countryId);
    TrimIdempotent(name);
    TrimIdempotent(id);
  }

  /** The name is checked first: a row whose name is null or made only of characters
      <= U+0020 reports the name, whatever its code. */
  lemma NameCheckedFirst(id: Option<string>, name: Option<string>)
    requires name.None? || forall i | 0 <= i < |name.value| :: IsTrimmed(name.value[i])
    ensures Process(CountryCsvInput(id, name)) == Failure(NAME_MISSING)
  {
    if name.Some? {
      TrimEmptyIff(name.value);
    }
  }

  /** The placeholder code "999" is accepted like any three-unit code: with it, the
      outcome depends on the name alone. */
  lemma PlaceholderCodeAccepted(name: Option<string>)
    ensures Process(CountryCsvInput(Some("999"), name)) ==
              if NameAccepted(name) then Success(CountryDBOutput(Trim(name.value), "999", UPDATED_BY))
              else Failure(NAME_MISSING)
  {
    if NameAccepted(name) {
      CodeRuleIsTrimmedLengthThree(Some("999"));
      PlaceholderIsTrimmed();
    }
  }

  /** Java counts a character above U+FFFF as two code units: an emoji followed by one
      letter is a three-unit code, and the row is accepted and written trimmed. */
  lemma SupplementaryCodeAccepted(name: string)
    requires exists i | 0 <= i < |name| :: !IsTrimmed(name[i])
    ensures Process(CountryCsvInput(Some("\U{1F600}A"), Some(name))) ==
              Success(CountryDBOutput(Trim(name), "\U{1F600}A", UPDATED_BY))
  {
    EmojiCodeIsThreeUnits();
    TrimEmptyIff(name);
    assert NameAccepted(Some(name)) && CodeAccepted(Some("\U{1F600}A"));
  }

  lemma EmojiCodeIsThreeUnits()
    ensures Trim("\U{1F600}A") == "\U{1F600}A" && Utf16Length("\U{1F600}A") == 3
  {
    TrimOfUntrimmed("\U{1F600}A");
    var code: string := "\U{1F600}A";
    assert code[1..] == "A";
  }

  lemma PlaceholderIsTrimmed()
    ensures Trim("999") == "999"
  {
    TrimOfUntrimmed("999");
  }
}
