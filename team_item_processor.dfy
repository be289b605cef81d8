/** The team processor: three mandatory-text checks that raise a ValidationException, then
    two integer conversions and a country lookup whose failures filter the row out (the
    processor returns null), then the writer's item stamped with the job's audit value. */
module TeamItemProcessor {
  import opened Wrappers
  import opened JavaStrings
  import opened BatchRecords
  import opened CountryIdLookupService

  const SYSTEM_USER: string := "TEAM_LOAD_JOB"
  const NAME_MISSING: string := "Mandatory field missing: Team Name is null or empty."

  function TypeMissing(name: string): string {
    "Mandatory field missing: Team Type is null or empty for team [" + name + "]."
  }

  function CountryCodeMissing(name: string): string {
    "Mandatory field missing: Country Code is null or empty for team [" + name + "]."
  }

  /** Why a row was filtered out. */
  datatype FilterReason = BadEstablishedYear | BadStadiumCapacity | UnknownCountry

  datatype Outcome =
    | Output(out: TeamDBOutput)        // the item for the writer
    | Filtered(reason: FilterReason)   // `process` returned null
    | Invalid(message: string)         // ValidationException

  /** The three fields every team row must carry. */
  predicate MandatoryPresent(item: TeamCsvInput) {
    HasText(item.name) && HasText(item.teamType) && HasText(item.countryCode)
  }

  function Process(item: TeamCsvInput, countries: CountryTable): (r: Outcome)
    ensures r.Invalid? <==> !MandatoryPresent(item)
    ensures r.Output? ==> InIntRange(r.out.establishedYear) && InIntRange(r.out.stadiumCapacity)
    ensures r.Output? ==> r.out.updatedBy == SYSTEM_USER
  {
    if !HasText(item.name) then Invalid(NAME_MISSING)
    else if !HasText(item.teamType) then Invalid(TypeMissing(item.name.value))
    else if !HasText(item.countryCode) then Invalid(CountryCodeMissing(item.name.value))
    else
      match ParseInt(item.establishedYear)
      case None => Filtered(BadEstablishedYear)
      case Some(year) =>
        match ParseInt(item.stadiumCapacity)
        case None => Filtered(BadStadiumCapacity)
        case Some(capacity) =>
          match FindIdByCode(countries, item.countryCode)
          case None => Filtered(UnknownCountry)
          case Some(id) =>
            Output(TeamDBOutput(item.name.value, item.teamType.value, item.stadiumName, year,
                                item.nickname, capacity, id, SYSTEM_USER))
  }

  /** The mandatory checks run in the order name, team type, country code; the first
      field without text decides the message. */
  lemma MandatoryCheckOrder(item: TeamCsvInput, countries: CountryTable)
    ensures !HasText(item.name) ==> Process(item, countries) == Invalid(NAME_MISSING)
    ensures HasText(item.name) && !HasText(item.teamType) ==>
              Process(item, countries) == Invalid(TypeMissing(item.name.value))
    ensures HasText(item.name) && HasText(item.teamType) && !HasText(item.countryCode) ==>
              Process(item, countries) == Invalid(CountryCodeMissing(item.name.value))
  {
  }

  /** A row with its mandatory fields is never rejected with an exception: it is filtered
      exactly when a number does not parse or the country code does not resolve, and the
      year is tried first, then the capacity, then the country. */
  lemma FilteredIff(item: TeamCsvInput, countries: CountryTable)
    requires MandatoryPresent(item)
    ensures Process(item, countries).Filtered? <==>
              ParseInt(item.establishedYear).None? || ParseInt(item.stadiumCapacity).None? ||
              FindIdByCode(countries, item.countryCode).None?
    ensures ParseInt(item.establishedYear).None? ==>
              Process(item, countries) == Filtered(BadEstablishedYear)
    ensures ParseInt(item.establishedYear).Some? && ParseInt(item.stadiumCapacity).None? ==>
              Process(item, countries) == Filtered(BadStadiumCapacity)
  {
  }

  /** An accepted row copies the text fields unchanged, carries the two numbers as parsed
      and the id of the COUNTRY row stored under the upper-cased code. */
  lemma ProcessOutput(item: TeamCsvInput, countries: CountryTable)
    requires Process(item, countries).Output?
    ensures var out := Process(item, countries).out;
            && item.name == Some(out.name) && HasText(item.name)
            && item.teamType == Some(out.teamType) && HasText(item.teamType)
            && out.stadiumName == item.stadiumName && out.nickname == item.nickname
            && ParseInt(item.establishedYear) == Some(out.establishedYear)
            && ParseInt(item.stadiumCapacity) == Some(out.stadiumCapacity)
            && HasText(item.countryCode)
            && ToUpper(item.countryCode.value) in countries.rows
            && countries.rows[ToUpper(item.countryCode.value)].id == out.countryCode
  {
    HasTextIffNotBlank(item.countryCode);
  }

  /** The country table is consulted only once both numbers have parsed: a row filtered for
      a number is filtered the same way against any table. */
  lemma LookupComesLast(item: TeamCsvInput, c1: CountryTable, c2: CountryTable)
    requires ParseInt(item.establishedYear).None? || ParseInt(item.stadiumCapacity).None?
    ensures Process(item, c1) == Process(item, c2)
  {
  }

  /** Stadium name and nickname are never validated: changing them changes nothing but
      the same two fields of the output. */
  lemma UnvalidatedFields(item: TeamCsvInput, countries: CountryTable, stadium: Option<string>, nickname: Option<string>)
    ensures var r1 := Process(item, countries);
            var r2 := Process(item.(stadiumName := stadium, nickname := nickname), countries);
            && (r1.Output? <==> r2.Output?)
            && (!r1.Output? ==> r1 == r2)
            && (r1.Output? ==> r2.out == r1.out.(stadiumName := stadium, nickname := nickname))
  {
  }

  /** Integer.parseInt does not trim: a year written with a blank before or after it
      filters the row. */
  lemma PaddedYearIsFiltered(item: TeamCsvInput, countries: CountryTable, y: string)
    requires MandatoryPresent(item)
    requires item.establishedYear == Some(y)
    requires |y| > 0 && (y[0] == ' ' || y[|y| - 1] == ' ')
    ensures Process(item, countries) == Filtered(BadEstablishedYear)
  {
    var digits := if y[0] == '-' || y[0] == '+' then y[1..] else y;
    if |digits| > 0 {
      assert digits[|digits| - 1] == y[|y| - 1];
      assert !IsDigit(digits[0]) || !IsDigit(digits[|digits| - 1]);
    }
  }
}
