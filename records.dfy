/** The records that flow through the two loaders: the raw CSV rows, the processed rows
    handed to the writers, and the columns the writers store. A Java `String` field that
    may be null is an `Option<string>`. */
module BatchRecords {
  import opened Wrappers

  /** A row of the country file, in column order (countryId, countryName). */
  datatype CountryCsvInput = CountryCsvInput(countryId: Option<string>, countryName: Option<string>)

  /** The country writer's item, declared as (code, name, updatedBy). */
  datatype CountryDBOutput = CountryDBOutput(code: string, name: string, updatedBy: string)

  /** A row of the team file, in column order. */
  datatype TeamCsvInput = TeamCsvInput(
    name: Option<string>,
    teamType: Option<string>,
    stadiumName: Option<string>,
    establishedYear: Option<string>,
    nickname: Option<string>,
    stadiumCapacity: Option<string>,
    countryCode: Option<string>)

  /** The surrogate id of a COUNTRY row. */
  type CountryId = nat

  /** The team writer's item. The `countryCode` slot carries the resolved country id. */
  datatype TeamDBOutput = TeamDBOutput(
    name: string,
    teamType: string,
    stadiumName: Option<string>,
    establishedYear: int,
    nickname: Option<string>,
    stadiumCapacity: int,
    countryCode: CountryId,
    updatedBy: string)

  /** The non-key columns of a COUNTRY row; the table is keyed by CODE. */
  datatype CountryColumns = CountryColumns(name: string, updatedBy: string)

  /** The non-key columns of a TEAM row; the table is keyed by NAME. */
  datatype TeamColumns = TeamColumns(
    teamType: string,
    stadiumName: Option<string>,
    establishedYear: int,
    nickname: Option<string>,
    stadiumCapacity: int,
    countryId: CountryId,
    updatedBy: string)
}
