/** The data model of the visa checker: countries, a requirement record for
    one ordered (origin, destination) pair, the traveller's existing visas,
    the status categories and the per-status statistics. */
module VisaTypes {
  import opened Wrappers

  datatype Region = Asia | MiddleEast | Europe | Americas | Africa | Oceania

  /** A country; `flag` and `region` are optional in the source. */
  datatype Country = Country(code: string, name: string, flag: Option<string>, region: Option<Region>)

  /** The rule for one ordered (origin, destination) pair. Every field but the
      two booleans is optional; `requirements` is an ordered list of documents. */
  datatype VisaRequirement = VisaRequirement(
    visaRequired: bool,
    visaOnArrival: bool,
    duration: Option<string>,
    processingTime: Option<string>,
    cost: Option<string>,
    notes: Option<string>,
    requirements: Option<seq<string>>)

  /** Requirement table keyed by (origin code, destination code). The source
      keys a record by the string `origin + "->" + dest`; a pair key is that
      string's injective reading. */
  type RequirementTable = map<(string, string), VisaRequirement>

  datatype VisaData = VisaData(countries: map<string, Country>, requirements: RequirementTable)

  /** The four documents the traveller may declare. */
  datatype ExistingVisas = ExistingVisas(usVisa: bool, ukVisa: bool, schengenVisa: bool, uaeResidency: bool)

  /** The status filter values; the classifier yields every one but `All`. */
  datatype VisaStatusFilter = All | VisaFree | VisaOnArrival | EVisa | VisaRequired

  /** The region filter: a region, or `'all'`. */
  datatype RegionFilter = AnyRegion | OnlyRegion(region: Region)

  datatype VisaStatistics = VisaStatistics(visaFree: nat, visaOnArrival: nat, evisa: nat, visaRequired: nat)

  const NoStatistics := VisaStatistics(0, 0, 0, 0)
}
