/** What the statistics and the filter promise together: the four counters
    account for every destination, the filter keeps input order, and with a
    neutral query and region the filter for one status keeps exactly as many
    countries as that status's counter. */
module CountingProperties {
  import opened Wrappers
  import opened AsciiText
  import opened VisaTypes
  import opened VisaUtils

  /** A non-empty sequence is its prefix followed by its last element. */
  lemma SplitLast<T>(s: seq<T>)
    requires |s| > 0
    ensures s == s[..|s| - 1] + [s[|s| - 1]]
  {
  }

  /** The four counters sum to the number of countries other than the origin. */
  lemma {:induction false} StatisticsConservation(countries: seq<Country>, origin: Country, data: VisaData, visas: ExistingVisas)
    ensures CountStatus(countries, origin, data, visas, VisaFree)
          + CountStatus(countries, origin, data, visas, VisaOnArrival)
          + CountStatus(countries, origin, data, visas, EVisa)
          + CountStatus(countries, origin, data, visas, VisaRequired)
         == |Destinations(countries, origin.code)|
  {
    if countries != [] {
      StatisticsConservation(countries[..|countries| - 1], origin, data, visas);
    }
  }

  /** The statistics method's counters sum to the number of destinations. */
  lemma StatisticsAddUp(origin: Country, countries: seq<Country>, data: VisaData, visas: ExistingVisas, stats: VisaStatistics)
    requires stats.visaFree == CountStatus(countries, origin, data, visas, VisaFree)
    requires stats.visaOnArrival == CountStatus(countries, origin, data, visas, VisaOnArrival)
    requires stats.evisa == CountStatus(countries, origin, data, visas, EVisa)
    requires stats.visaRequired == CountStatus(countries, origin, data, visas, VisaRequired)
    ensures stats.visaFree + stats.visaOnArrival + stats.evisa + stats.visaRequired == |Destinations(countries, origin.code)|
  {
    StatisticsConservation(countries, origin, data, visas);
  }

  /** With an empty query and every region, filtering by one status keeps as
      many countries as the statistics count for it. */
  lemma {:induction false} FilterCountMatchesStatistics(countries: seq<Country>, origin: Country, data: VisaData,
                                                        visas: ExistingVisas, status: VisaStatusFilter)
    requires status != All
    ensures |FilterCountries(countries, Some(origin), data, "", AnyRegion, status, visas)| == CountStatus(countries, origin, data, visas, status)
  {
    if countries != [] {
      FilterCountMatchesStatistics(countries[..|countries| - 1], origin, data, visas, status);
    }
  }

  /** With every filter neutral the result is every country but the origin,
      in input order. */
  lemma {:induction false} NeutralFilterKeepsDestinations(countries: seq<Country>, origin: Country, data: VisaData, visas: ExistingVisas)
    ensures FilterCountries(countries, Some(origin), data, "", AnyRegion, All, visas) == Destinations(countries, origin.code)
  {
    if countries != [] {
      NeutralFilterKeepsDestinations(countries[..|countries| - 1], origin, data, visas);
    }
  }

  /** Without an origin the status filter has no effect. */
  lemma {:induction false} NoOriginIgnoresStatus(countries: seq<Country>, data: VisaData, query: string,
                                                 regionFilter: RegionFilter, statusFilter: VisaStatusFilter, visas: ExistingVisas)
    ensures FilterCountries(countries, None, data, query, regionFilter, statusFilter, visas)
         == FilterCountries(countries, None, data, query, regionFilter, All, visas)
  {
    if countries != [] {
      NoOriginIgnoresStatus(countries[..|countries| - 1], data, query, regionFilter, statusFilter, visas);
    }
  }

  /** Without an origin, an empty query and every region, nothing is removed. */
  lemma {:induction false} NoOriginNeutralFilterKeepsAll(countries: seq<Country>, data: VisaData,
                                                         statusFilter: VisaStatusFilter, visas: ExistingVisas)
    ensures FilterCountries(countries, None, data, "", AnyRegion, statusFilter, visas) == countries
  {
    if countries != [] {
      var rest, last := countries[..|countries| - 1], countries[|countries| - 1];
      NoOriginNeutralFilterKeepsAll(rest, data, statusFilter, visas);
      assert KeepCountry(last, None, data, "", AnyRegion, statusFilter, visas);
      assert FilterCountries(countries, None, data, "", AnyRegion, statusFilter, visas)
          == FilterCountries(rest, None, data, "", AnyRegion, statusFilter, visas) + [last];
      SplitLast(countries);
    }
  }

  /** Every country the filter keeps is not the origin, matches a non-empty
      query in its name or code ignoring case, lies in the chosen region (so
      a country with no region is dropped by any region filter), and, when
      an origin is set, has the chosen status after the override. */
  lemma KeptCountryFacts(countries: seq<Country>, origin: Option<Country>, data: VisaData, query: string,
                         regionFilter: RegionFilter, statusFilter: VisaStatusFilter, visas: ExistingVisas, c: Country)
    requires c in FilterCountries(countries, origin, data, query, regionFilter, statusFilter, visas)
    ensures c in countries
    ensures origin.Some? ==> c.code != origin.value.code
    ensures query != "" ==> Includes(ToLower(c.name), ToLower(query)) || Includes(ToLower(c.code), ToLower(query))
    ensures regionFilter.OnlyRegion? ==> c.region == Some(regionFilter.region)
    ensures statusFilter != All && origin.Some? ==>
      GetVisaStatus(ResolveRequirement(origin.value, c, data, visas)) == statusFilter
  {
  }
}
