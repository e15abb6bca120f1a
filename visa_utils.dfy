/** The visa-status engine: existing-visa overrides, the status classifier,
    the statistics tally and the country filter. */
module VisaUtils {
  import opened Wrappers
  import opened AsciiText
  import opened VisaTypes

  // ---------------------------------------------------------------------------
  // Country-code lists of the override rules, in the order the source lists them
  // ---------------------------------------------------------------------------

  const UsVisaFreeCountries: seq<string> :=
    ["AL", "BA", "BZ", "CO", "CR", "DO", "EC", "GE", "JM", "XK", "MX", "ME", "MK", "PA", "PE", "PH", "RS"]
  const UsVisaEVisaCountries: seq<string> :=
    ["AZ", "BH", "JO", "KG", "MA", "OM", "QA", "SA", "TW", "TJ", "TR"]
  const UkVisaFreeCountries: seq<string> :=
    ["AL", "BA", "DO", "GE", "JM", "XK", "MX", "ME", "MK", "PA", "PE", "PH", "RS"]
  const UkVisaEVisaCountries: seq<string> :=
    ["AG", "AZ", "BH", "KG", "MA", "OM", "QA", "SA", "TW", "TJ", "TR"]
  const SchengenMemberCountries: seq<string> :=
    ["FR", "DE", "IT", "ES", "NL", "BE", "AT", "SE", "NO", "DK", "FI", "PL", "GR", "PT", "CH",
     "IS", "LI", "LU", "MT", "CZ", "EE", "HU", "LV", "LT", "SK", "SI"]
  const SchengenAccessibleCountries: seq<string> := ["CO", "CR", "EC"]
  const GenericUsCountries: seq<string> := ["MX", "CA"]
  const GenericSchengenCountries: seq<string> :=
    ["FR", "DE", "IT", "ES", "NL", "BE", "AT", "SE", "NO", "DK", "FI", "PL", "GR", "PT", "CH"]

  const UsFreeNote := " Visa-free with valid US visa (multi-entry)."
  /** The opening the three simplified e-visa notes share. */
  const SimplifiedEVisaOpening := " Simplified e-visa"
  const UsEVisaNote := SimplifiedEVisaOpening + " processing available with valid US visa."
  const CanadaNote := "Pakistani citizens with US green card can visit Canada visa-free for up to 6 months."
  const UkFreeNote := " Visa-free with valid UK visa (multi-entry)."
  const UkEVisaNote := SimplifiedEVisaOpening + " processing available with valid UK visa."
  const SchengenMemberNote :=
    "Pakistani citizens with valid Schengen visa can visit this country visa-free for up to 90 days within any 180-day period."
  const SchengenAccessibleNote := " Visa-free with valid Schengen visa (multi-entry)."
  const JordanNote := SimplifiedEVisaOpening + " or visa-on-arrival processing available with valid Schengen visa."

  /** JavaScript's `notes + suffix`: an absent `notes` is rendered as the text
      "undefined" before the suffix. */
  function AppendNote(notes: Option<string>, suffix: string): string
  {
    match notes
    case Some(n) => n + suffix
    case None => "undefined" + suffix
  }

  // ---------------------------------------------------------------------------
  // Existing-visa override (applyExistingVisas)
  // ---------------------------------------------------------------------------

  /** US-visa block for Pakistani passports: the first matching list returns. */
  function PakistanUsVisa(req: VisaRequirement, code: string): Option<VisaRequirement>
  {
    if code in UsVisaFreeCountries then
      Some(req.(visaRequired := false, visaOnArrival := false, duration := Some("30-90 days"),
                notes := Some(AppendNote(req.notes, UsFreeNote))))
    else if code in UsVisaEVisaCountries then
      Some(req.(visaRequired := true, visaOnArrival := false,
                notes := Some(AppendNote(req.notes, UsEVisaNote))))
    else if code == "CA" then
      Some(req.(visaRequired := false, visaOnArrival := false, duration := Some("6 months"),
                notes := Some(CanadaNote)))
    else None
  }

  /** UK-visa block for Pakistani passports. */
  function PakistanUkVisa(req: VisaRequirement, code: string): Option<VisaRequirement>
  {
    if code in UkVisaFreeCountries then
      Some(req.(visaRequired := false, visaOnArrival := false, duration := Some("30-90 days"),
                notes := Some(AppendNote(req.notes, UkFreeNote))))
    else if code in UkVisaEVisaCountries then
      Some(req.(visaRequired := true, visaOnArrival := false,
                notes := Some(AppendNote(req.notes, UkEVisaNote))))
    else None
  }

  /** Schengen-visa block for Pakistani passports. */
  function PakistanSchengenVisa(req: VisaRequirement, code: string): Option<VisaRequirement>
  {
    if code in SchengenMemberCountries then
      Some(req.(visaRequired := false, visaOnArrival := false, duration := Some("90 days within 180 days"),
                notes := Some(SchengenMemberNote)))
    else if code in SchengenAccessibleCountries then
      Some(req.(visaRequired := false, visaOnArrival := false, duration := Some("30-90 days"),
                notes := Some(AppendNote(req.notes, SchengenAccessibleNote))))
    else if code == "JO" then
      Some(req.(visaRequired := true, visaOnArrival := false,
                notes := Some(AppendNote(req.notes, JordanNote))))
    else None
  }

  /** The three independent Pakistani blocks, tried in source order; the first
      block that returns ends the override. */
  function PakistanOverride(req: VisaRequirement, code: string, visas: ExistingVisas): Option<VisaRequirement>
  {
    var us := if visas.usVisa then PakistanUsVisa(req, code) else None;
    if us.Some? then us
    else
      var uk := if visas.ukVisa then PakistanUkVisa(req, code) else None;
      if uk.Some? then uk
      else if visas.schengenVisa then PakistanSchengenVisa(req, code)
      else None
  }

  /** The rules for every origin: both only waive the visa. */
  function GenericOverride(req: VisaRequirement, code: string, visas: ExistingVisas): Option<VisaRequirement>
  {
    if visas.usVisa && code in GenericUsCountries then
      Some(req.(visaRequired := false, visaOnArrival := false))
    else if visas.schengenVisa && code in GenericSchengenCountries then
      Some(req.(visaRequired := false, visaOnArrival := false))
    else None
  }

  /** The requirement as modified by the traveller's existing visas. Only the
      two booleans, `duration` and `notes` can change. */
  function ApplyExistingVisas(req: VisaRequirement, originCode: string, dest: Country, visas: ExistingVisas): (r: VisaRequirement)
    ensures r.cost == req.cost && r.processingTime == req.processingTime && r.requirements == req.requirements
  {
    var pk := if originCode == "PK" then PakistanOverride(req, dest.code, visas) else None;
    if pk.Some? then pk.value
    else GenericOverride(req, dest.code, visas).GetOr(req)
  }

  // ---------------------------------------------------------------------------
  // Classifier (isEVisa, getVisaStatus)
  // ---------------------------------------------------------------------------

  /** The text-based e-visa heuristic: a visa is required and the lower-cased
      cost mentions "e-visa" or "evisa", or the lower-cased notes mention
      "e-visa", "evisa" or "online"; an absent text reads as empty. */
  function IsEVisa(req: VisaRequirement): (r: bool)
    ensures var cost := ToLower(req.cost.GetOr(""));
      var notes := ToLower(req.notes.GetOr(""));
      r <==> (req.visaRequired &&
        (HasSubstring(cost, "e-visa") || HasSubstring(cost, "evisa")
         || HasSubstring(notes, "e-visa") || HasSubstring(notes, "evisa") || HasSubstring(notes, "online")))
  {
    if !req.visaRequired then false
    else
      var cost := ToLower(req.cost.GetOr(""));
      var notes := ToLower(req.notes.GetOr(""));
      IncludesIsSubstring(cost, "e-visa");
      IncludesIsSubstring(cost, "evisa");
      IncludesIsSubstring(notes, "e-visa");
      IncludesIsSubstring(notes, "evisa");
      IncludesIsSubstring(notes, "online");
      Includes(cost, "e-visa") || Includes(cost, "evisa") || Includes(notes, "e-visa")
      || Includes(notes, "evisa") || Includes(notes, "online")
  }

  /** Status category of a requirement or of its absence, in precedence order:
      absent, not required, on arrival, e-visa, required. */
  function GetVisaStatus(req: Option<VisaRequirement>): (r: VisaStatusFilter)
    ensures r != All
    ensures r == VisaFree <==> req.Some? && !req.value.visaRequired
    ensures r == VisaOnArrival <==> req.Some? && req.value.visaRequired && req.value.visaOnArrival
    ensures r == EVisa <==> req.Some? && req.value.visaRequired && !req.value.visaOnArrival && IsEVisa(req.value)
  {
    match req
    case None => VisaRequired
    case Some(q) =>
      if !q.visaRequired then VisaFree
      else if q.visaOnArrival then VisaOnArrival
      else if IsEVisa(q) then EVisa
      else VisaRequired
  }

  // ---------------------------------------------------------------------------
  // Looking a destination up (shared by the statistics and the filter)
  // ---------------------------------------------------------------------------

  /** Table lookup for (origin, dest), with the override applied to an entry
      that exists; an absent entry stays absent. */
  function ResolveRequirement(origin: Country, dest: Country, data: VisaData, visas: ExistingVisas): (r: Option<VisaRequirement>)
    ensures r.None? <==> (origin.code, dest.code) !in data.requirements
  {
    var key := (origin.code, dest.code);
    if key in data.requirements then Some(ApplyExistingVisas(data.requirements[key], origin.code, dest, visas))
    else None
  }

  /** The status of `dest` seen from `origin`. */
  function DestinationStatus(origin: Country, dest: Country, data: VisaData, visas: ExistingVisas): (r: VisaStatusFilter)
    ensures r != All
    ensures (origin.code, dest.code) !in data.requirements ==> r == VisaRequired
  {
    GetVisaStatus(ResolveRequirement(origin, dest, data, visas))
  }

  // ---------------------------------------------------------------------------
  // Statistics (calculateVisaStatistics)
  // ---------------------------------------------------------------------------

  /** The countries other than the origin, in order. */
  function Destinations(countries: seq<Country>, originCode: string): (r: seq<Country>)
    ensures forall c :: c in r <==> c in countries && c.code != originCode
  {
    if countries == [] then []
    else
      var last := countries[|countries| - 1];
      Destinations(countries[..|countries| - 1], originCode) + (if last.code != originCode then [last] else [])
  }

  /** Number of countries other than the origin whose status is `status`. */
  function CountStatus(countries: seq<Country>, origin: Country, data: VisaData, visas: ExistingVisas, status: VisaStatusFilter): nat
  {
    if countries == [] then 0
    else
      var last := countries[|countries| - 1];
      CountStatus(countries[..|countries| - 1], origin, data, visas, status)
      + (if last.code != origin.code && DestinationStatus(origin, last, data, visas) == status then 1 else 0)
  }

  /** Tallies the status of every destination except the origin itself. */
  method CalculateVisaStatistics(origin: Option<Country>, countries: seq<Country>, data: VisaData, visas: ExistingVisas)
    returns (stats: VisaStatistics)
    ensures origin.None? ==> stats == NoStatistics
    ensures origin.Some? ==>
      && stats.visaFree == CountStatus(countries, origin.value, data, visas, VisaFree)
      && stats.visaOnArrival == CountStatus(countries, origin.value, data, visas, VisaOnArrival)
      && stats.evisa == CountStatus(countries, origin.value, data, visas, EVisa)
      && stats.visaRequired == CountStatus(countries, origin.value, data, visas, VisaRequired)
  {
    if origin.None? {
      return NoStatistics;
    }
    var o := origin.value;
    stats := NoStatistics;
    for i := 0 to |countries|
      invariant stats.visaFree == CountStatus(countries[..i], o, data, visas, VisaFree)
      invariant stats.visaOnArrival == CountStatus(countries[..i], o, data, visas, VisaOnArrival)
      invariant stats.evisa == CountStatus(countries[..i], o, data, visas, EVisa)
      invariant stats.visaRequired == CountStatus(countries[..i], o, data, visas, VisaRequired)
    {
      var dest := countries[i];
      assert countries[..i + 1][..i] == countries[..i];
      if dest.code != o.code {
        var key := (o.code, dest.code);
        var requirement: Option<VisaRequirement> := if key in data.requirements then Some(data.requirements[key]) else None;
        if requirement.Some? {
          requirement := Some(ApplyExistingVisas(requirement.value, o.code, dest, visas));
        }
        if requirement.None? {
          stats := stats.(visaRequired := stats.visaRequired + 1);
        } else if !requirement.value.visaRequired {
          stats := stats.(visaFree := stats.visaFree + 1);
        } else if requirement.value.visaOnArrival {
          stats := stats.(visaOnArrival := stats.visaOnArrival + 1);
        } else if IsEVisa(requirement.value) {
          stats := stats.(evisa := stats.evisa + 1);
        } else {
          stats := stats.(visaRequired := stats.visaRequired + 1);
        }
      }
    }
    assert countries[..|countries|] == countries;
  }

  // ---------------------------------------------------------------------------
  // Filter (filterCountries)
  // ---------------------------------------------------------------------------

  /** The predicate `filterCountries` applies to each country. */
  predicate KeepCountry(country: Country, origin: Option<Country>, data: VisaData, query: string,
                        regionFilter: RegionFilter, statusFilter: VisaStatusFilter, visas: ExistingVisas)
  {
    && (origin.None? || country.code != origin.value.code)
    && (query == [] || Includes(ToLower(country.name), ToLower(query)) || Includes(ToLower(country.code), ToLower(query)))
    && (regionFilter.AnyRegion? || country.region == Some(regionFilter.region))
    && (statusFilter == All || origin.None? || DestinationStatus(origin.value, country, data, visas) == statusFilter)
  }

  /** `a` is `b` with some elements left out, the rest in their order. */
  predicate IsSubsequence<T(==)>(a: seq<T>, b: seq<T>)
  {
    if a == [] then true
    else if b == [] then false
    else if a[|a| - 1] == b[|b| - 1] then IsSubsequence(a[..|a| - 1], b[..|b| - 1])
    else IsSubsequence(a, b[..|b| - 1])
  }

  /** The countries that pass `KeepCountry`, in input order. */
  function FilterCountries(countries: seq<Country>, origin: Option<Country>, data: VisaData, query: string,
                           regionFilter: RegionFilter, statusFilter: VisaStatusFilter, visas: ExistingVisas): (r: seq<Country>)
    ensures IsSubsequence(r, countries)
    ensures forall c :: c in r <==> c in countries && KeepCountry(c, origin, data, query, regionFilter, statusFilter, visas)
    ensures forall c :: multiset(r)[c] == (if KeepCountry(c, origin, data, query, regionFilter, statusFilter, visas) then multiset(countries)[c] else 0)
  {
    if countries == [] then []
    else
      var last := countries[|countries| - 1];
      var rest := countries[..|countries| - 1];
      assert countries == rest + [last];
      var kept := FilterCountries(rest, origin, data, query, regionFilter, statusFilter, visas);
      if KeepCountry(last, origin, data, query, regionFilter, statusFilter, visas) then kept + [last]
      else
        assert IsSubsequence(kept, countries);
        kept
  }
}
