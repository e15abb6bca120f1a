# Visa status engine

A Dafny model of the decision logic of a visa checker: given a traveller's
origin country, a destination and the visas the traveller already holds, it
decides whether a visa is needed. The logic lives in one TypeScript file,
`src/utils/visaUtils.ts`, over the data types of `src/types/index.ts`. It has
four parts:

- **the existing-visa override** (`applyExistingVisas`): a prioritised decision
  table over fixed country-code lists. It has three blocks for Pakistani
  passports (US visa, UK visa, Schengen visa), then two rules for every origin,
  then the identity;
- **the classifier** (`getVisaStatus`, with the text heuristic `isEVisa`): it maps
  a requirement, or its absence, to visa-free, visa on arrival, e-visa or
  visa required;
- **the statistics** (`calculateVisaStatistics`): a loop that tallies the four
  statuses over every destination except the origin;
- **the filter** (`filterCountries`): an order-preserving filter by origin, search
  text, region and status.

Files and modules:

- `wrappers.dfy` (`Wrappers`): the `Option` type, used for optional fields and
  nullable arguments.
- `text.dfy` (`AsciiText`): ASCII `toLowerCase` and the substring search
  `includes`. The search is proved to agree with the mathematical "occurs at
  some index".
- `types.dfy` (`VisaTypes`): `Country`, `VisaRequirement`, `VisaData`,
  `ExistingVisas`, the status and region filters, and `VisaStatistics`.
- `visa_utils.dfy` (`VisaUtils`): the five operations, in the source's form.
  - The override, the classifier and the filter are functions.
  - The statistics are a method with a loop. It is proved against a counting
    function, `CountStatus`.
- `override_rules.dfy` (`OverrideRules`): the same override written as an
  ordered list of (guard, effect) rules, where the first rule whose guard
  holds decides. This is an independent reference definition.
- `override_properties.dfy` (`OverrideProperties`): the override agrees with
  the rule table. It also holds the frame, identity and precedence facts.
- `status_properties.dfy` (`StatusProperties`): cases of the classifier that
  show which text field counts for which word.
- `counting_properties.dfy` (`CountingProperties`): the statistics add up, and
  filtering by one status keeps exactly as many countries as its counter.

Modelling choices:

- The requirements table is a finite map from (origin code, destination code)
  pairs. The source's key `origin + "->" + dest` is read as a pair, so the
  model assumes that key format is injective.
- Optional fields are `Option` values.
- `requirement.notes + '...'` is reproduced as JavaScript evaluates it: when
  `notes` is absent, the new note starts with the text `undefined`
  (`VisaUtils.AppendNote`; stated in `PakistanUsAlbania`).
- `toLowerCase` lower-cases ASCII letters only.
- The guard `existingVisas &&` is always true, because the argument is a
  record and never null. The model drops it.
- When the filter has no origin, `country.code === originCountry?.code`
  compares against `undefined`, which never matches. So no country is
  excluded and the status predicate is skipped.
- The three note constants that mention "e-visa" are written as the shared
  opening `" Simplified e-visa"` followed by the rest of the text. Their
  values are the source's.
- The three Pakistani blocks are independent `if`s: a traveller with a US
  visa whose destination is on no US list still reaches the UK block
  (`PakistanUkEVisaForAntigua`).
- `Country.region` is optional in the types, and a country without a region
  fails every region filter.

## Model

| member | source | states |
|---|---|---|
| `VisaUtils.ApplyExistingVisas` | src/utils/visaUtils.ts:57-182 | the override never changes `cost`, `processingTime` or `requirements` |
| `VisaUtils.IsEVisa` | src/utils/visaUtils.ts:50-55 | true exactly when a visa is required and the lower-cased cost contains "e-visa" or "evisa", or the lower-cased notes contain "e-visa", "evisa" or "online"; "online" in the cost does not count; an absent field reads as empty |
| `VisaUtils.GetVisaStatus` | src/utils/visaUtils.ts:184-196 | never returns `all`; visa-free exactly when a record exists with `visaRequired` false, whatever `visaOnArrival`, cost and notes hold; on arrival exactly when required and on arrival; e-visa exactly when required, not on arrival and the heuristic holds; otherwise, absence included, visa required |
| `VisaUtils.ResolveRequirement` | src/utils/visaUtils.ts:23-29 | the looked-up requirement is absent exactly when the table has no entry for the pair; the override is applied only to entries that exist |
| `VisaUtils.DestinationStatus` | src/utils/visaUtils.ts:31-34 | a destination with no table entry has status visa required, and no destination has status `all` |
| `VisaUtils.CalculateVisaStatistics` | src/utils/visaUtils.ts:3-48 | all zeros without an origin; otherwise each counter equals the number of countries, other than the origin, with that status after the override |
| `VisaUtils.FilterCountries` | src/utils/visaUtils.ts:198-239 | the result is an order-preserving subsequence of the input; a country is in it exactly when it is in the input and passes all four predicates of the filter callback; every occurrence of a passing country is kept, and none of a failing one |
| `AsciiText.ToLower` | src/utils/visaUtils.ts:52-53 | same length as the input, each character lower-cased (ASCII), no upper-case ASCII letter left |
| `AsciiText.IncludesIsSubstring` | src/utils/visaUtils.ts:54 | the substring search succeeds exactly when the text occurs at some index |
| `AsciiText.IncludesAfterLowering` | src/utils/visaUtils.ts:53-54 | a window of the text that lower-cases to the query makes the lower-cased text contain it |
| `AsciiText.NotIncludedWithoutFirstChar` | src/utils/visaUtils.ts:54 | the search fails when no window starts with the query's first character |
| `OverrideRules.FirstApplicable` | src/utils/visaUtils.ts:64-181 | the rule chosen applies and no earlier rule applies; none is chosen only when no rule applies |
| `OverrideProperties.ApplyExistingVisasFollowsRules` | src/utils/visaUtils.ts:57-182 | for every input, the nested conditionals and the ordered ten-rule table give the same record |
| `OverrideProperties.NoVisaNoOverride` | src/utils/visaUtils.ts:64-181 | without a US, UK or Schengen visa the requirement is returned unchanged |
| `OverrideProperties.UaeResidencyIgnored` | src/utils/visaUtils.ts:57-182 | the UAE-residency flag never changes the result |
| `OverrideProperties.OverrideDependsOnCodeOnly` | src/utils/visaUtils.ts:69-176 | only the destination's code matters, not its name, flag or region |
| `OverrideProperties.NonPakistanOverride` | src/utils/visaUtils.ts:166-181 | for an origin other than PK, the result is the input with both booleans cleared when a US visa is held for MX or CA, or a Schengen visa for one of the fifteen listed members; otherwise it is the input itself |
| `OverrideProperties.NonPakistanChangeNeedsGenericRule` | src/utils/visaUtils.ts:167-179 | for an origin other than PK, a changed result implies one of the two generic rules fired |
| `OverrideProperties.AppendedNoteMentionsEVisa` | src/utils/visaUtils.ts:86 | appending a suffix that says "e-visa" yields notes that say it after lower-casing, whatever the old notes were, absent included |
| `OverrideProperties.EVisaNotesMentionEVisa` | src/utils/visaUtils.ts:80-88 | the notes appended by the US, UK and Jordan simplified e-visa rules contain "e-visa" once lower-cased |
| `OverrideProperties.OverrideStatusFollowsRule` | src/utils/visaUtils.ts:64-181 | when no rule applies the input is returned; a waiving rule yields a record classified visa-free; a simplified e-visa rule yields one classified e-visa |
| `OverrideProperties.OverrideEffectFollowsRule` | src/utils/visaUtils.ts:70-178 | Pakistani waiving rules clear both booleans and set a duration and notes; e-visa rules are Pakistani only, keep the visa required, clear visa-on-arrival and leave the duration alone; generic rules clear both booleans and change nothing else |
| `OverrideProperties.PakistanUsAlbania` | src/utils/visaUtils.ts:68-76 | PK with a US visa to AL: visa-free, not on arrival, duration "30-90 days", the US note appended to the old notes, or to the text "undefined" when notes are absent; status visa-free |
| `OverrideProperties.PakistanSchengenFrance` | src/utils/visaUtils.ts:131-140 | PK with a Schengen visa to FR, whatever other visas are held: visa-free, duration "90 days within 180 days", notes replaced by the Schengen note |
| `OverrideProperties.PakistanUsBeforeSchengenForJordan` | src/utils/visaUtils.ts:80-88 | PK with US and Schengen visas to JO: the US e-visa rule decides (US note appended, duration kept), status e-visa |
| `OverrideProperties.PakistanUkEVisaForAntigua` | src/utils/visaUtils.ts:117-125 | PK with US and UK visas to AG: no US list matches, so the UK e-visa rule decides, status e-visa |
| `StatusProperties.NotRequiredIsNotEVisa` | src/utils/visaUtils.ts:51 | a requirement with `visaRequired` false is never an e-visa |
| `StatusProperties.AbsentTextReadsAsEmpty` | src/utils/visaUtils.ts:52-53 | an absent cost or notes field classifies as the empty text |
| `StatusProperties.OnlineInCostIsNotEVisa` | src/utils/visaUtils.ts:52-54 | "Online" as the cost, with no notes, is not an e-visa: the status stays visa required |
| `StatusProperties.OnlineInNotesIsEVisa` | src/utils/visaUtils.ts:53-54 | notes "Apply Online" make a required, not-on-arrival visa an e-visa, ignoring case |
| `CountingProperties.StatisticsConservation` | src/utils/visaUtils.ts:20-45 | the four counts sum to the number of countries whose code differs from the origin's |
| `CountingProperties.StatisticsAddUp` | src/utils/visaUtils.ts:13-47 | counters equal to the four counts sum to the number of destinations |
| `CountingProperties.FilterCountMatchesStatistics` | src/utils/visaUtils.ts:222-235 | with an empty query, every region and an origin set, filtering by one status keeps exactly as many countries as that status's count |
| `CountingProperties.NeutralFilterKeepsDestinations` | src/utils/visaUtils.ts:207-238 | with every filter neutral, the result is every country except the origin, in input order |
| `CountingProperties.NoOriginIgnoresStatus` | src/utils/visaUtils.ts:223 | without an origin, the status filter has no effect |
| `CountingProperties.NoOriginNeutralFilterKeepsAll` | src/utils/visaUtils.ts:209-223 | without an origin, with an empty query and every region, nothing is removed |
| `CountingProperties.KeptCountryFacts` | src/utils/visaUtils.ts:207-237 | a kept country is from the input and is not the origin; it matches a non-empty query in name or code, ignoring case; it is in the chosen region, so a country with no region fails any region filter; with an origin set, its status after the override is the chosen one |

## Left out

- The React components, the static application guide and the footer's
  current year. They are presentation, fixed content or a clock read, with
  no decision logic.
- The concrete dataset `src/data/visaData.json`. The table is a parameter of
  every operation, so each property holds for every table.
- Unicode case mapping: `toLowerCase` is modelled on ASCII letters only.
- The textual key `origin + "->" + dest`: the model keys the table by the
  pair directly, which assumes the key format never lets two pairs collide.
- JavaScript prototype lookups on the requirements object, such as a key
  named `__proto__`. The table is a plain finite map.
- Number width: the statistics counters are unbounded naturals. The
  source's JavaScript numbers are exact for any realistic country count.
