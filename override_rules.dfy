/** The existing-visa override restated as an ordered decision table: a list
    of rules, each a guard (origin, held visa, destination codes) and an
    effect, where the first rule whose guard holds decides the result. It is
    an independent reference for `VisaUtils.ApplyExistingVisas`. */
module OverrideRules {
  import opened Wrappers
  import opened VisaTypes
  import opened VisaUtils

  /** The existing visa a rule is triggered by (residency in the UAE triggers none). */
  datatype Flag = UsVisa | UkVisa | SchengenVisa

  datatype NoteEdit = KeepNote | AppendText(suffix: string) | ReplaceText(text: string)

  /** `Waive` drops the visa requirement (and sets a duration when given);
      `SimplifiedEVisa` keeps it, marked as an e-visa. */
  datatype Effect =
    | Waive(duration: Option<string>, note: NoteEdit)
    | SimplifiedEVisa(note: NoteEdit)

  datatype Rule = Rule(pakistanOnly: bool, flag: Flag, dests: seq<string>, effect: Effect)

  function Holds(flag: Flag, visas: ExistingVisas): bool
  {
    match flag
    case UsVisa => visas.usVisa
    case UkVisa => visas.ukVisa
    case SchengenVisa => visas.schengenVisa
  }

  predicate Applies(rule: Rule, originCode: string, code: string, visas: ExistingVisas)
  {
    (!rule.pakistanOnly || originCode == "PK") && Holds(rule.flag, visas) && code in rule.dests
  }

  function EditNotes(edit: NoteEdit, notes: Option<string>): Option<string>
  {
    match edit
    case KeepNote => notes
    case AppendText(suffix) => Some(AppendNote(notes, suffix))
    case ReplaceText(text) => Some(text)
  }

  function ApplyEffect(effect: Effect, req: VisaRequirement): VisaRequirement
  {
    match effect
    case Waive(d, n) =>
      req.(visaRequired := false, visaOnArrival := false, duration := if d.Some? then d else req.duration,
           notes := EditNotes(n, req.notes))
    case SimplifiedEVisa(n) =>
      req.(visaRequired := true, visaOnArrival := false, notes := EditNotes(n, req.notes))
  }

  /** The table, highest priority first. */
  const Rules: seq<Rule> := [
    Rule(true, UsVisa, UsVisaFreeCountries, Waive(Some("30-90 days"), AppendText(UsFreeNote))),
    Rule(true, UsVisa, UsVisaEVisaCountries, SimplifiedEVisa(AppendText(UsEVisaNote))),
    Rule(true, UsVisa, ["CA"], Waive(Some("6 months"), ReplaceText(CanadaNote))),
    Rule(true, UkVisa, UkVisaFreeCountries, Waive(Some("30-90 days"), AppendText(UkFreeNote))),
    Rule(true, UkVisa, UkVisaEVisaCountries, SimplifiedEVisa(AppendText(UkEVisaNote))),
    Rule(true, SchengenVisa, SchengenMemberCountries, Waive(Some("90 days within 180 days"), ReplaceText(SchengenMemberNote))),
    Rule(true, SchengenVisa, SchengenAccessibleCountries, Waive(Some("30-90 days"), AppendText(SchengenAccessibleNote))),
    Rule(true, SchengenVisa, ["JO"], SimplifiedEVisa(AppendText(JordanNote))),
    Rule(false, UsVisa, GenericUsCountries, Waive(None, KeepNote)),
    Rule(false, SchengenVisa, GenericSchengenCountries, Waive(None, KeepNote))
  ]

  /** Index of the first rule at or after `from` whose guard holds. */
  function FirstApplicable(rules: seq<Rule>, from: nat, originCode: string, code: string, visas: ExistingVisas): (r: Option<nat>)
    requires from <= |rules|
    ensures r.Some? ==> from <= r.value < |rules| && Applies(rules[r.value], originCode, code, visas)
    ensures r.Some? ==> forall j :: from <= j < r.value ==> !Applies(rules[j], originCode, code, visas)
    ensures r.None? ==> forall j :: from <= j < |rules| ==> !Applies(rules[j], originCode, code, visas)
    decreases |rules| - from
  {
    if from == |rules| then None
    else if Applies(rules[from], originCode, code, visas) then Some(from)
    else FirstApplicable(rules, from + 1, originCode, code, visas)
  }

  /** Index of the rule that decides the override, if any. */
  function DecidingRule(originCode: string, code: string, visas: ExistingVisas): Option<nat>
  {
    FirstApplicable(Rules, 0, originCode, code, visas)
  }

  /** The override as the table defines it: the deciding rule's effect, or
      no change when no rule applies. */
  function OverrideByRules(req: VisaRequirement, originCode: string, code: string, visas: ExistingVisas): VisaRequirement
  {
    match DecidingRule(originCode, code, visas)
    case None => req
    case Some(i) => ApplyEffect(Rules[i].effect, req)
  }
}
