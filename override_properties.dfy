/** What the existing-visa override promises: it agrees with the ordered rule
    table, keeps the fields it never touches, ignores UAE residency, is the
    identity without a US, UK or Schengen visa, and for origins other than
    Pakistan only waives the visa for a few destinations. */
module OverrideProperties {
  import opened Wrappers
  import opened AsciiText
  import opened VisaTypes
  import opened VisaUtils
  import opened OverrideRules

  /** The rule the table picks, rule by rule. */
  lemma DecidingRuleUnfolds(originCode: string, code: string, visas: ExistingVisas)
    ensures DecidingRule(originCode, code, visas) ==
      if Applies(Rules[0], originCode, code, visas) then Some(0)
      else if Applies(Rules[1], originCode, code, visas) then Some(1)
      else if Applies(Rules[2], originCode, code, visas) then Some(2)
      else if Applies(Rules[3], originCode, code, visas) then Some(3)
      else if Applies(Rules[4], originCode, code, visas) then Some(4)
      else if Applies(Rules[5], originCode, code, visas) then Some(5)
      else if Applies(Rules[6], originCode, code, visas) then Some(6)
      else if Applies(Rules[7], originCode, code, visas) then Some(7)
      else if Applies(Rules[8], originCode, code, visas) then Some(8)
      else if Applies(Rules[9], originCode, code, visas) then Some(9)
      else None
  {
  }

  /** Unfolding helper: each entry of the `Rules` constant, spelt out so that
      the proofs below can use it without evaluating the whole list. */
  lemma RulesAsListed()
    ensures Rules[0] == Rule(true, UsVisa, UsVisaFreeCountries, Waive(Some("30-90 days"), AppendText(UsFreeNote)))
    ensures Rules[1] == Rule(true, UsVisa, UsVisaEVisaCountries, SimplifiedEVisa(AppendText(UsEVisaNote)))
    ensures Rules[2] == Rule(true, UsVisa, ["CA"], Waive(Some("6 months"), ReplaceText(CanadaNote)))
    ensures Rules[3] == Rule(true, UkVisa, UkVisaFreeCountries, Waive(Some("30-90 days"), AppendText(UkFreeNote)))
    ensures Rules[4] == Rule(true, UkVisa, UkVisaEVisaCountries, SimplifiedEVisa(AppendText(UkEVisaNote)))
    ensures Rules[5] == Rule(true, SchengenVisa, SchengenMemberCountries, Waive(Some("90 days within 180 days"), ReplaceText(SchengenMemberNote)))
    ensures Rules[6] == Rule(true, SchengenVisa, SchengenAccessibleCountries, Waive(Some("30-90 days"), AppendText(SchengenAccessibleNote)))
    ensures Rules[7] == Rule(true, SchengenVisa, ["JO"], SimplifiedEVisa(AppendText(JordanNote)))
    ensures Rules[8] == Rule(false, UsVisa, GenericUsCountries, Waive(None, KeepNote))
    ensures Rules[9] == Rule(false, SchengenVisa, GenericSchengenCountries, Waive(None, KeepNote))
  {
  }

  /** The Pakistani blocks agree with the first eight rules. */
  lemma PakistanOverrideFollowsRules(req: VisaRequirement, code: string, visas: ExistingVisas)
    ensures var pk := PakistanOverride(req, code, visas);
      && (pk.Some? <==> exists i :: 0 <= i < 8 && Applies(Rules[i], "PK", code, visas))
      && (pk.Some? ==> pk == Some(OverrideByRules(req, "PK", code, visas)))
  {
    RulesAsListed();
    DecidingRuleUnfolds("PK", code, visas);
    var us := if visas.usVisa then PakistanUsVisa(req, code) else None;
    if us.Some? {
      assert Applies(Rules[0], "PK", code, visas) || Applies(Rules[1], "PK", code, visas) || Applies(Rules[2], "PK", code, visas);
    } else {
      assert !Applies(Rules[0], "PK", code, visas) && !Applies(Rules[1], "PK", code, visas) && !Applies(Rules[2], "PK", code, visas);
      var uk := if visas.ukVisa then PakistanUkVisa(req, code) else None;
      if uk.Some? {
        assert Applies(Rules[3], "PK", code, visas) || Applies(Rules[4], "PK", code, visas);
      } else {
        assert !Applies(Rules[3], "PK", code, visas) && !Applies(Rules[4], "PK", code, visas);
        var sch := if visas.schengenVisa then PakistanSchengenVisa(req, code) else None;
        if sch.Some? {
          assert Applies(Rules[5], "PK", code, visas) || Applies(Rules[6], "PK", code, visas) || Applies(Rules[7], "PK", code, visas);
        } else {
          assert !Applies(Rules[5], "PK", code, visas) && !Applies(Rules[6], "PK", code, visas) && !Applies(Rules[7], "PK", code, visas);
        }
      }
    }
  }

  /** The generic rules agree with the last two rules of the table, once no
      Pakistani rule applies. */
  lemma GenericOverrideFollowsRules(req: VisaRequirement, originCode: string, code: string, visas: ExistingVisas)
    requires forall i :: 0 <= i < 8 ==> !Applies(Rules[i], originCode, code, visas)
    ensures GenericOverride(req, code, visas).GetOr(req) == OverrideByRules(req, originCode, code, visas)
  {
    RulesAsListed();
    DecidingRuleUnfolds(originCode, code, visas);
    assert !Applies(Rules[0], originCode, code, visas) && !Applies(Rules[1], originCode, code, visas);
    assert !Applies(Rules[2], originCode, code, visas) && !Applies(Rules[3], originCode, code, visas);
    assert !Applies(Rules[4], originCode, code, visas) && !Applies(Rules[5], originCode, code, visas);
    assert !Applies(Rules[6], originCode, code, visas) && !Applies(Rules[7], originCode, code, visas);
  }

  /** The nested conditionals of the override and the ordered rule table give
      the same record for every input. */
  lemma ApplyExistingVisasFollowsRules(req: VisaRequirement, originCode: string, dest: Country, visas: ExistingVisas)
    ensures ApplyExistingVisas(req, originCode, dest, visas) == OverrideByRules(req, originCode, dest.code, visas)
  {
    var code := dest.code;
    RulesAsListed();
    if originCode == "PK" {
      PakistanOverrideFollowsRules(req, code, visas);
      if PakistanOverride(req, code, visas).None? {
        GenericOverrideFollowsRules(req, originCode, code, visas);
      }
    } else {
      forall i | 0 <= i < 8 ensures !Applies(Rules[i], originCode, code, visas) {
        assert Rules[i].pakistanOnly;
      }
      GenericOverrideFollowsRules(req, originCode, code, visas);
    }
  }

  // ---------------------------------------------------------------------------
  // Consequences for the override
  // ---------------------------------------------------------------------------

  /** Without a US, UK or Schengen visa the requirement is returned unchanged. */
  lemma NoVisaNoOverride(req: VisaRequirement, originCode: string, dest: Country, visas: ExistingVisas)
    requires !visas.usVisa && !visas.ukVisa && !visas.schengenVisa
    ensures ApplyExistingVisas(req, originCode, dest, visas) == req
  {
  }

  /** UAE residency never changes the result. */
  lemma UaeResidencyIgnored(req: VisaRequirement, originCode: string, dest: Country, visas: ExistingVisas, uae: bool)
    ensures ApplyExistingVisas(req, originCode, dest, visas.(uaeResidency := uae)) == ApplyExistingVisas(req, originCode, dest, visas)
  {
  }

  /** Only the destination's code matters, not its name, flag or region. */
  lemma OverrideDependsOnCodeOnly(req: VisaRequirement, originCode: string, dest: Country, dest': Country, visas: ExistingVisas)
    requires dest.code == dest'.code
    ensures ApplyExistingVisas(req, originCode, dest, visas) == ApplyExistingVisas(req, originCode, dest', visas)
  {
  }

  /** For every origin but Pakistan the override is exactly the two generic
      rules: with a US visa for Mexico or Canada, or with a Schengen visa for
      one of the fifteen listed members, the visa is waived and nothing else
      changes; otherwise the requirement is returned as it is. */
  lemma NonPakistanOverride(req: VisaRequirement, originCode: string, dest: Country, visas: ExistingVisas)
    requires originCode != "PK"
    ensures ApplyExistingVisas(req, originCode, dest, visas) ==
      if (visas.usVisa && dest.code in ["MX", "CA"])
         || (visas.schengenVisa && dest.code in ["FR", "DE", "IT", "ES", "NL", "BE", "AT", "SE", "NO", "DK", "FI", "PL", "GR", "PT", "CH"])
      then req.(visaRequired := false, visaOnArrival := false)
      else req
  {
  }

  /** For every origin but Pakistan a changed result means one of the two
      generic rules fired. */
  lemma NonPakistanChangeNeedsGenericRule(req: VisaRequirement, originCode: string, dest: Country, visas: ExistingVisas)
    requires originCode != "PK"
    requires ApplyExistingVisas(req, originCode, dest, visas) != req
    ensures (visas.usVisa && dest.code in GenericUsCountries) || (visas.schengenVisa && dest.code in GenericSchengenCountries)
  {
  }

  /** Appending a suffix that mentions "e-visa" gives notes that mention it
      once lower-cased, whatever the notes held before, "undefined" included. */
  lemma AppendedNoteMentionsEVisa(notes: Option<string>, suffix: string, at: nat)
    requires at + 6 <= |suffix| && suffix[at..at + 6] == "e-visa"
    ensures Includes(ToLower(AppendNote(notes, suffix)), "e-visa")
  {
    var prefix := notes.GetOr("undefined");
    var whole := prefix + suffix;
    assert AppendNote(notes, suffix) == whole;
    WindowOfConcat(prefix, suffix, at, at + 6);
    LowerEVisa();
    IncludesAfterLowering(whole, "e-visa", |prefix| + at);
  }

  lemma WindowOfConcat(a: string, b: string, i: nat, j: nat)
    requires i <= j <= |b|
    ensures (a + b)[|a| + i..|a| + j] == b[i..j]
  {
  }

  lemma LowerEVisa()
    ensures ToLower("e-visa") == "e-visa"
  {
  }

  /** The notes the three simplified e-visa rules append. */
  lemma EVisaNotesMentionEVisa(notes: Option<string>)
    ensures Includes(ToLower(AppendNote(notes, UsEVisaNote)), "e-visa")
    ensures Includes(ToLower(AppendNote(notes, UkEVisaNote)), "e-visa")
    ensures Includes(ToLower(AppendNote(notes, JordanNote)), "e-visa")
  {
    assert SimplifiedEVisaOpening[12..18] == "e-visa";
    assert UsEVisaNote[12..18] == SimplifiedEVisaOpening[12..18];
    assert UkEVisaNote[12..18] == SimplifiedEVisaOpening[12..18];
    assert JordanNote[12..18] == SimplifiedEVisaOpening[12..18];
    AppendedNoteMentionsEVisa(notes, UsEVisaNote, 12);
    AppendedNoteMentionsEVisa(notes, UkEVisaNote, 12);
    AppendedNoteMentionsEVisa(notes, JordanNote, 12);
  }

  /** The status after an override is decided by the rule that fired: a
      waiving rule gives visa-free, a simplified e-visa rule gives e-visa,
      whatever the base requirement held. */
  lemma OverrideStatusFollowsRule(req: VisaRequirement, originCode: string, dest: Country, visas: ExistingVisas)
    ensures var rule := DecidingRule(originCode, dest.code, visas);
      var status := GetVisaStatus(Some(ApplyExistingVisas(req, originCode, dest, visas)));
      && (rule.None? ==> ApplyExistingVisas(req, originCode, dest, visas) == req)
      && (rule.Some? && Rules[rule.value].effect.Waive? ==> status == VisaFree)
      && (rule.Some? && Rules[rule.value].effect.SimplifiedEVisa? ==> status == EVisa)
  {
    ApplyExistingVisasFollowsRules(req, originCode, dest, visas);
    RulesAsListed();
    EVisaNotesMentionEVisa(req.notes);
    var rule := DecidingRule(originCode, dest.code, visas);
    if rule.Some? && Rules[rule.value].effect.SimplifiedEVisa? {
      var i := rule.value;
      assert i == 1 || i == 4 || i == 7;
      var r := ApplyExistingVisas(req, originCode, dest, visas);
      assert r.visaRequired && !r.visaOnArrival;
      assert IsEVisa(r);
    }
  }

  /** What each kind of rule may change: a Pakistani waiving rule clears
      both booleans and sets a duration; a simplified e-visa rule keeps the
      visa required, clears visa-on-arrival and keeps the duration; a generic
      rule clears both booleans and touches nothing else. */
  lemma OverrideEffectFollowsRule(req: VisaRequirement, originCode: string, dest: Country, visas: ExistingVisas)
    requires DecidingRule(originCode, dest.code, visas).Some?
    ensures var rule := Rules[DecidingRule(originCode, dest.code, visas).value];
      var r := ApplyExistingVisas(req, originCode, dest, visas);
      && (rule.effect.Waive? ==> !r.visaRequired && !r.visaOnArrival)
      && (rule.effect.Waive? && rule.pakistanOnly ==> r.duration.Some? && r.notes.Some?)
      && (rule.effect.SimplifiedEVisa? ==> rule.pakistanOnly && r.visaRequired && !r.visaOnArrival && r.duration == req.duration)
      && (!rule.pakistanOnly ==> r == req.(visaRequired := false, visaOnArrival := false))
  {
    ApplyExistingVisasFollowsRules(req, originCode, dest, visas);
    RulesAsListed();
    var i := DecidingRule(originCode, dest.code, visas).value;
    assert i < 10;
  }

  // ---------------------------------------------------------------------------
  // Precedence among the Pakistani rules
  // ---------------------------------------------------------------------------

  /** Pakistan, US visa, Albania: visa-free for 30-90 days, the US note
      appended to the old notes; absent notes are rendered as "undefined". */
  lemma PakistanUsAlbania(req: VisaRequirement, dest: Country, visas: ExistingVisas)
    requires dest.code == "AL" && visas.usVisa
    ensures var r := ApplyExistingVisas(req, "PK", dest, visas);
      && !r.visaRequired && !r.visaOnArrival && r.duration == Some("30-90 days")
      && (req.notes.Some? ==> r.notes == Some(req.notes.value + UsFreeNote))
      && (req.notes.None? ==> r.notes == Some("undefined" + UsFreeNote))
      && GetVisaStatus(Some(r)) == VisaFree
  {
    assert "AL" in UsVisaFreeCountries;
  }

  /** Pakistan, Schengen visa, France: the member-state rule wins over every
      other block and replaces the notes rather than appending to them. */
  lemma PakistanSchengenFrance(req: VisaRequirement, dest: Country, visas: ExistingVisas)
    requires dest.code == "FR" && visas.schengenVisa
    ensures var r := ApplyExistingVisas(req, "PK", dest, visas);
      && !r.visaRequired && !r.visaOnArrival && r.duration == Some("90 days within 180 days")
      && r.notes == Some(SchengenMemberNote)
      && GetVisaStatus(Some(r)) == VisaFree
  {
    assert "FR" in SchengenMemberCountries;
    assert "FR" !in UsVisaFreeCountries && "FR" !in UsVisaEVisaCountries;
    assert "FR" !in UkVisaFreeCountries && "FR" !in UkVisaEVisaCountries;
  }

  /** Pakistan, US and Schengen visas, Jordan: the US e-visa rule is reached
      first, so its note is the one appended. */
  lemma PakistanUsBeforeSchengenForJordan(req: VisaRequirement, dest: Country, visas: ExistingVisas)
    requires dest.code == "JO" && visas.usVisa && visas.schengenVisa
    ensures var r := ApplyExistingVisas(req, "PK", dest, visas);
      && r.visaRequired && !r.visaOnArrival && r.duration == req.duration
      && r.notes == Some(AppendNote(req.notes, UsEVisaNote))
      && GetVisaStatus(Some(r)) == EVisa
  {
    assert "JO" !in UsVisaFreeCountries && "JO" in UsVisaEVisaCountries;
    OverrideStatusFollowsRule(req, "PK", dest, visas);
    DecidingRuleUnfolds("PK", dest.code, visas);
    RulesAsListed();
  }

  /** Pakistan, US and UK visas, Antigua: no US list holds "AG", so the UK
      e-visa rule decides. */
  lemma PakistanUkEVisaForAntigua(req: VisaRequirement, dest: Country, visas: ExistingVisas)
    requires dest.code == "AG" && visas.usVisa && visas.ukVisa
    ensures var r := ApplyExistingVisas(req, "PK", dest, visas);
      && r.visaRequired && !r.visaOnArrival && r.duration == req.duration
      && r.notes == Some(AppendNote(req.notes, UkEVisaNote))
      && GetVisaStatus(Some(r)) == EVisa
  {
    assert "AG" !in UsVisaFreeCountries && "AG" !in UsVisaEVisaCountries;
    assert "AG" !in UkVisaFreeCountries && "AG" in UkVisaEVisaCountries;
    OverrideStatusFollowsRule(req, "PK", dest, visas);
    DecidingRuleUnfolds("PK", dest.code, visas);
    RulesAsListed();
  }
}
