/** Cases of the classifier that pin down which text field counts for
    which word, and how absent fields read. */
module StatusProperties {
  import opened Wrappers
  import opened AsciiText
  import opened VisaTypes
  import opened VisaUtils

  /** A requirement that needs no visa is never an e-visa. */
  lemma NotRequiredIsNotEVisa(req: VisaRequirement)
    requires !req.visaRequired
    ensures !IsEVisa(req)
  {
  }

  /** An absent text field reads as the empty text. */
  lemma AbsentTextReadsAsEmpty(req: VisaRequirement)
    ensures IsEVisa(req.(cost := None)) == IsEVisa(req.(cost := Some("")))
    ensures IsEVisa(req.(notes := None)) == IsEVisa(req.(notes := Some("")))
  {
  }

  /** "online" counts only in the notes: as the whole cost text it leaves a
      required visa classified as required. */
  lemma OnlineInCostIsNotEVisa(req: VisaRequirement)
    requires req.visaRequired && !req.visaOnArrival
    requires req.cost == Some("Online") && req.notes.None?
    ensures !IsEVisa(req)
    ensures GetVisaStatus(Some(req)) == VisaRequired
  {
    var cost := ToLower("Online");
    assert cost == "online";
    NotIncludedWithoutFirstChar(cost, "e-visa");
    NotIncludedWithoutFirstChar(cost, "evisa");
    assert ToLower("") == "";
  }

  /** Upper-case letters do not hide the words: notes "Apply Online" mark an
      e-visa. */
  lemma OnlineInNotesIsEVisa(req: VisaRequirement)
    requires req.visaRequired && !req.visaOnArrival
    requires req.notes == Some("Apply Online")
    ensures IsEVisa(req)
    ensures GetVisaStatus(Some(req)) == EVisa
  {
    var text := "Apply Online";
    assert text[6..12] == "Online";
    assert ToLower("Online") == "online";
    IncludesAfterLowering(text, "online", 6);
  }
}
