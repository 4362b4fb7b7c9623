/**
 * The steps after duplicate handling: `_final_cleaning` (default text for missing names,
 * rows with a blank arbitrator removed), `_calculate_prevailed_flags` (masked writes of
 * the two outcome flags) and `_calculate_case_duration` (days between the two dates).
 */
module Enrich {
  import opened Wrappers
  import opened Seqs
  import opened Text
  import opened Records
  import opened Cleaners

  // ---------------------------------------------------------------- final cleaning

  const Unknown: string := "Unknown"

  /** `fillna('Unknown')` on Case_ID, the two names, the two attorneys and the disposition. */
  function FillUnknown(c: Case): Case {
    c.(caseId := Some(c.caseId.GetOr(Unknown)),
       arbitrator := Some(c.arbitrator.GetOr(Unknown)),
       respondent := Some(c.respondent.GetOr(Unknown)),
       consumerAttorney := Some(c.consumerAttorney.GetOr(Unknown)),
       respondentAttorney := Some(c.respondentAttorney.GetOr(Unknown)),
       disposition := Some(c.disposition.GetOr(Unknown)))
  }

  /** The six filled columns are present. */
  predicate Filled(c: Case) {
    c.caseId.Some? && c.arbitrator.Some? && c.respondent.Some?
    && c.consumerAttorney.Some? && c.respondentAttorney.Some? && c.disposition.Some?
  }

  /** `df['Arbitrator_Name'].str.strip() != ''` */
  predicate ArbitratorNotBlank(c: Case) {
    c.arbitrator.Some? && Strip(c.arbitrator.value) != ""
  }

  /**
   * `_final_cleaning`: every surviving row has the six text columns filled and an
   * arbitrator that is not blank; the rows keep their order.
   */
  function FinalCleaning(rows: seq<Case>): (r: seq<Case>)
    ensures |r| <= |rows|
    ensures forall c :: c in r ==> Filled(c) && ArbitratorNotBlank(c)
    ensures forall c :: c in r ==> exists i :: 0 <= i < |rows| && c == FillUnknown(rows[i])
  {
    var filled := Map(FillUnknown, rows);
    var r := Filter(ArbitratorNotBlank, filled);
    forall c | c in r
      ensures Filled(c) && exists i :: 0 <= i < |rows| && c == FillUnknown(rows[i])
    {
      assert c in filled;
      var i :| 0 <= i < |filled| && filled[i] == c;
      assert c == FillUnknown(rows[i]);
    }
    r
  }

  /** A row whose (filled) arbitrator is not blank is kept. */
  lemma FinalCleaningKeeps(rows: seq<Case>, i: nat)
    requires i < |rows| && ArbitratorNotBlank(FillUnknown(rows[i]))
    ensures FillUnknown(rows[i]) in FinalCleaning(rows)
  {
    assert Map(FillUnknown, rows)[i] == FillUnknown(rows[i]);
  }

  /** A missing arbitrator becomes "Unknown", which is not blank, so such a row is kept. */
  lemma MissingArbitratorKept(rows: seq<Case>, i: nat)
    requires i < |rows| && rows[i].arbitrator.None?
    ensures FillUnknown(rows[i]) in FinalCleaning(rows)
    ensures FillUnknown(rows[i]).arbitrator == Some("Unknown")
  {
    assert Strip(Unknown) == Unknown by {
      assert Stripped(Unknown);
      StripStripped(Unknown);
    }
    FinalCleaningKeeps(rows, i);
  }

  /** Cleaning a cleaned frame changes nothing. */
  lemma FinalCleaningIdempotent(rows: seq<Case>)
    ensures FinalCleaning(FinalCleaning(rows)) == FinalCleaning(rows)
  {
    var r := FinalCleaning(rows);
    forall i | 0 <= i < |r|
      ensures Map(FillUnknown, r)[i] == r[i]
    {
      assert r[i] in r;
    }
    assert Map(FillUnknown, r) == r;
    FilterAll(ArbitratorNotBlank, r);
  }

  // ---------------------------------------------------------------- outcome flags

  /** `str.contains(word, case=False, na=False)` on the disposition. */
  predicate Mentions(c: Case, word: string) {
    c.disposition.Some? && Contains(Lower(c.disposition.value), word)
  }

  /** The consumer mask: an award of a positive amount. */
  predicate ConsumerMask(c: Case) {
    Mentions(c, "award") && c.award.Some? && c.award.value > 0.0
  }

  /** The business mask: a dismissal, a withdrawal, or an award of nothing. */
  predicate BusinessMask(c: Case) {
    Mentions(c, "dismiss") || Mentions(c, "withdrawn")
    || (Mentions(c, "award") && c.award == Some(0.0))
  }

  predicate SettleMask(c: Case) {
    Mentions(c, "settle")
  }

  /** The flags after the three masked writes, in source order. */
  function Prevailed(c: Case): (r: Case)
    ensures r.consumerPrevailed <==> !SettleMask(c) && (c.consumerPrevailed || ConsumerMask(c))
    ensures r.businessPrevailed <==> !SettleMask(c) && (c.businessPrevailed || BusinessMask(c))
    ensures r.(consumerPrevailed := c.consumerPrevailed, businessPrevailed := c.businessPrevailed) == c
  {
    var c1 := if ConsumerMask(c) then c.(consumerPrevailed := true) else c;
    var c2 := if BusinessMask(c1) then c1.(businessPrevailed := true) else c1;
    if SettleMask(c2) then c2.(consumerPrevailed := false, businessPrevailed := false) else c2
  }

  /** `_calculate_prevailed_flags` on a frame whose rows live in `a`. */
  method CalculatePrevailedFlags(a: array<Case>)
    modifies a
    ensures forall i :: 0 <= i < a.Length ==> a[i] == Prevailed(old(a[i]))
  {
    SetConsumer(a);
    SetBusiness(a);
    ClearSettled(a);
  }

  /** `df.loc[consumer_prevailed_mask, 'Consumer_Prevailed'] = True` */
  method SetConsumer(a: array<Case>)
    modifies a
    ensures forall i :: 0 <= i < a.Length ==>
      a[i] == if ConsumerMask(old(a[i])) then old(a[i]).(consumerPrevailed := true) else old(a[i])
  {
    var i := 0;
    while i < a.Length
      invariant i <= a.Length
      invariant forall j :: 0 <= j < i ==>
        a[j] == if ConsumerMask(old(a[j])) then old(a[j]).(consumerPrevailed := true) else old(a[j])
      invariant forall j :: i <= j < a.Length ==> a[j] == old(a[j])
    {
      if ConsumerMask(a[i]) {
        a[i] := a[i].(consumerPrevailed := true);
      }
      i := i + 1;
    }
  }

  /** `df.loc[business_prevailed_mask, 'Business_Prevailed'] = True` */
  method SetBusiness(a: array<Case>)
    modifies a
    ensures forall i :: 0 <= i < a.Length ==>
      a[i] == if BusinessMask(old(a[i])) then old(a[i]).(businessPrevailed := true) else old(a[i])
  {
    var i := 0;
    while i < a.Length
      invariant i <= a.Length
      invariant forall j :: 0 <= j < i ==>
        a[j] == if BusinessMask(old(a[j])) then old(a[j]).(businessPrevailed := true) else old(a[j])
      invariant forall j :: i <= j < a.Length ==> a[j] == old(a[j])
    {
      if BusinessMask(a[i]) {
        a[i] := a[i].(businessPrevailed := true);
      }
      i := i + 1;
    }
  }

  /** `df.loc[settlement_mask, ['Consumer_Prevailed', 'Business_Prevailed']] = False` */
  method ClearSettled(a: array<Case>)
    modifies a
    ensures forall i :: 0 <= i < a.Length ==>
      a[i] == if SettleMask(old(a[i])) then old(a[i]).(consumerPrevailed := false, businessPrevailed := false) else old(a[i])
  {
    var i := 0;
    while i < a.Length
      invariant i <= a.Length
      invariant forall j :: 0 <= j < i ==>
        a[j] == if SettleMask(old(a[j])) then old(a[j]).(consumerPrevailed := false, businessPrevailed := false) else old(a[j])
      invariant forall j :: i <= j < a.Length ==> a[j] == old(a[j])
    {
      if SettleMask(a[i]) {
        a[i] := a[i].(consumerPrevailed := false, businessPrevailed := false);
      }
      i := i + 1;
    }
  }

  /** Without the word "award", or with it but without a dismissal or withdrawal, at most one flag is set. */
  lemma ExclusiveWhen(c: Case)
    requires !c.consumerPrevailed && !c.businessPrevailed
    requires !Mentions(c, "award") || (!Mentions(c, "dismiss") && !Mentions(c, "withdrawn"))
    ensures !(Prevailed(c).consumerPrevailed && Prevailed(c).businessPrevailed)
  {
  }

  lemma WithdrawnNoAward()
    ensures !Contains("withdrawn", "award")
  {
    SearchDecides("withdrawn", "award");
  }

  /** The lower-case form of each standard label and whether it mentions an award. */
  lemma LabelAwardWords(d: string)
    requires IsStandardLabel(d)
    ensures d != "Awarded" ==> !Contains(Lower(d), "award")
    ensures d == "Awarded" ==> !Contains(Lower(d), "dismiss") && !Contains(Lower(d), "withdrawn")
  {
    LowerLabels();
    LowerMerits();
    LowerAdministrative();
    WithdrawnNoAward();
    NotContainsChar("settled", "award", 'w');
    NotContainsChar("dismissed on the merits", "award", 'w');
    NotContainsChar("dismissed", "award", 'w');
    NotContainsChar("administrative", "award", 'w');
    NotContainsChar("awarded", "dismiss", 'i');
    NotContainsChar("awarded", "withdrawn", 'i');
  }

  /**
   * For every disposition `_standardize_disposition` can produce, and for the "Unknown"
   * default of the final cleaning, the two outcome flags are never both set.
   */
  lemma FlagsExclusive(c: Case, v: Option<string>)
    requires !c.consumerPrevailed && !c.businessPrevailed
    requires c.disposition == Some(StandardizeDisposition(v).GetOr(Unknown))
    ensures !(Prevailed(c).consumerPrevailed && Prevailed(c).businessPrevailed)
  {
    var d := c.disposition.value;
    if v.None? {
      assert Lower(Unknown) == "unknown";
      NotContainsChar("unknown", "award", 'a');
    } else if IsStandardLabel(d) {
      LabelAwardWords(d);
    } else {
      var t := Lower(v.value);
      assert Unclassified(t) && d == Capitalize(t);
      LowerCapitalize(t);
      LowerIdempotent(v.value);
      assert Lower(d) == t;
    }
    ExclusiveWhen(c);
  }

  // ---------------------------------------------------------------- case duration

  /** Closed minus filed, in days, when both dates are present; otherwise the old value. */
  function WithDuration(c: Case): (r: Case)
    ensures c.dateFiled.Some? && c.dateClosed.Some? ==> r.duration == Some(c.dateClosed.value - c.dateFiled.value)
    ensures !(c.dateFiled.Some? && c.dateClosed.Some?) ==> r.duration == c.duration
    ensures r.(duration := c.duration) == c
  {
    if c.dateFiled.Some? && c.dateClosed.Some? then
      c.(duration := Some(c.dateClosed.value - c.dateFiled.value))
    else c
  }

  /** `_calculate_case_duration` on a frame whose rows live in `a`. */
  method CalculateCaseDuration(a: array<Case>)
    modifies a
    ensures forall i :: 0 <= i < a.Length ==> a[i] == WithDuration(old(a[i]))
  {
    var i := 0;
    while i < a.Length
      invariant i <= a.Length
      invariant forall j :: 0 <= j < i ==> a[j] == WithDuration(old(a[j]))
      invariant forall j :: i <= j < a.Length ==> a[j] == old(a[j])
    {
      var c := a[i];
      if c.dateFiled.Some? && c.dateClosed.Some? {
        a[i] := c.(duration := Some(c.dateClosed.value - c.dateFiled.value));
      }
      i := i + 1;
    }
  }

  /** The duration is not clamped: a case closed before it was filed gets a negative count. */
  lemma DurationMayBeNegative(c: Case)
    requires c.dateFiled == Some(10) && c.dateClosed == Some(3)
    ensures WithDuration(c).duration == Some(-7)
  {
  }
}
