/**
 * Column resolution of data_processor.py: the per-forum alias tables and the three-tier
 * search of `_map_column` (exact alias, case-insensitive alias, partial containment),
 * followed by the direct-name fallback of `_process_dataframe`.
 */
module ColumnMapping {
  import opened Wrappers
  import opened Seqs
  import opened Text
  import opened Records

  /** The logical fields a spreadsheet column can supply. */
  datatype Field =
    | CaseIdField | CaseNameField | ArbitratorField | RespondentField
    | ConsumerAttorneyField | RespondentAttorneyField | DispositionField
    | DateFiledField | DateClosedField | AwardField | ClaimField

  /** The header spellings each forum is known to use for a field, in priority order. */
  function Aliases(source: Source, field: Field): seq<string> {
    match (source, field)
    case (AAA, CaseIdField) => ["Case ID", "Case Number", "Case No.", "Case_ID", "CASE_ID"]
    case (JAMS, CaseIdField) => ["Case ID", "Case #", "Case Number", "Reference Number", "Case_ID", "CASE_ID"]
    case (AAA, CaseNameField) => ["Case Name", "Case_Name"]
    case (JAMS, CaseNameField) => ["Case Name", "Case Title", "Case_Name"]
    case (AAA, ArbitratorField) => ["Arbitrator Name", "Arbitrator", "Arbitrator_Name", "ARBITRATOR_NAME"]
    case (JAMS, ArbitratorField) => ["Arbitrator Name", "Arbitrator", "Neutral", "Arbitrator_Name", "ARBITRATOR_NAME"]
    case (_, RespondentField) =>
      ["Respondent Name", "Respondent", "Company", "Business", "Respondent_Name", "NONCONSUMER"]
    case (_, ConsumerAttorneyField) =>
      ["Consumer Attorney", "Claimant Attorney", "Consumer_Attorney", "Consumer Attorney Name", "NAME_CONSUMER_ATTORNEY"]
    case (_, RespondentAttorneyField) => ["Respondent Attorney", "Company Attorney", "Respondent_Attorney"]
    case (AAA, DispositionField) =>
      ["Type of Disposition", "Disposition", "Case Outcome", "Disposition_Type", "TYPE_OF_DISPOSITION"]
    case (JAMS, DispositionField) =>
      ["Type of Disposition", "Disposition", "Case Outcome", "Result", "Disposition_Type", "TYPE_OF_DISPOSITION"]
    case (AAA, DateFiledField) => ["Date Filed", "Filing Date", "Date_Filed", "FILING_DATE"]
    case (JAMS, DateFiledField) => ["Date Filed", "Filing Date", "Date_Filed", "Date of Filing", "FILING_DATE"]
    case (AAA, DateClosedField) => ["Date Closed", "Closing Date", "Date_Closed", "CLOSEDATE"]
    case (JAMS, DateClosedField) => ["Date Closed", "Closing Date", "Date_Closed", "Date of Resolution", "CLOSEDATE"]
    case (_, AwardField) => ["Award Amount", "Award", "Award_Amount", "AWARD_AMT_CONSUMER"]
    case (_, ClaimField) => ["Claim Amount", "Demand Amount", "Claim_Amount", "CLAIM_AMT_CONSUMER"]
  }

  /** Every alias is at least four characters long, so the partial tier's length guard never rejects an alias. */
  lemma AliasesLong(source: Source, field: Field)
    ensures forall i :: 0 <= i < |Aliases(source, field)| ==> |Aliases(source, field)[i]| >= 4
  {
  }

  /** Tier 1: the first alias that is literally a column name. */
  function ExactTier(names: seq<string>, cols: seq<string>): (r: Option<string>)
    ensures r.None? <==> forall i :: 0 <= i < |names| ==> names[i] !in cols
    ensures r.Some? ==> r.value in cols
    ensures r.Some? ==> exists i :: 0 <= i < |names| && names[i] == r.value
                                    && forall j :: 0 <= j < i ==> names[j] !in cols
  {
    match FirstIndex((n: string) => n in cols, names)
    case None => None
    case Some(i) => Some(names[i])
  }

  /** Header names compared after lower-casing. */
  predicate SameLower(a: string, b: string) {
    Lower(a) == Lower(b)
  }

  /** Some column equals `name` case-insensitively. */
  predicate HasLowerMatch(name: string, cols: seq<string>) {
    exists k :: 0 <= k < |cols| && SameLower(cols[k], name)
  }

  /**
   * Tier 2: for the first alias that equals some column case-insensitively, the first such
   * column, in its own spelling.
   */
  function CaseInsensitiveTier(names: seq<string>, cols: seq<string>): (r: Option<string>)
    ensures r.None? <==> forall i :: 0 <= i < |names| ==> !HasLowerMatch(names[i], cols)
    ensures r.Some? ==> exists i, k :: (0 <= i < |names| && 0 <= k < |cols| && cols[k] == r.value
      && SameLower(cols[k], names[i])
      && (forall j :: 0 <= j < i ==> !HasLowerMatch(names[j], cols))
      && (forall m :: 0 <= m < k ==> !SameLower(cols[m], names[i])))
  {
    match FirstIndex((n: string) => HasLowerMatch(n, cols), names)
    case None => None
    case Some(i) =>
      match FirstIndex((c: string) => SameLower(c, names[i]), cols)
      case None => None
      case Some(k) => Some(cols[k])
  }

  /** The partial-match test: one contains the other, ignoring case, and one of the two is at least four long. */
  predicate PartialMatch(name: string, col: string) {
    (Contains(Lower(col), Lower(name)) || Contains(Lower(name), Lower(col)))
    && (|name| >= 4 || |col| >= 4)
  }

  predicate HasPartialMatch(name: string, cols: seq<string>) {
    exists k :: 0 <= k < |cols| && PartialMatch(name, cols[k])
  }

  /** Tier 3: the first (alias, column) pair, alias-major, that partially matches; the column is returned. */
  function PartialTier(names: seq<string>, cols: seq<string>): (r: Option<string>)
    ensures r.None? <==> forall i :: 0 <= i < |names| ==> !HasPartialMatch(names[i], cols)
    ensures r.Some? ==> exists i, k :: (0 <= i < |names| && 0 <= k < |cols| && cols[k] == r.value
      && PartialMatch(names[i], cols[k])
      && (forall j :: 0 <= j < i ==> !HasPartialMatch(names[j], cols))
      && (forall m :: 0 <= m < k ==> !PartialMatch(names[i], cols[m])))
  {
    match FirstIndex((n: string) => HasPartialMatch(n, cols), names)
    case None => None
    case Some(i) =>
      match FirstIndex((c: string) => PartialMatch(names[i], c), cols)
      case None => None
      case Some(k) => Some(cols[k])
  }

  /** The three tiers in order over a list of header spellings; None when all three fail. */
  function MapNames(names: seq<string>, cols: seq<string>): (r: Option<string>)
    ensures r.Some? ==> r.value in cols
  {
    ExactTier(names, cols).OrElse(CaseInsensitiveTier(names, cols)).OrElse(PartialTier(names, cols))
  }

  /** `_map_column`: the tiers over the forum's aliases for the field. */
  function MapColumn(source: Source, field: Field, cols: seq<string>): (r: Option<string>)
    ensures r.Some? ==> r.value in cols
  {
    MapNames(Aliases(source, field), cols)
  }

  /** An exact alias wins over everything else, the earliest alias first. */
  lemma ExactFirst(source: Source, field: Field, cols: seq<string>, i: nat)
    requires i < |Aliases(source, field)| && Aliases(source, field)[i] in cols
    requires forall j :: 0 <= j < i ==> Aliases(source, field)[j] !in cols
    ensures MapColumn(source, field, cols) == Some(Aliases(source, field)[i])
  {
    var names := Aliases(source, field);
    var r := ExactTier(names, cols);
    assert r.Some?;
    var i' :| 0 <= i' < |names| && names[i'] == r.value && forall j :: 0 <= j < i' ==> names[j] !in cols;
    if i' < i {
    } else if i < i' {
    }
  }

  /** Without an exact alias, a case-insensitive alias decides before any partial match. */
  lemma CaseInsensitiveBeforePartial(source: Source, field: Field, cols: seq<string>)
    requires ExactTier(Aliases(source, field), cols).None?
    requires CaseInsensitiveTier(Aliases(source, field), cols).Some?
    ensures MapColumn(source, field, cols) == CaseInsensitiveTier(Aliases(source, field), cols)
  {
  }

  /** Lower-cased equality is a partial match for a long enough alias. */
  lemma SameLowerPartial(name: string, col: string)
    requires SameLower(col, name) && |name| >= 4
    ensures PartialMatch(name, col)
  {
    ContainsInfix("", Lower(name), "");
    assert "" + Lower(name) + "" == Lower(col);
  }

  /** With long aliases, an alias with no partial match has no case-insensitive or exact match either. */
  lemma NoPartialNoLower(names: seq<string>, cols: seq<string>)
    requires forall i :: 0 <= i < |names| ==> |names[i]| >= 4
    requires forall i :: 0 <= i < |names| ==> !HasPartialMatch(names[i], cols)
    ensures forall i :: 0 <= i < |names| ==> !HasLowerMatch(names[i], cols)
    ensures forall i :: 0 <= i < |names| ==> names[i] !in cols
  {
    forall i | 0 <= i < |names| ensures !HasLowerMatch(names[i], cols) && names[i] !in cols {
      forall k | 0 <= k < |cols| ensures !SameLower(cols[k], names[i]) {
        if SameLower(cols[k], names[i]) {
          SameLowerPartial(names[i], cols[k]);
        }
      }
    }
  }

  /**
   * Since every alias is long, each tier's success implies the next one's, so
   * `_map_column` finds nothing exactly when no alias partially matches any column.
   */
  lemma MapColumnNone(source: Source, field: Field, cols: seq<string>)
    ensures MapColumn(source, field, cols).None?
            <==> forall i, k :: 0 <= i < |Aliases(source, field)| && 0 <= k < |cols|
                                ==> !PartialMatch(Aliases(source, field)[i], cols[k])
  {
    var names := Aliases(source, field);
    if PartialTier(names, cols).None? {
      AliasesLong(source, field);
      NoPartialNoLower(names, cols);
    }
  }

  /** The position of the first column named `name` (`df[name]` takes that column). */
  function IndexOf(cols: seq<string>, name: string): (r: Option<nat>)
    ensures r.None? <==> name !in cols
    ensures r.Some? ==> r.value < |cols| && cols[r.value] == name
    ensures r.Some? ==> forall k :: 0 <= k < r.value ==> cols[k] != name
  {
    FirstIndex((c: string) => c == name, cols)
  }

  /** Column names equal after upper-casing. */
  predicate SameUpper(a: string, b: string) {
    Upper(a) == Upper(b)
  }

  /**
   * The column `_process_dataframe` copies into a standard column: the column `_map_column`
   * found for the aliases `names` when it is a non-empty name, otherwise the first column
   * equal to the standard name ignoring case, otherwise none (the standard column is then
   * all null).
   */
  function ResolveColumn(names: seq<string>, standard: string, cols: seq<string>): (r: Option<nat>)
    ensures r.Some? ==> r.value < |cols|
  {
    var m := MapNames(names, cols);
    if m.Some? && m.value != "" then IndexOf(cols, m.value)
    else FirstIndex((c: string) => SameUpper(c, standard), cols)
  }

  /** The mapped column wins; the direct name match is the fallback; otherwise nothing. */
  lemma ResolveColumnSpec(names: seq<string>, standard: string, cols: seq<string>)
    ensures var m, r := MapNames(names, cols), ResolveColumn(names, standard, cols);
      && (m.Some? && m.value != "" ==> r.Some? && cols[r.value] == m.value)
      && (r.None? <==> (m.None? || m.value == "") && forall k :: 0 <= k < |cols| ==> !SameUpper(cols[k], standard))
      && (r.Some? && (m.None? || m.value == "") ==>
            SameUpper(cols[r.value], standard) && forall k :: 0 <= k < r.value ==> !SameUpper(cols[k], standard))
  {
  }
}
