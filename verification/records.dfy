/** The data model shared by the pipeline, the query matcher, the analyzer and the store adapter. */
module Records {
  import opened Wrappers

  /** The two forums, each with its own spreadsheet conventions. */
  datatype Source = AAA | JAMS

  function SourceName(s: Source): string {
    match s
    case AAA => "AAA"
    case JAMS => "JAMS"
  }

  /**
   * One spreadsheet or data-frame cell. Dates are day numbers; `Num` is a float cell,
   * `Int` an integer one (the derived day count), `Bool` a flag.
   */
  datatype Value = Null | Str(s: string) | Num(x: real) | Int(i: int) | Day(d: int) | Bool(b: bool)

  /**
   * One canonical case row. Every column the pipeline produces is a field; an absent
   * cell is `None`. `caseName` exists only in frames that carry a Case_Name column.
   */
  datatype Case = Case(
    caseId: Option<string>,
    arbitrator: Option<string>,
    respondent: Option<string>,
    consumerAttorney: Option<string>,
    respondentAttorney: Option<string>,
    disposition: Option<string>,
    dateFiled: Option<int>,
    dateClosed: Option<int>,
    award: Option<real>,
    claim: Option<real>,
    forum: Option<string>,
    caseName: Option<string>,
    consumerPrevailed: bool,
    businessPrevailed: bool,
    duration: Option<int>)

  /** A data frame of canonical rows together with the names of the columns it has. */
  datatype Frame = Frame(columns: set<string>, rows: seq<Case>)

  /** The output columns of one normalised file, in order. */
  const StandardColumns: seq<string> := [
    "Case_ID", "Arbitrator_Name", "Respondent_Name",
    "Consumer_Attorney", "Respondent_Attorney", "Disposition_Type",
    "Date_Filed", "Date_Closed", "Award_Amount", "Claim_Amount", "Forum"]

  /** The columns added by the enrichment steps. */
  const DerivedColumns: seq<string> := ["Consumer_Prevailed", "Business_Prevailed", "Case_Duration_Days"]

  function Flag<T>(o: Option<T>): nat {
    if o.Some? then 1 else 0
  }

  /** The number of non-null cells among the standard columns (`notnull().sum(axis=1)`). */
  function NonNullCount(c: Case): (n: nat)
    ensures n <= |StandardColumns|
  {
    Flag(c.caseId) + Flag(c.arbitrator) + Flag(c.respondent) + Flag(c.consumerAttorney)
    + Flag(c.respondentAttorney) + Flag(c.disposition) + Flag(c.dateFiled) + Flag(c.dateClosed)
    + Flag(c.award) + Flag(c.claim) + Flag(c.forum)
  }
}
