/**
 * The handlers of the query box and the dispatcher in front of them. A handler resolves
 * the name taken from the question to the first row whose name contains it, ignoring
 * case, and then answers from the rows that carry exactly that spelling.
 */
module QueryEngine {
  import opened Wrappers
  import opened Seqs
  import opened Text
  import opened Records
  import opened QueryPatterns

  const ArbitratorColumn: string := "Arbitrator_Name"
  const RespondentColumn: string := "Respondent_Name"
  const DispositionColumn: string := "Disposition_Type"
  const AwardColumn: string := "Award_Amount"
  const CaseNameColumn: string := "Case_Name"

  /** What a handler found, before it is worded; the last two are raised exceptions. */
  datatype Answer =
    | CaseCount(arbitrator: string, cases: nat)
    | RulingCount(arbitrator: string, party: string, awarded: nat, total: nat)
    | AverageAward(arbitrator: string, awards: seq<real>)
    | NoAwardData(arbitrator: string)
    | CaseList(arbitrator: string, caseNames: seq<Option<string>>)
    | NoCaseNames(arbitrator: string)
    | NoCaseNameColumn(arbitrator: string)
    | SpecificCount(arbitrator: string, respondent: string, awarded: nat, total: nat)
    | ArbitratorNotFound(key: string)
    | RespondentNotFound(key: string)
    | NotUnderstood
    | MissingColumn(column: string)
    | NullInMask(column: string)

  // ---------------------------------------------------------------- name resolution

  /**
   * `cell.lower()` contains `key.lower()`, found by a left-to-right search (equivalent to
   * `Contains` by `SearchDecides`); a missing cell never matches.
   */
  predicate NameMatches(cell: Option<string>, key: string) {
    cell.Some? && SearchFrom(Lower(cell.value), Lower(key), 0)
  }

  function Arbitrators(rows: seq<Case>): seq<Option<string>> {
    Map((c: Case) => c.arbitrator, rows)
  }

  function Respondents(rows: seq<Case>): seq<Option<string>> {
    Map((c: Case) => c.respondent, rows)
  }

  /** Position `i` holds the first cell that matches `key`. */
  predicate FirstMatch(names: seq<Option<string>>, key: string, i: int) {
    0 <= i < |names| && NameMatches(names[i], key)
    && forall j :: 0 <= j < i ==> !NameMatches(names[j], key)
  }

  /** `data.loc[mask, column].iloc[0]`: the first matching cell, spelled as it is there. */
  function Resolve(names: seq<Option<string>>, key: string): (r: Option<string>)
    ensures r.None? <==> forall i :: 0 <= i < |names| ==> !NameMatches(names[i], key)
    ensures r.Some? ==> exists i :: 0 <= i < |names| && names[i] == Some(r.value) && NameMatches(names[i], key)
  {
    match FirstIndex((v: Option<string>) => NameMatches(v, key), names)
    case None => None
    case Some(i) => Some(names[i].value)
  }

  /** The resolved spelling is the one of the first matching cell. */
  lemma ResolveFirst(names: seq<Option<string>>, key: string)
    requires Resolve(names, key).Some?
    ensures exists i :: FirstMatch(names, key, i) && names[i] == Resolve(names, key)
  {
    var i := FirstIndex((v: Option<string>) => NameMatches(v, key), names).value;
    assert FirstMatch(names, key, i);
  }

  /** The mask of `str.contains` on the arbitrator column. */
  function ArbitratorMatches(key: string): Case -> bool {
    (c: Case) => NameMatches(c.arbitrator, key)
  }

  /** `data['Arbitrator_Name'] == name` */
  function ArbitratorIs(name: string): Case -> bool {
    (c: Case) => c.arbitrator == Some(name)
  }

  /** `data['Respondent_Name'] == name` */
  function RespondentIs(name: string): Case -> bool {
    (c: Case) => c.respondent == Some(name)
  }

  /** `['Disposition_Type'] == 'Awarded'` */
  function IsAwarded(): Case -> bool {
    (c: Case) => c.disposition == Some("Awarded")
  }

  /** The outcome of resolving the arbitrator: a name to go on with, or the answer to give. */
  datatype Lookup = Resolved(name: string) | Stopped(answer: Answer)

  /**
   * The opening every handler shares: the name is stripped, the arbitrator column read
   * (a missing column raises), and the first containing cell taken; masking with a
   * column that has missing cells raises once something matched.
   */
  function FindArbitrator(name: string, data: Frame): (r: Lookup)
    ensures r.Stopped? ==> r.answer.MissingColumn? || r.answer.NullInMask? || r.answer == ArbitratorNotFound(Strip(name))
    ensures r.Stopped? && r.answer.ArbitratorNotFound? <==>
      ArbitratorColumn in data.columns && Resolve(Arbitrators(data.rows), Strip(name)).None?
    ensures r.Resolved? ==>
      ArbitratorColumn in data.columns && None !in Arbitrators(data.rows)
      && Resolve(Arbitrators(data.rows), Strip(name)) == Some(r.name)
  {
    var key := Strip(name);
    if ArbitratorColumn !in data.columns then Stopped(MissingColumn(ArbitratorColumn))
    else
      var names := Arbitrators(data.rows);
      match Resolve(names, key)
      case None => Stopped(ArbitratorNotFound(key))
      case Some(actual) =>
        if None in names then Stopped(NullInMask(ArbitratorColumn)) else Resolved(actual)
  }

  /**
   * The row the resolved name came from both contains the key and carries the name
   * exactly, so neither selection is empty.
   */
  lemma ResolvedRows(rows: seq<Case>, key: string, actual: string)
    requires Resolve(Arbitrators(rows), key) == Some(actual)
    ensures Filter(ArbitratorMatches(key), rows) != []
    ensures Filter(ArbitratorIs(actual), rows) != []
  {
    var names := Arbitrators(rows);
    var i :| 0 <= i < |names| && names[i] == Some(actual) && NameMatches(names[i], key);
    assert ArbitratorMatches(key)(rows[i]) && ArbitratorIs(actual)(rows[i]);
  }

  // ---------------------------------------------------------------- the five handlers

  /** `_get_arbitrator_case_count`: the number of rows whose arbitrator contains the name. */
  function ArbitratorCaseCount(name: string, data: Frame): (r: Answer)
    ensures r.MissingColumn? || r.NullInMask? || r.ArbitratorNotFound? || r.CaseCount?
    ensures r.ArbitratorNotFound? <==> FindArbitrator(name, data) == Stopped(ArbitratorNotFound(Strip(name)))
    ensures r.CaseCount? ==>
      FindArbitrator(name, data) == Resolved(r.arbitrator)
      && r.cases == |Indices(ArbitratorMatches(Strip(name)), data.rows)|
      && 1 <= r.cases <= |data.rows|
  {
    match FindArbitrator(name, data)
    case Stopped(a) => a
    case Resolved(actual) =>
      var matching := Filter(ArbitratorMatches(Strip(name)), data.rows);
      ResolvedRows(data.rows, Strip(name), actual);
      FilterCount(ArbitratorMatches(Strip(name)), data.rows);
      CaseCount(actual, |matching|)
  }

  /**
   * `_get_arbitrator_rulings`: among the rows of the resolved arbitrator, how many were
   * "Awarded".
   */
  function ArbitratorRulings(name: string, party: string, data: Frame): (r: Answer)
    ensures r.MissingColumn? || r.NullInMask? || r.ArbitratorNotFound? || r.RulingCount?
    ensures r.ArbitratorNotFound? <==> FindArbitrator(name, data) == Stopped(ArbitratorNotFound(Strip(name)))
    ensures r.RulingCount? ==>
      FindArbitrator(name, data) == Resolved(r.arbitrator) && r.party == party
      && r.total == |Indices(ArbitratorIs(r.arbitrator), data.rows)|
      && r.awarded == |Indices(Both(ArbitratorIs(r.arbitrator), IsAwarded()), data.rows)|
      && r.awarded <= r.total && r.total >= 1
  {
    match FindArbitrator(name, data)
    case Stopped(a) => a
    case Resolved(actual) =>
      if DispositionColumn !in data.columns then MissingColumn(DispositionColumn)
      else
        var own := Filter(ArbitratorIs(actual), data.rows);
        var awarded := Filter(IsAwarded(), own);
        ResolvedRows(data.rows, Strip(name), actual);
        FilterCount(ArbitratorIs(actual), data.rows);
        FilterFilter(ArbitratorIs(actual), IsAwarded(), data.rows);
        FilterCount(Both(ArbitratorIs(actual), IsAwarded()), data.rows);
        RulingCount(actual, party, |awarded|, |own|)
  }

  /** The row has an award amount. */
  function HasAward(): Case -> bool {
    (c: Case) => c.award.Some?
  }

  /** The award amount of a row that has one. */
  function AwardOf(c: Case): real {
    if c.award.Some? then c.award.value else 0.0
  }

  /**
   * `['Award_Amount'].dropna()`: the award amount of every row that has one, one entry
   * per such row, in row order.
   */
  function Awards(rows: seq<Case>): (r: seq<real>)
    ensures Lists(AwardOf, HasAward(), r, rows)
    ensures r == [] <==> forall i :: 0 <= i < |rows| ==> rows[i].award.None?
  {
    MapFilterLists(AwardOf, HasAward(), rows);
    Map(AwardOf, Filter(HasAward(), rows))
  }

  /**
   * `_get_arbitrator_avg_award`: the mean of the awards present among the resolved
   * arbitrator's rows, or the "not available" answer when there are none.
   */
  function ArbitratorAverageAward(name: string, data: Frame): (r: Answer)
    ensures r.MissingColumn? || r.NullInMask? || r.ArbitratorNotFound? || r.AverageAward? || r.NoAwardData?
    ensures r.ArbitratorNotFound? <==> FindArbitrator(name, data) == Stopped(ArbitratorNotFound(Strip(name)))
    ensures r.NoAwardData? ==>
      FindArbitrator(name, data) == Resolved(r.arbitrator)
      && (AwardColumn !in data.columns
          || forall i :: 0 <= i < |data.rows| && data.rows[i].arbitrator == Some(r.arbitrator) ==> data.rows[i].award.None?)
    ensures r.AverageAward? ==>
      FindArbitrator(name, data) == Resolved(r.arbitrator) && AwardColumn in data.columns
      && |r.awards| >= 1 && Lists(AwardOf, Both(ArbitratorIs(r.arbitrator), HasAward()), r.awards, data.rows)
  {
    match FindArbitrator(name, data)
    case Stopped(a) => a
    case Resolved(actual) =>
      var own := Filter(ArbitratorIs(actual), data.rows);
      var awards := Awards(own);
      if AwardColumn in data.columns && awards != [] then
        FilterFilter(ArbitratorIs(actual), HasAward(), data.rows);
        MapFilterLists(AwardOf, Both(ArbitratorIs(actual), HasAward()), data.rows);
        AverageAward(actual, awards)
      else
        assert AwardColumn in data.columns ==>
          forall i :: 0 <= i < |data.rows| && data.rows[i].arbitrator == Some(actual) ==> data.rows[i].award.None? by {
          forall i | 0 <= i < |data.rows| && data.rows[i].arbitrator == Some(actual)
            ensures data.rows[i].award.None? || AwardColumn !in data.columns
          {
            assert ArbitratorIs(actual)(data.rows[i]);
            assert data.rows[i] in own;
          }
        }
        NoAwardData(actual)
  }

  function CaseNameOf(c: Case): Option<string> {
    c.caseName
  }

  /**
   * `names` lists the case name of every row spelled exactly as `arbitrator`: one entry
   * per such row, in row order, and at least one.
   */
  predicate ListsCases(arbitrator: string, names: seq<Option<string>>, rows: seq<Case>) {
    |names| >= 1 && Lists(CaseNameOf, ArbitratorIs(arbitrator), names, rows)
  }

  /** The case names of the rows spelled exactly as the resolved name. */
  lemma CaseNamesOf(rows: seq<Case>, key: string, actual: string)
    requires Resolve(Arbitrators(rows), key) == Some(actual)
    ensures ListsCases(actual, Map(CaseNameOf, Filter(ArbitratorIs(actual), rows)), rows)
  {
    ResolvedRows(rows, key, actual);
    MapFilterLists(CaseNameOf, ArbitratorIs(actual), rows);
  }

  /**
   * `_list_arbitrator_cases`: the case name of each of the resolved arbitrator's rows, in
   * row order. The list is never empty, since the row the name came from is on it.
   */
  function ArbitratorCaseList(name: string, data: Frame): (r: Answer)
    ensures r.MissingColumn? || r.NullInMask? || r.ArbitratorNotFound? || r.CaseList? || r.NoCaseNameColumn?
    ensures r.ArbitratorNotFound? <==> FindArbitrator(name, data) == Stopped(ArbitratorNotFound(Strip(name)))
    ensures r.NoCaseNameColumn? <==>
      (FindArbitrator(name, data).Resolved? && CaseNameColumn !in data.columns)
    ensures r.CaseList? ==>
      FindArbitrator(name, data) == Resolved(r.arbitrator) && ListsCases(r.arbitrator, r.caseNames, data.rows)
  {
    match FindArbitrator(name, data)
    case Stopped(a) => a
    case Resolved(actual) =>
      if CaseNameColumn in data.columns then
        var caseNames := Map(CaseNameOf, Filter(ArbitratorIs(actual), data.rows));
        CaseNamesOf(data.rows, Strip(name), actual);
        if |caseNames| > 0 then CaseList(actual, caseNames) else NoCaseNames(actual)
      else NoCaseNameColumn(actual)
  }

  /** The mask of `str.contains` on the respondent column. */
  function RespondentMatches(key: string): Case -> bool {
    (c: Case) => NameMatches(c.respondent, key)
  }

  /**
   * `_get_specific_rulings`: the respondent is resolved only once the arbitrator is, and
   * both counts are over the rows spelled exactly as both resolved names.
   */
  function SpecificRulings(arbitrator: string, respondent: string, data: Frame): (r: Answer)
    ensures r.MissingColumn? || r.NullInMask? || r.ArbitratorNotFound? || r.RespondentNotFound? || r.SpecificCount?
    ensures r.ArbitratorNotFound? <==> FindArbitrator(arbitrator, data) == Stopped(ArbitratorNotFound(Strip(arbitrator)))
    ensures r.RespondentNotFound? <==>
      FindArbitrator(arbitrator, data).Resolved? && RespondentColumn in data.columns
      && Resolve(Respondents(data.rows), Strip(respondent)).None?
    ensures r.RespondentNotFound? ==> r.key == Strip(respondent)
    ensures r.SpecificCount? ==>
      FindArbitrator(arbitrator, data) == Resolved(r.arbitrator)
      && Resolve(Respondents(data.rows), Strip(respondent)) == Some(r.respondent)
      && r.total == |Indices(Both(ArbitratorIs(r.arbitrator), RespondentIs(r.respondent)), data.rows)|
      && r.awarded == |Indices(Both(Both(ArbitratorIs(r.arbitrator), RespondentIs(r.respondent)), IsAwarded()), data.rows)|
      && r.awarded <= r.total
  {
    match FindArbitrator(arbitrator, data)
    case Stopped(a) => a
    case Resolved(actualArbitrator) =>
      var key := Strip(respondent);
      if RespondentColumn !in data.columns then MissingColumn(RespondentColumn)
      else
        var names := Respondents(data.rows);
        match Resolve(names, key)
        case None => RespondentNotFound(key)
        case Some(actualRespondent) =>
          if None in names then NullInMask(RespondentColumn)
          else if DispositionColumn !in data.columns then MissingColumn(DispositionColumn)
          else
            var both := Filter(Both(ArbitratorIs(actualArbitrator), RespondentIs(actualRespondent)), data.rows);
            var awarded := Filter(IsAwarded(), both);
            var pair := Both(ArbitratorIs(actualArbitrator), RespondentIs(actualRespondent));
            FilterCount(pair, data.rows);
            FilterFilter(pair, IsAwarded(), data.rows);
            FilterCount(Both(pair, IsAwarded()), data.rows);
            SpecificCount(actualArbitrator, actualRespondent, |awarded|, |both|)
  }

  // ---------------------------------------------------------------- dispatch

  /**
   * The handler each intent goes to. Only the specific-rulings handler gives the
   * respondent answers, and only `Unrecognised` is not understood.
   */
  function Handle(intent: Intent, data: Frame): (r: Answer)
    ensures r.NotUnderstood? <==> intent.Unrecognised?
    ensures !intent.AskSpecificRulings? ==> !r.SpecificCount? && !r.RespondentNotFound?
  {
    match intent
    case AskCaseCount(n) => ArbitratorCaseCount(n, data)
    case AskRulings(n, party) => ArbitratorRulings(n, party, data)
    case AskAverageAward(n) => ArbitratorAverageAward(n, data)
    case AskCaseList(n) => ArbitratorCaseList(n, data)
    case AskSpecificRulings(a, b) => SpecificRulings(a, b, data)
    case Unrecognised => NotUnderstood
  }

  /**
   * `process_natural_language_query`: the first pattern that matches picks the handler.
   * The respondent-specific answers never come back from it.
   */
  function Respond(query: string, data: Frame): (r: Answer)
    ensures r.NotUnderstood? <==> forall p: Pattern :: Search(p, Lower(query)).None?
    ensures !r.SpecificCount? && !r.RespondentNotFound?
  {
    var intent := Parse(query);
    ParseNeverSpecific(query);
    Handle(intent, data)
  }

  // ---------------------------------------------------------------- wording

  const NotUnderstoodText: string :=
    "I'm sorry, I couldn't understand your query. Please try rephrasing or use one of the sample queries below."

  function NotFoundText(who: string, key: string): string {
    "I couldn't find any cases for " + who + " matching '" + key + "' in the dataset."
  }

  /** `f"{name}"` for a case-name cell; a missing one prints as `None`. */
  function CellText(v: Option<string>): string {
    if v.Some? then v.value else "None"
  }

  /** `"\n".join(f"- {name}" for name in case_names)` */
  function CaseLines(names: seq<Option<string>>): (r: string)
  {
    Join(Map((v: Option<string>) => "- " + CellText(v), names), "\n")
  }

  /**
   * The f-string of each answer. `money` stands for `f"${mean:,.2f}"` applied to the
   * mean of the awards; floating-point formatting is not part of this model.
   */
  function Wording(a: Answer, money: seq<real> -> string): string
    requires !a.MissingColumn? && !a.NullInMask?
  {
    match a
    case CaseCount(n, k) =>
      "Arbitrator " + n + " has handled " + NatToString(k) + " arbitration cases in the dataset."
    case RulingCount(n, party, w, t) =>
      "Arbitrator " + n + " has ruled for the " + party + " in " + NatToString(w)
      + " cases out of " + NatToString(t) + " total cases."
    case AverageAward(n, awards) =>
      "The average award given by Arbitrator " + n + " is " + money(awards) + "."
    case NoAwardData(n) => "Award amount data is not available for Arbitrator " + n + "."
    case CaseList(n, names) =>
      "Arbitrator " + n + " has handled the following " + NatToString(|names|) + " cases:\n\n"
      + CaseLines(names)
    case NoCaseNames(n) => "No case names are available for Arbitrator " + n + "."
    case NoCaseNameColumn(n) => "Case name data is not available for Arbitrator " + n + "."
    case SpecificCount(n, m, w, t) =>
      "Arbitrator " + n + " has ruled for the consumer against " + m + " in " + NatToString(w)
      + " cases out of " + NatToString(t) + " total cases involving both parties."
    case ArbitratorNotFound(key) => NotFoundText("an arbitrator", key)
    case RespondentNotFound(key) => NotFoundText("a respondent", key)
    case NotUnderstood => NotUnderstoodText
  }

  /** The reply text, or `None` when the handler raises. */
  function Reply(query: string, data: Frame, money: seq<real> -> string): (r: Option<string>)
    ensures r.None? <==> Respond(query, data).MissingColumn? || Respond(query, data).NullInMask?
  {
    var a := Respond(query, data);
    if a.MissingColumn? || a.NullInMask? then None else Some(Wording(a, money))
  }

  /**
   * A count question whose greedy group took words after the name ("... has John Smith
   * had?") looks up the whole capture, and finds nothing when no arbitrator's name
   * contains all of it.
   */
  lemma CountCaptureNotFound(query: string, n: string, data: Frame)
    requires Lower(query) == CountHead + "s" + CountMid + n + "?"
    requires Group(n)
    requires ArbitratorColumn in data.columns
    requires forall i :: 0 <= i < |data.rows| ==> !NameMatches(data.rows[i].arbitrator, Strip(n))
    ensures Respond(query, data) == ArbitratorNotFound(Strip(n))
  {
    GreedyCountCapture(query, n);
    assert Resolve(Arbitrators(data.rows), Strip(n)).None? by {
      forall i | 0 <= i < |data.rows|
        ensures !NameMatches(Arbitrators(data.rows)[i], Strip(n))
      {
        assert Arbitrators(data.rows)[i] == data.rows[i].arbitrator;
      }
    }
    assert Respond(query, data) == ArbitratorCaseCount(n, data);
  }
}
