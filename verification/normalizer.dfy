/**
 * Per-file normalisation of data_processor.py (`_process_dataframe` with `_clean_dataframe`):
 * the ten logical fields are resolved to spreadsheet columns, every cell is cleaned and
 * converted, the rows are tagged with the forum, a missing arbitrator becomes "Unknown",
 * and rows lacking a Case_ID or an arbitrator are dropped, one required field at a time.
 * Only `object` columns are cleaned: a disposition column pandas reads as numbers, dates or
 * booleans reaches `_standardize_disposition` with non-text cells, and the file raises.
 */
module Normalizer {
  import opened Wrappers
  import opened Seqs
  import opened Text
  import opened Records
  import opened Cleaners
  import opened ColumnMapping

  /** A spreadsheet as read: header names and rows of cells. */
  datatype RawTable = RawTable(columns: seq<string>, rows: seq<seq<Value>>)

  /**
   * Conversions the pipeline takes from its libraries: `str()` of a non-text cell and
   * `pd.to_datetime(..., errors='coerce')` of a cleaned text, as a day number or None.
   */
  datatype Env = Env(show: Value -> string, parseDate: string -> Option<int>)

  /** The ten (field, standard column) pairs, in the order `_process_dataframe` maps them. */
  const Fields: seq<(Field, string)> := [
    (CaseIdField, "Case_ID"), (ArbitratorField, "Arbitrator_Name"),
    (RespondentField, "Respondent_Name"), (ConsumerAttorneyField, "Consumer_Attorney"),
    (RespondentAttorneyField, "Respondent_Attorney"), (DispositionField, "Disposition_Type"),
    (DateFiledField, "Date_Filed"), (DateClosedField, "Date_Closed"),
    (AwardField, "Award_Amount"), (ClaimField, "Claim_Amount")]

  /** The standard columns the ten pairs fill are the standard columns other than Forum. */
  lemma FieldsCoverStandardColumns()
    ensures |Fields| + 1 == |StandardColumns|
    ensures forall i :: 0 <= i < |Fields| ==> Fields[i].1 == StandardColumns[i]
    ensures StandardColumns[|Fields|] == "Forum"
  {
  }

  /** The resolved source column of every field, in order. */
  function Resolution(source: Source, cols: seq<string>): (r: seq<Option<nat>>)
    ensures |r| == |Fields|
    ensures forall i :: 0 <= i < |Fields| && r[i].Some? ==> r[i].value < |cols|
  {
    seq(|Fields|, i requires 0 <= i < |Fields| => ResolveField(source, i, cols))
  }

  /** The column the `i`-th field takes its cells from, if any. */
  function ResolveField(source: Source, i: nat, cols: seq<string>): (r: Option<nat>)
    requires i < |Fields|
    ensures r.Some? ==> r.value < |cols|
  {
    ResolveColumn(Aliases(source, Fields[i].0), Fields[i].1, cols)
  }

  /** The cell a field takes from a row: null when the field has no column. */
  function Cell(row: seq<Value>, c: Option<nat>): Value {
    if c.Some? && c.value < |row| then row[c.value] else Null
  }

  /** A cell as text (`str(value)` for non-text cells); null stays null. */
  function TextOf(env: Env, v: Value): (r: Option<string>)
    ensures r.None? <==> v.Null?
  {
    match v
    case Null => None
    case Str(s) => Some(s)
    case _ => Some(env.show(v))
  }

  /** A text column after `_clean_string`. */
  function CleanText(env: Env, v: Value): (r: Option<string>)
    ensures r.None? <==> v.Null?
    ensures r.Some? ==> Stripped(r.value) && Normal(r.value)
  {
    CleanString(TextOf(env, v))
  }

  /** A date column: a date cell is kept, anything else is cleaned and parsed, failure giving None. */
  function DateOf(env: Env, v: Value): (r: Option<int>)
    ensures v.Null? ==> r.None?
    ensures v.Day? ==> r == Some(v.d)
  {
    match v
    case Null => None
    case Day(d) => Some(d)
    case _ => env.parseDate(CleanText(env, v).value)
  }

  /** An amount column: text is cleaned first, then `_extract_amount` is applied. */
  function AmountOf(v: Value): (r: Option<real>)
    ensures v.Null? ==> r.None?
    ensures v.Num? ==> r == Some(v.x)
  {
    match v
    case Str(s) => ExtractAmount(Str(CleanString(Some(s)).value))
    case _ => ExtractAmount(v)
  }

  /** One output row before the required-field filters. */
  function NormalizeRow(env: Env, source: Source, res: seq<Option<nat>>, row: seq<Value>): Case
    requires |res| == |Fields|
  {
    Case(
      caseId := CleanText(env, Cell(row, res[0])),
      arbitrator := Some(CleanText(env, Cell(row, res[1])).GetOr("Unknown")),
      respondent := CleanText(env, Cell(row, res[2])),
      consumerAttorney := CleanText(env, Cell(row, res[3])),
      respondentAttorney := CleanText(env, Cell(row, res[4])),
      disposition := StandardizeDisposition(CleanText(env, Cell(row, res[5]))),
      dateFiled := DateOf(env, Cell(row, res[6])),
      dateClosed := DateOf(env, Cell(row, res[7])),
      award := AmountOf(Cell(row, res[8])),
      claim := AmountOf(Cell(row, res[9])),
      forum := Some(SourceName(source)),
      caseName := None,
      consumerPrevailed := false,
      businessPrevailed := false,
      duration := None)
  }

  predicate HasCaseId(c: Case) {
    c.caseId.Some?
  }

  predicate HasArbitrator(c: Case) {
    c.arbitrator.Some?
  }

  /** Every row of the file, normalised, before filtering. */
  function Built(env: Env, source: Source, t: RawTable): (r: seq<Case>)
    ensures |r| == |t.rows|
  {
    var res := Resolution(source, t.columns);
    Map((row: seq<Value>) => NormalizeRow(env, source, res, row), t.rows)
  }

  /** The normalised file: the rows with a Case_ID, then those with an arbitrator. */
  function Normalize(env: Env, source: Source, t: RawTable): seq<Case> {
    Filter(HasArbitrator, Filter(HasCaseId, Built(env, source, t)))
  }

  /** The column-resolution loop of `_process_dataframe`. */
  method ResolveFields(source: Source, cols: seq<string>) returns (res: seq<Option<nat>>)
    ensures res == Resolution(source, cols)
  {
    ghost var all := Resolution(source, cols);
    res := [];
    var i := 0;
    while i < |Fields|
      invariant 0 <= i <= |Fields|
      invariant res == all[..i]
    {
      var r := ResolveOne(source, cols, i);
      TakeSnoc(all, i);
      res := res + [r];
      i := i + 1;
    }
    assert all[..|Fields|] == all;
  }

  /** One pass of the loop: the column for the `i`-th (field, standard name) pair. */
  method ResolveOne(source: Source, cols: seq<string>, i: nat) returns (r: Option<nat>)
    requires i < |Fields|
    ensures r == Resolution(source, cols)[i]
  {
    r := ResolveField(source, i, cols);
  }

  lemma BuiltAt(env: Env, source: Source, t: RawTable, j: nat)
    requires j < |t.rows|
    ensures Built(env, source, t)[j] == NormalizeRow(env, source, Resolution(source, t.columns), t.rows[j])
  {
  }

  /** Filling the standard columns, row by row. */
  method BuildRows(env: Env, source: Source, res: seq<Option<nat>>, rows: seq<seq<Value>>) returns (built: seq<Case>)
    requires |res| == |Fields|
    ensures |built| == |rows|
    ensures forall k :: 0 <= k < |rows| ==> built[k] == NormalizeRow(env, source, res, rows[k])
  {
    built := [];
    var j := 0;
    while j < |rows|
      invariant 0 <= j <= |rows|
      invariant |built| == j
      invariant forall k :: 0 <= k < j ==> built[k] == NormalizeRow(env, source, res, rows[k])
    {
      built := AppendRow(env, source, res, rows, j, built);
      j := j + 1;
    }
  }

  /** One pass of the loop: row `j` normalised and appended. */
  method AppendRow(env: Env, source: Source, res: seq<Option<nat>>, rows: seq<seq<Value>>, j: nat, built: seq<Case>)
    returns (built': seq<Case>)
    requires |res| == |Fields| && j < |rows| && |built| == j
    ensures built' == built + [NormalizeRow(env, source, res, rows[j])]
  {
    built' := built + [NormalizeRow(env, source, res, rows[j])];
  }

  /** The cells of column `c`, one per row; a row too short for it gives a null. */
  function ColumnCells(t: RawTable, c: Option<nat>): (cells: seq<Value>)
    ensures |cells| == |t.rows|
    ensures forall k :: 0 <= k < |t.rows| ==> cells[k] == Cell(t.rows[k], c)
  {
    Map((row: seq<Value>) => Cell(row, c), t.rows)
  }

  /**
   * `read_excel` gives a column a dtype other than `object` when it holds no text and its
   * cells are of one kind: blanks and numbers (a float or integer column; an empty column
   * is a float column of NaN), blanks and dates (a datetime column), or flags without a
   * blank (a bool column).
   */
  predicate NonObjectColumn(cells: seq<Value>) {
    || (forall k :: 0 <= k < |cells| ==> cells[k].Null? || cells[k].Num? || cells[k].Int?)
    || (forall k :: 0 <= k < |cells| ==> cells[k].Null? || cells[k].Day?)
    || (forall k :: 0 <= k < |cells| ==> cells[k].Bool?)
  }

  /**
   * `_process_dataframe` raises on the file. `_clean_dataframe` cleans only `object`
   * columns, so a Disposition_Type copied from a column of another dtype keeps its NaN,
   * numbers or dates, and `_standardize_disposition` calls `.lower()` on the first of them.
   */
  predicate DispositionRaises(source: Source, t: RawTable) {
    var c := ResolveField(source, 5, t.columns);
    c.Some? && |t.rows| > 0 && NonObjectColumn(ColumnCells(t, c))
  }

  /** A file with rows whose disposition column is mapped but entirely blank raises. */
  lemma BlankDispositionRaises(source: Source, t: RawTable)
    requires ResolveField(source, 5, t.columns).Some? && |t.rows| > 0
    requires forall k :: 0 <= k < |t.rows| ==> Cell(t.rows[k], ResolveField(source, 5, t.columns)).Null?
    ensures DispositionRaises(source, t)
  {
    var cells := ColumnCells(t, ResolveField(source, 5, t.columns));
    assert forall k :: 0 <= k < |cells| ==> cells[k].Null?;
  }

  /** A column holding a text cell is an `object` column. */
  lemma TextColumnIsObject(cells: seq<Value>, k: nat)
    requires k < |cells| && cells[k].Str?
    ensures !NonObjectColumn(cells)
  {
  }

  /** A disposition column holding a text cell is an `object` column, so it is cleaned and never raises. */
  lemma TextDispositionCleaned(source: Source, t: RawTable, k: nat)
    requires k < |t.rows| && Cell(t.rows[k], ResolveField(source, 5, t.columns)).Str?
    ensures !DispositionRaises(source, t)
  {
    var c := ResolveField(source, 5, t.columns);
    TextColumnIsObject(ColumnCells(t, c), k);
  }

  /** Build every row with the resolved columns, then drop rows lacking each required field in turn. */
  method NormalizeRows(env: Env, source: Source, t: RawTable, res: seq<Option<nat>>) returns (rows: seq<Case>)
    requires res == Resolution(source, t.columns)
    ensures rows == Normalize(env, source, t)
  {
    var built := BuildRows(env, source, res, t.rows);
    forall k | 0 <= k < |t.rows| ensures built[k] == Built(env, source, t)[k] {
      BuiltAt(env, source, t, k);
    }
    assert built == Built(env, source, t);
    var withId := FilterLoop(HasCaseId, built);
    rows := FilterLoop(HasArbitrator, withId);
  }

  /**
   * `_process_dataframe`: resolve the columns, then build and filter the rows; nothing
   * when the disposition cleaning raises.
   */
  method ProcessDataframe(env: Env, source: Source, t: RawTable) returns (out: Option<seq<Case>>)
    ensures out.None? <==> DispositionRaises(source, t)
    ensures out.Some? ==> out.value == Normalize(env, source, t)
  {
    var res := ResolveFields(source, t.columns);
    var disposition := res[5];
    assert disposition == ResolveField(source, 5, t.columns);
    if disposition.Some? && |t.rows| > 0 && NonObjectColumn(ColumnCells(t, disposition)) {
      return None;
    }
    var rows := NormalizeRows(env, source, t, res);
    out := Some(rows);
  }

  /** Every text field of a normalised row is stripped, with single spaces only. */
  predicate CleanTextFields(c: Case) {
    (c.caseId.Some? ==> Stripped(c.caseId.value) && Normal(c.caseId.value))
    && (c.arbitrator.Some? ==> Stripped(c.arbitrator.value) && Normal(c.arbitrator.value))
    && (c.respondent.Some? ==> Stripped(c.respondent.value) && Normal(c.respondent.value))
    && (c.consumerAttorney.Some? ==> Stripped(c.consumerAttorney.value) && Normal(c.consumerAttorney.value))
    && (c.respondentAttorney.Some? ==> Stripped(c.respondentAttorney.value) && Normal(c.respondentAttorney.value))
  }

  /** What every built row satisfies, whatever its cells. */
  lemma NormalizeRowFacts(env: Env, source: Source, res: seq<Option<nat>>, row: seq<Value>)
    requires |res| == |Fields|
    ensures NormalizeRow(env, source, res, row).forum == Some(SourceName(source))
    ensures NormalizeRow(env, source, res, row).arbitrator.Some?
    ensures CleanTextFields(NormalizeRow(env, source, res, row))
  {
    assert Stripped("Unknown") && Normal("Unknown");
  }

  /**
   * Every surviving row carries the file's forum, a Case_ID and an arbitrator, and its
   * text fields are clean.
   */
  lemma NormalizedRows(env: Env, source: Source, t: RawTable)
    ensures forall c :: c in Normalize(env, source, t) ==>
      c.forum == Some(SourceName(source)) && c.caseId.Some? && c.arbitrator.Some? && CleanTextFields(c)
  {
    var res := Resolution(source, t.columns);
    var b := Built(env, source, t);
    forall c | c in Normalize(env, source, t)
      ensures c.forum == Some(SourceName(source)) && c.caseId.Some? && c.arbitrator.Some? && CleanTextFields(c)
    {
      assert c in Filter(HasCaseId, b);
      var k :| 0 <= k < |b| && b[k] == c;
      BuiltAt(env, source, t, k);
      NormalizeRowFacts(env, source, res, t.rows[k]);
    }
  }

  /** The arbitrator filter never removes a row: the arbitrator was already filled in. */
  lemma ArbitratorFilterKeepsAll(env: Env, source: Source, t: RawTable)
    ensures Normalize(env, source, t) == Filter(HasCaseId, Built(env, source, t))
  {
    var res := Resolution(source, t.columns);
    forall c | c in Filter(HasCaseId, Built(env, source, t)) ensures HasArbitrator(c) {
      var k :| 0 <= k < |t.rows| && Built(env, source, t)[k] == c;
    }
    FilterAll(HasArbitrator, Filter(HasCaseId, Built(env, source, t)));
  }

  /**
   * The surviving rows are the normalised input rows whose Case_ID cell is not null, in
   * input order.
   */
  lemma NormalizeKeepsOrder(env: Env, source: Source, t: RawTable)
    ensures SubseqOf(Normalize(env, source, t), Built(env, source, t))
    ensures forall k :: 0 <= k < |t.rows| && !Cell(t.rows[k], Resolution(source, t.columns)[0]).Null?
                        ==> Built(env, source, t)[k] in Normalize(env, source, t)
  {
    ArbitratorFilterKeepsAll(env, source, t);
    FilterSubseq(HasCaseId, Built(env, source, t));
  }

  /** A file in which no column resolves to Case_ID yields no rows at all. */
  lemma NoCaseIdColumn(env: Env, source: Source, t: RawTable)
    requires Resolution(source, t.columns)[0].None?
    ensures Normalize(env, source, t) == []
  {
    var b := Built(env, source, t);
    forall k | 0 <= k < |b| ensures !HasCaseId(b[k]) {
      BuiltAt(env, source, t, k);
    }
    FilterNone(HasCaseId, b);
  }
}
