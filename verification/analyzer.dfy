/**
 * The dashboard's `DataAnalyzer`: the headline metrics, per-column value counts, the
 * settlement rate, the busiest arbitrators and respondents, and the statistics of one
 * arbitrator. The analyzer never changes its frame, so each query takes the frame as an
 * argument.
 */
module Analyzer {
  import opened Wrappers
  import opened Seqs
  import opened Text
  import opened Records
  import opened Utils

  // ---------------------------------------------------------------------------------------
  // Counting cells

  /** The rows whose `fd` cell is exactly `v` (the null cell when `v` is `None`). */
  function CellIs(fd: Field, v: Option<string>): Case -> bool {
    (c: Case) => FieldOf(fd, c) == v
  }

  function CellPresent(fd: Field): Case -> bool {
    (c: Case) => FieldOf(fd, c).Some?
  }

  /** The number of rows whose `fd` cell is `v`. */
  function Occurrences(fd: Field, v: Option<string>, rows: seq<Case>): nat {
    |Filter(CellIs(fd, v), rows)|
  }

  /** The number of rows whose `fd` cell is not null. */
  function NonNullCells(fd: Field, rows: seq<Case>): nat {
    |Filter(CellPresent(fd), rows)|
  }

  lemma OccurrencesSnoc(fd: Field, v: Option<string>, rows: seq<Case>)
    requires rows != []
    ensures Occurrences(fd, v, rows) ==
      Occurrences(fd, v, rows[..|rows| - 1]) + (if FieldOf(fd, rows[|rows| - 1]) == v then 1 else 0)
  {
    FilterSnoc(CellIs(fd, v), rows, |rows| - 1);
    assert rows[..|rows|] == rows;
  }

  lemma NonNullCellsSnoc(fd: Field, rows: seq<Case>)
    requires rows != []
    ensures NonNullCells(fd, rows) ==
      NonNullCells(fd, rows[..|rows| - 1]) + (if FieldOf(fd, rows[|rows| - 1]).Some? then 1 else 0)
  {
    FilterSnoc(CellPresent(fd), rows, |rows| - 1);
    assert rows[..|rows|] == rows;
  }

  /**
   * `value_counts().to_dict()` on the `fd` column: every non-null value with the number of
   * rows holding it (pandas drops null cells before counting).
   */
  function ValueCounts(fd: Field, rows: seq<Case>): (m: map<Option<string>, nat>)
    ensures None !in m
    ensures forall k :: k in m ==> m[k] >= 1
    decreases |rows|
  {
    if rows == [] then map[]
    else
      var m := ValueCounts(fd, rows[..|rows| - 1]);
      var k := FieldOf(fd, rows[|rows| - 1]);
      if k.None? then m else m[k := (if k in m then m[k] else 0) + 1]
  }

  /** A value is a key exactly when some row holds it, and its count is the number of such rows. */
  lemma {:induction false} ValueCountsAt(fd: Field, rows: seq<Case>, v: Option<string>)
    ensures v in ValueCounts(fd, rows) <==> v.Some? && Occurrences(fd, v, rows) >= 1
    ensures v in ValueCounts(fd, rows) ==> ValueCounts(fd, rows)[v] == Occurrences(fd, v, rows)
    decreases |rows|
  {
    if rows != [] {
      ValueCountsAt(fd, rows[..|rows| - 1], v);
      OccurrencesSnoc(fd, v, rows);
    }
  }

  /** The sum of the counts of a table. */
  ghost function SumCounts(m: map<Option<string>, nat>): nat
    decreases m.Keys
  {
    if m.Keys == {} then 0
    else
      var k :| k in m.Keys;
      m[k] + SumCounts(m - {k})
  }

  /** The sum may start from any key. */
  lemma {:induction false} SumCountsRemove(m: map<Option<string>, nat>, k: Option<string>)
    requires k in m
    ensures SumCounts(m) == m[k] + SumCounts(m - {k})
    decreases m.Keys
  {
    var j :| j in m.Keys && SumCounts(m) == m[j] + SumCounts(m - {j});
    if j != k {
      SumCountsRemove(m - {j}, k);
      SumCountsRemove(m - {k}, j);
      assert m - {j} - {k} == m - {k} - {j};
    }
  }

  /** Counting one more occurrence of a key adds one to the sum. */
  lemma SumCountsIncrement(m: map<Option<string>, nat>, k: Option<string>)
    ensures SumCounts(m[k := (if k in m then m[k] else 0) + 1]) == SumCounts(m) + 1
  {
    var m' := m[k := (if k in m then m[k] else 0) + 1];
    SumCountsRemove(m', k);
    assert m' - {k} == m - {k};
    if k in m {
      SumCountsRemove(m, k);
    } else {
      assert m - {k} == m;
    }
  }

  /** One step of `ValueCounts` adds one to the sum exactly when the new cell is not null. */
  lemma ValueCountsStep(fd: Field, rows: seq<Case>)
    requires rows != []
    ensures SumCounts(ValueCounts(fd, rows)) ==
      SumCounts(ValueCounts(fd, rows[..|rows| - 1])) + (if FieldOf(fd, rows[|rows| - 1]).Some? then 1 else 0)
  {
    var m := ValueCounts(fd, rows[..|rows| - 1]);
    var k := FieldOf(fd, rows[|rows| - 1]);
    if k.Some? {
      assert ValueCounts(fd, rows) == m[k := (if k in m then m[k] else 0) + 1];
      SumCountsIncrement(m, k);
    } else {
      assert ValueCounts(fd, rows) == m;
    }
  }

  /** Every non-null cell is counted once: the counts sum to the non-null rows. */
  lemma {:induction false} ValueCountsSum(fd: Field, rows: seq<Case>)
    ensures SumCounts(ValueCounts(fd, rows)) == NonNullCells(fd, rows)
    decreases |rows|
  {
    if rows != [] {
      ValueCountsSum(fd, rows[..|rows| - 1]);
      ValueCountsStep(fd, rows);
      NonNullCellsSnoc(fd, rows);
    }
  }

  /** `_count_by_column`'s result: nothing when the column is missing, else the value counts. */
  function ColumnCounts(data: Frame, fd: Field): map<Option<string>, nat> {
    if FieldColumn(fd) !in data.columns then map[] else ValueCounts(fd, data.rows)
  }

  /**
   * The table of a present column has a key for each value some row holds and for nothing
   * else, counts the rows holding it, and its counts add up to the non-null rows.
   */
  lemma ColumnCountsSpec(data: Frame, fd: Field)
    ensures FieldColumn(fd) !in data.columns ==> ColumnCounts(data, fd) == map[]
    ensures FieldColumn(fd) in data.columns ==>
      forall v :: v in ColumnCounts(data, fd) <==> v.Some? && Occurrences(fd, v, data.rows) >= 1
    ensures FieldColumn(fd) in data.columns ==>
      forall v :: v in ColumnCounts(data, fd) ==> ColumnCounts(data, fd)[v] == Occurrences(fd, v, data.rows)
    ensures FieldColumn(fd) in data.columns ==> SumCounts(ColumnCounts(data, fd)) == NonNullCells(fd, data.rows)
  {
    forall v {
      ValueCountsAt(fd, data.rows, v);
    }
    ValueCountsSum(fd, data.rows);
  }

  /**
   * `_count_by_column`: the value counts of a column, with the null and NaN keys and a
   * zero "Unknown" count deleted. Null cells are never counted and every count is at least
   * one, so the deletions leave the table as it is.
   */
  method CountByColumn(data: Frame, fd: Field) returns (counts: map<Option<string>, nat>)
    ensures counts == ColumnCounts(data, fd)
    ensures None !in counts
  {
    if FieldColumn(fd) !in data.columns {
      return map[];
    }
    counts := ValueCounts(fd, data.rows);
    // None and NaN are both the null cell here.
    counts := counts - {None};
    if Some("Unknown") in counts && counts[Some("Unknown")] == 0 {
      counts := counts - {Some("Unknown")};
    }
  }

  /** `get_disposition_distribution`: the same steps as `_count_by_column` on Disposition_Type. */
  method DispositionDistribution(data: Frame) returns (counts: map<Option<string>, nat>)
    ensures counts == ColumnCounts(data, DispositionField)
  {
    if FieldColumn(DispositionField) !in data.columns {
      return map[];
    }
    counts := ValueCounts(DispositionField, data.rows);
    counts := counts - {None};
    if Some("Unknown") in counts && counts[Some("Unknown")] == 0 {
      counts := counts - {Some("Unknown")};
    }
  }

  // ---------------------------------------------------------------------------------------
  // Settlement rate

  const SettledWord: string := "settled"

  /** `str.contains('Settled', case=False, na=False)` on the disposition cell. */
  predicate IsSettled(c: Case) {
    c.disposition.Some? && Contains(Lower(c.disposition.value), SettledWord)
  }

  function SettledFn(): Case -> bool {
    (c: Case) => IsSettled(c)
  }

  /**
   * `_calculate_settlement_rate`: the percentage of rows whose disposition mentions
   * "settled"; 0 without a Disposition_Type column or without rows.
   */
  function SettlementRate(data: Frame): (r: real)
    ensures 0.0 <= r <= 100.0
    ensures FieldColumn(DispositionField) !in data.columns || data.rows == [] ==> r == 0.0
  {
    if FieldColumn(DispositionField) !in data.columns then 0.0
    else if |data.rows| == 0 then 0.0
    else
      var settled := |Filter(SettledFn(), data.rows)|;
      assert settled as real / |data.rows| as real <= 1.0;
      (settled as real / |data.rows| as real) * 100.0
  }

  /** A row the predicate rejects is missing from the selection, which is then shorter. */
  lemma {:induction false} FilterShorter<T>(p: T -> bool, s: seq<T>, i: nat)
    requires i < |s| && !p(s[i])
    ensures |Filter(p, s)| < |s|
  {
    if i == 0 {
      assert Filter(p, s) == Filter(p, s[1..]);
    } else {
      FilterShorter(p, s[1..], i - 1);
    }
  }

  /** A share of `n` scaled to a percentage is 100 exactly at `n` and 0 exactly at 0. */
  lemma PercentExtremes(settled: nat, n: nat)
    requires 0 < n && settled <= n
    ensures (settled as real / n as real) * 100.0 == 100.0 <==> settled == n
    ensures (settled as real / n as real) * 100.0 == 0.0 <==> settled == 0
  {
    var q := settled as real / n as real;
    assert q * n as real == settled as real;
  }

  /** The rate is 100 exactly when every row is settled, and 0 exactly when none is. */
  lemma SettlementRateExtremes(data: Frame)
    requires FieldColumn(DispositionField) in data.columns && data.rows != []
    ensures SettlementRate(data) == 100.0 <==> forall i :: 0 <= i < |data.rows| ==> IsSettled(data.rows[i])
    ensures SettlementRate(data) == 0.0 <==> forall i :: 0 <= i < |data.rows| ==> !IsSettled(data.rows[i])
  {
    var rows := data.rows;
    var settled := |Filter(SettledFn(), rows)|;
    PercentExtremes(settled, |rows|);
    assert settled == |rows| <==> forall i :: 0 <= i < |rows| ==> IsSettled(rows[i]) by {
      if forall i :: 0 <= i < |rows| ==> IsSettled(rows[i]) {
        FilterAll(SettledFn(), rows);
      } else {
        var i :| 0 <= i < |rows| && !IsSettled(rows[i]);
        FilterShorter(SettledFn(), rows, i);
      }
    }
    assert settled == 0 <==> forall i :: 0 <= i < |rows| ==> !IsSettled(rows[i]) by {
      if forall i :: 0 <= i < |rows| ==> !IsSettled(rows[i]) {
        FilterNone(SettledFn(), rows);
      } else {
        var i :| 0 <= i < |rows| && IsSettled(rows[i]);
        assert rows[i] in Filter(SettledFn(), rows);
      }
    }
  }

  // ---------------------------------------------------------------------------------------
  // Top arbitrators and respondents

  /** The non-null values of a column, each once, in the order they first appear. */
  function Distinct(fd: Field, rows: seq<Case>): (r: seq<string>)
    ensures forall i, j :: 0 <= i < j < |r| ==> r[i] != r[j]
    decreases |rows|
  {
    if rows == [] then []
    else
      var d := Distinct(fd, rows[..|rows| - 1]);
      match FieldOf(fd, rows[|rows| - 1])
      case None => d
      case Some(v) => if v in d then d else d + [v]
  }

  /** The distinct values are the keys of the value counts. */
  lemma {:induction false} DistinctKeys(fd: Field, rows: seq<Case>, v: string)
    ensures v in Distinct(fd, rows) <==> Some(v) in ValueCounts(fd, rows)
    decreases |rows|
  {
    if rows != [] {
      DistinctKeys(fd, rows[..|rows| - 1], v);
    }
  }

  /** The `(name, count)` pairs of the value counts. */
  function Pairs(fd: Field, rows: seq<Case>): seq<(string, int)> {
    Map((v: string) => (v, Occurrences(fd, Some(v), rows) as int), Distinct(fd, rows))
  }

  /** Each pair counts the rows holding its name, and each name is held by some row. */
  lemma PairsCount(fd: Field, rows: seq<Case>, p: (string, int))
    requires p in Pairs(fd, rows)
    ensures p.1 == Occurrences(fd, Some(p.0), rows) >= 1
  {
    var d := Distinct(fd, rows);
    var i :| 0 <= i < |d| && Pairs(fd, rows)[i] == p;
    DistinctKeys(fd, rows, d[i]);
    ValueCountsAt(fd, rows, Some(d[i]));
  }

  /**
   * The shared body of `get_top_arbitrators` and `get_top_respondents`: the value counts as
   * pairs, sorted by count from highest and cut to the first `n`; nothing without the column.
   */
  method TopByCount(data: Frame, fd: Field, n: int) returns (r: seq<(string, int)>)
    ensures FieldColumn(fd) !in data.columns ==> r == []
    ensures FieldColumn(fd) in data.columns ==> r == TopItems(Pairs(fd, data.rows), n)
    ensures n >= 0 ==> |r| <= n
    ensures NonIncreasing(r)
    ensures forall i :: 0 <= i < |r| ==> r[i].1 == Occurrences(fd, Some(r[i].0), data.rows) >= 1
  {
    if FieldColumn(fd) !in data.columns {
      return [];
    }
    var top := Pairs(fd, data.rows);
    top := SortDesc(top);
    r := TakePrefix(top, n);
    assert r == TopItems(Pairs(fd, data.rows), n);
    forall i | 0 <= i < |r| ensures r[i].1 == Occurrences(fd, Some(r[i].0), data.rows) >= 1 {
      assert r[i] in multiset(r);
      PairsCount(fd, data.rows, r[i]);
    }
  }

  /** `get_top_arbitrators`. */
  method TopArbitrators(data: Frame, n: int) returns (r: seq<(string, int)>)
    ensures FieldColumn(ArbitratorField) !in data.columns ==> r == []
    ensures n >= 0 ==> |r| <= n
    ensures NonIncreasing(r)
    ensures forall i :: 0 <= i < |r| ==>
      r[i].1 == Occurrences(ArbitratorField, Some(r[i].0), data.rows) >= 1
  {
    r := TopByCount(data, ArbitratorField, n);
  }

  /** `get_top_respondents`. */
  method TopRespondents(data: Frame, n: int) returns (r: seq<(string, int)>)
    ensures FieldColumn(RespondentField) !in data.columns ==> r == []
    ensures n >= 0 ==> |r| <= n
    ensures NonIncreasing(r)
    ensures forall i :: 0 <= i < |r| ==>
      r[i].1 == Occurrences(RespondentField, Some(r[i].0), data.rows) >= 1
  {
    r := TopByCount(data, RespondentField, n);
  }

  // ---------------------------------------------------------------------------------------
  // Per-arbitrator statistics and the headline metrics

  /** The count parts of `calculate_arbitrator_statistics`; a table is absent without its column. */
  datatype ArbitratorStats = ArbitratorStats(
    totalCases: nat,
    dispositionCounts: Option<map<Option<string>, nat>>,
    respondentCounts: Option<map<Option<string>, nat>>)

  /**
   * `calculate_arbitrator_statistics`: the rows whose Arbitrator_Name equals the name
   * exactly, counted and tabulated; `None` stands for the empty dictionary.
   */
  function ArbitratorStatistics(data: Frame, name: string): (r: Option<ArbitratorStats>)
    ensures r.None? <==>
      FieldColumn(ArbitratorField) !in data.columns ||
      forall i :: 0 <= i < |data.rows| ==> data.rows[i].arbitrator != Some(name)
    ensures r.Some? ==> r.value.totalCases == Occurrences(ArbitratorField, Some(name), data.rows) >= 1
    ensures r.Some? ==> (r.value.dispositionCounts.Some? <==> FieldColumn(DispositionField) in data.columns)
    ensures r.Some? ==> (r.value.respondentCounts.Some? <==> FieldColumn(RespondentField) in data.columns)
  {
    if FieldColumn(ArbitratorField) !in data.columns then None
    else
      var own := Filter(CellIs(ArbitratorField, Some(name)), data.rows);
      if own == [] then
        assert forall i :: 0 <= i < |data.rows| ==> data.rows[i].arbitrator != Some(name);
        None
      else
        assert exists i :: 0 <= i < |data.rows| && data.rows[i].arbitrator == Some(name) by {
          assert own[0] in own;
        }
        Some(ArbitratorStats(
          |own|,
          if FieldColumn(DispositionField) in data.columns then Some(ValueCounts(DispositionField, own)) else None,
          if FieldColumn(RespondentField) in data.columns then Some(ValueCounts(RespondentField, own)) else None))
  }

  /**
   * The respondent table counts the arbitrator's own rows by respondent, and its counts sum
   * to at most the arbitrator's total.
   */
  lemma ArbitratorRespondents(data: Frame, name: string, v: Option<string>)
    requires ArbitratorStatistics(data, name).Some?
    requires ArbitratorStatistics(data, name).value.respondentCounts.Some?
    ensures var s := ArbitratorStatistics(data, name).value;
      SumCounts(s.respondentCounts.value) <= s.totalCases &&
      (v in s.respondentCounts.value ==>
         s.respondentCounts.value[v] == Occurrences(RespondentField, v, Filter(CellIs(ArbitratorField, Some(name)), data.rows)))
  {
    var own := Filter(CellIs(ArbitratorField, Some(name)), data.rows);
    ValueCountsSum(RespondentField, own);
    ValueCountsAt(RespondentField, own, v);
  }

  /** The count parts of `calculate_metrics`. */
  datatype Metrics = Metrics(
    totalDisputes: nat,
    dispositionCounts: map<Option<string>, nat>,
    arbitratorCounts: map<Option<string>, nat>,
    respondentCounts: map<Option<string>, nat>,
    attorneyCounts: map<Option<string>, nat>,
    forumCounts: map<Option<string>, nat>,
    settlementRate: real)

  /** `calculate_metrics`: the number of disputes, the five count tables and the settlement rate. */
  method CalculateMetrics(data: Frame) returns (m: Metrics)
    ensures m.totalDisputes == |data.rows|
    ensures m.dispositionCounts == ColumnCounts(data, DispositionField)
    ensures m.arbitratorCounts == ColumnCounts(data, ArbitratorField)
    ensures m.respondentCounts == ColumnCounts(data, RespondentField)
    ensures m.attorneyCounts == ColumnCounts(data, AttorneyField)
    ensures m.forumCounts == ColumnCounts(data, ForumField)
    ensures 0.0 <= m.settlementRate <= 100.0 && m.settlementRate == SettlementRate(data)
  {
    var total := |data.rows|;
    var dispositions := CountByColumn(data, DispositionField);
    var arbitrators := CountByColumn(data, ArbitratorField);
    var respondents := CountByColumn(data, RespondentField);
    var attorneys := CountByColumn(data, AttorneyField);
    var forums := CountByColumn(data, ForumField);
    var rate := SettlementRate(data);
    m := Metrics(total, dispositions, arbitrators, respondents, attorneys, forums, rate);
  }
}
