/**
 * Duplicate handling on the combined data frame (`_handle_duplicates`). Two passes, each
 * grouping rows by a key and keeping, in every group, the most complete row: the first
 * row (in frame order) with the largest number of non-null standard columns. A row whose
 * triple key has a null part belongs to no group and is never dropped. A null Case_ID is
 * never dropped either, except that two or more of them beside a present one make the
 * Case_ID pass raise (`NullIdsRaise`).
 */
module Dedup {
  import opened Wrappers
  import opened Seqs
  import opened Records

  /** The first pass groups by Case_ID. */
  function CaseKey(c: Case): Option<string> {
    c.caseId
  }

  /** The key of the second pass: arbitrator, respondent and filing date. */
  datatype Triple = Triple(arbitrator: string, respondent: string, filed: int)

  /** `groupby` over the triple drops every row with a null part of its key. */
  function TripleKey(c: Case): (r: Option<Triple>)
    ensures r.Some? <==> c.arbitrator.Some? && c.respondent.Some? && c.dateFiled.Some?
  {
    if c.arbitrator.Some? && c.respondent.Some? && c.dateFiled.Some? then
      Some(Triple(c.arbitrator.value, c.respondent.value, c.dateFiled.value))
    else None
  }

  /**
   * `completeness.idxmax()` over the rows among the first `n` whose key is `k`: the
   * first row of maximal non-null count, or nothing when the group is empty.
   */
  function BestIn<K(==)>(key: Case -> Option<K>, score: Case -> nat, rows: seq<Case>, k: K, n: nat): (b: Option<nat>)
    requires n <= |rows|
    ensures b.None? <==> forall j :: 0 <= j < n ==> key(rows[j]) != Some(k)
    ensures b.Some? ==> b.value < n && key(rows[b.value]) == Some(k)
  {
    if n == 0 then None
    else
      var b := BestIn(key, score, rows, k, n - 1);
      if key(rows[n - 1]) != Some(k) then b
      else if b.None? || score(rows[n - 1]) > score(rows[b.value]) then Some(n - 1)
      else b
  }

  /** The chosen row is at least as complete as every row of its group, and strictly more than those before it. */
  lemma {:induction false} BestInIsFirstMax<K>(key: Case -> Option<K>, score: Case -> nat, rows: seq<Case>, k: K, n: nat)
    requires n <= |rows| && BestIn(key, score, rows, k, n).Some?
    ensures var b := BestIn(key, score, rows, k, n).value;
      && (forall j :: 0 <= j < n && key(rows[j]) == Some(k) ==> score(rows[j]) <= score(rows[b]))
      && (forall j :: 0 <= j < b && key(rows[j]) == Some(k) ==> score(rows[j]) < score(rows[b]))
  {
    var b := BestIn(key, score, rows, k, n - 1);
    if b.Some? {
      BestInIsFirstMax(key, score, rows, k, n - 1);
    }
  }

  /** Row `j` survives a pass: its key has a null part, or it is its group's most complete row. */
  predicate Survives<K(==)>(key: Case -> Option<K>, score: Case -> nat, rows: seq<Case>, j: nat)
    requires j < |rows|
  {
    key(rows[j]).None? || BestIn(key, score, rows, key(rows[j]).value, |rows|) == Some(j)
  }

  function KeepMask<K(==)>(key: Case -> Option<K>, score: Case -> nat, rows: seq<Case>): (m: seq<bool>)
    ensures |m| == |rows|
    ensures forall j :: 0 <= j < |rows| ==> m[j] == Survives(key, score, rows, j)
  {
    seq(|rows|, j requires 0 <= j < |rows| => Survives(key, score, rows, j))
  }

  /** One deduplication pass: the surviving rows in their original order. */
  function DedupPass<K(==)>(key: Case -> Option<K>, rows: seq<Case>): seq<Case> {
    Select(rows, KeepMask(key, NonNullCount, rows))
  }

  /** Both passes, Case_ID first, as they run when the Case_ID pass does not raise. */
  function HandleDuplicates(rows: seq<Case>): seq<Case> {
    DedupPass(TripleKey, DedupPass(CaseKey, rows))
  }

  // ---------------------------------------------------------------- the drop loops

  /** The `idxmax` scan over one group. */
  method MostComplete<K(==)>(key: Case -> Option<K>, score: Case -> nat, rows: seq<Case>, k: K) returns (best: Option<nat>)
    ensures best == BestIn(key, score, rows, k, |rows|)
  {
    best := None;
    var j := 0;
    while j < |rows|
      invariant j <= |rows|
      invariant best == BestIn(key, score, rows, k, j)
    {
      if key(rows[j]) == Some(k) {
        var count := score(rows[j]);
        if best.None? || count > score(rows[best.value]) {
          best := Some(j);
        }
      }
      j := j + 1;
    }
  }

  /** `df.drop(to_drop)` for one group: unmarks every row of key `k` except `best`. */
  method DropGroup<K(==)>(key: Case -> Option<K>, rows: seq<Case>, keep: seq<bool>, k: K, best: nat)
    returns (kept: seq<bool>)
    requires |keep| == |rows|
    ensures |kept| == |rows|
    ensures forall j :: 0 <= j < |rows| ==> kept[j] == (keep[j] && (key(rows[j]) != Some(k) || j == best))
  {
    kept := keep;
    var j := 0;
    while j < |rows|
      invariant j <= |rows| && |kept| == |rows|
      invariant forall i :: 0 <= i < j ==> kept[i] == (keep[i] && (key(rows[i]) != Some(k) || i == best))
      invariant forall i :: j <= i < |rows| ==> kept[i] == keep[i]
    {
      if key(rows[j]) == Some(k) && j != best {
        kept := kept[j := false];
      }
      j := j + 1;
    }
  }

  /** Some row before position `g` shares row `j`'s key: `j`'s group has been visited. */
  predicate Visited<K(==)>(key: Case -> Option<K>, rows: seq<Case>, j: nat, g: nat)
    requires j < |rows| && g <= |rows|
  {
    exists i :: 0 <= i < g && key(rows[i]) == key(rows[j])
  }

  /**
   * One pass as the source runs it: for each duplicated key, in order of first
   * appearance, find the most complete row and drop the rest of the group.
   */
  method DropDuplicates<K(==)>(key: Case -> Option<K>, rows: seq<Case>) returns (out: seq<Case>)
    ensures out == DedupPass(key, rows)
  {
    var score := NonNullCount;
    var keep := seq(|rows|, _ => true);
    var g := 0;
    while g < |rows|
      invariant g <= |rows| && |keep| == |rows|
      invariant forall j :: 0 <= j < |rows| ==>
        keep[j] == (key(rows[j]).None? || !Visited(key, rows, j, g) || Survives(key, score, rows, j))
    {
      var k := key(rows[g]);
      var first := forall i :: 0 <= i < g ==> key(rows[i]) != k;
      var duplicated := exists i :: 0 <= i < |rows| && i != g && key(rows[i]) == k;
      if k.Some? && first && duplicated {
        var best := MostComplete(key, score, rows, k.value);
        var keep' := DropGroup(key, rows, keep, k.value, best.value);
        forall j | 0 <= j < |rows|
          ensures keep'[j] == (key(rows[j]).None? || !Visited(key, rows, j, g + 1) || Survives(key, score, rows, j))
        {
          if key(rows[j]) == k {
            assert Visited(key, rows, j, g + 1) by { assert key(rows[g]) == key(rows[j]); }
            assert !Visited(key, rows, j, g);
          } else {
            assert Visited(key, rows, j, g + 1) == Visited(key, rows, j, g);
          }
        }
        keep := keep';
      } else {
        forall j | 0 <= j < |rows|
          ensures keep[j] == (key(rows[j]).None? || !Visited(key, rows, j, g + 1) || Survives(key, score, rows, j))
        {
          if Visited(key, rows, j, g + 1) && !Visited(key, rows, j, g) {
            var i :| 0 <= i < g + 1 && key(rows[i]) == key(rows[j]);
            assert i == g;
            if k.Some? {
              assert first;
              assert j == g;
              var b := BestIn(key, score, rows, k.value, |rows|);
              assert b.Some? && key(rows[b.value]) == k;
              assert b.value == g;
            }
          }
        }
      }
      g := g + 1;
    }
    forall j | 0 <= j < |rows|
      ensures keep[j] == Survives(key, score, rows, j)
    {
      assert Visited(key, rows, j, |rows|) by { assert key(rows[j]) == key(rows[j]); }
    }
    assert keep == KeepMask(key, score, rows);
    out := Select(rows, keep);
  }

  /**
   * The Case_ID pass raises. It runs once some Case_ID is present; `duplicated` counts
   * two null Case_IDs as duplicates of each other, so the null id is among the ids the
   * loop visits; its `==` mask selects no row, and `idxmax` of the empty selection raises.
   */
  predicate NullIdsRaise(rows: seq<Case>) {
    && (exists i :: 0 <= i < |rows| && rows[i].caseId.Some?)
    && (exists i, j :: 0 <= i < j < |rows| && rows[i].caseId.None? && rows[j].caseId.None?)
  }

  /** Both passes, as `_handle_duplicates` runs them; nothing when the Case_ID pass raises. */
  method HandleDuplicatesRun(rows: seq<Case>) returns (out: Option<seq<Case>>)
    ensures out.None? <==> NullIdsRaise(rows)
    ensures out.Some? ==> out.value == HandleDuplicates(rows)
  {
    if NullIdsRaise(rows) {
      return None;
    }
    var byId := DropDuplicates(CaseKey, rows);
    var both := DropDuplicates(TripleKey, byId);
    out := Some(both);
  }

  // ---------------------------------------------------------------- properties

  /** Reference definition: row `i` is the first row of maximal completeness in its group. */
  predicate IsFirstMax<K(==)>(key: Case -> Option<K>, rows: seq<Case>, i: nat)
    requires i < |rows|
  {
    && (forall j :: 0 <= j < |rows| && key(rows[j]) == key(rows[i]) ==> NonNullCount(rows[j]) <= NonNullCount(rows[i]))
    && (forall j :: 0 <= j < i && key(rows[j]) == key(rows[i]) ==> NonNullCount(rows[j]) < NonNullCount(rows[i]))
  }

  /** The loop's choice agrees with the reference definition. */
  lemma SurvivesIff<K>(key: Case -> Option<K>, rows: seq<Case>, i: nat)
    requires i < |rows|
    ensures Survives(key, NonNullCount, rows, i) <==> key(rows[i]).None? || IsFirstMax(key, rows, i)
  {
    if key(rows[i]).Some? {
      var k := key(rows[i]).value;
      BestInIsFirstMax(key, NonNullCount, rows, k, |rows|);
    }
  }

  /** The rows a pass keeps are exactly the null-keyed rows and each group's first most complete row. */
  lemma DedupPassMembers<K>(key: Case -> Option<K>, rows: seq<Case>)
    ensures forall i :: 0 <= i < |rows| && (key(rows[i]).None? || IsFirstMax(key, rows, i)) ==>
      rows[i] in DedupPass(key, rows)
    ensures forall x :: x in DedupPass(key, rows) ==>
      exists i :: 0 <= i < |rows| && rows[i] == x && (key(rows[i]).None? || IsFirstMax(key, rows, i))
  {
    forall i | 0 <= i < |rows|
      ensures Survives(key, NonNullCount, rows, i) <==> key(rows[i]).None? || IsFirstMax(key, rows, i)
    {
      SurvivesIff(key, rows, i);
    }
  }

  /** Every group keeps a row: the first most complete one. */
  lemma DedupPassKeepsGroup<K>(key: Case -> Option<K>, rows: seq<Case>, j: nat)
    requires j < |rows| && key(rows[j]).Some?
    ensures exists b :: (0 <= b < |rows| && key(rows[b]) == key(rows[j]) && IsFirstMax(key, rows, b)
      && rows[b] in DedupPass(key, rows))
  {
    var b := BestIn(key, NonNullCount, rows, key(rows[j]).value, |rows|).value;
    SurvivesIff(key, rows, b);
    assert Survives(key, NonNullCount, rows, b);
  }

  /** No two rows share a non-null key. */
  predicate KeysDistinct<K(==)>(key: Case -> Option<K>, s: seq<Case>) {
    forall a, b :: 0 <= a < b < |s| && key(s[a]).Some? ==> key(s[a]) != key(s[b])
  }

  /** After a pass, each group has exactly one row left. */
  lemma DedupPassDistinct<K>(key: Case -> Option<K>, rows: seq<Case>)
    ensures KeysDistinct(key, DedupPass(key, rows))
  {
    var m := KeepMask(key, NonNullCount, rows);
    var differ := (x: Case, y: Case) => key(x).None? || key(x) != key(y);
    SelectPairwise(rows, m, differ);
  }

  lemma DedupPassSubseq<K>(key: Case -> Option<K>, rows: seq<Case>)
    ensures SubseqOf(DedupPass(key, rows), rows)
  {
    SelectSubseq(rows, KeepMask(key, NonNullCount, rows));
  }

  /** Duplicate handling only deletes rows and never reorders them. */
  lemma HandleDuplicatesSubseq(rows: seq<Case>)
    ensures SubseqOf(HandleDuplicates(rows), rows)
  {
    var byId := DedupPass(CaseKey, rows);
    DedupPassSubseq(CaseKey, rows);
    DedupPassSubseq(TripleKey, byId);
    SubseqTrans(HandleDuplicates(rows), byId, rows);
  }

  /** The second pass cannot reintroduce a repeated Case_ID. */
  lemma HandleDuplicatesDistinctIds(rows: seq<Case>)
    ensures KeysDistinct(CaseKey, HandleDuplicates(rows))
  {
    var byId := DedupPass(CaseKey, rows);
    DedupPassDistinct(CaseKey, rows);
    var differ := (x: Case, y: Case) => CaseKey(x).None? || CaseKey(x) != CaseKey(y);
    SelectPairwise(byId, KeepMask(TripleKey, NonNullCount, byId), differ);
  }
}
