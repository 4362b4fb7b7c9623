/**
 * `process_files`: every input file that is read and processed without raising is
 * normalised with the forum its name or content gives, the frames are concatenated,
 * duplicates are dropped, the frame is cleaned, the outcome flags and durations are
 * computed, and the result is saved to the case store, in batches of 500 rows when
 * there are more than 1000.
 */
module Pipeline {
  import opened Wrappers
  import opened Seqs
  import opened Records
  import opened Cleaners
  import opened Normalizer
  import opened Dedup
  import opened Enrich
  import opened Database
  import Utils

  /**
   * One input file: its path, the first rows of its first sheet as header and cell texts
   * when it can be previewed, and its sheet when it can be read (`None` when reading
   * raises, in which case the error is reported and the file skipped).
   */
  datatype InputFile = InputFile(path: string, preview: Option<(seq<string>, seq<string>)>, sheet: Option<RawTable>)

  /** The file is read, and `_process_dataframe` does not raise on it. */
  predicate Ingested(f: InputFile) {
    f.sheet.Some? && !DispositionRaises(DetermineSource(f.path, f.preview), f.sheet.value)
  }

  /** The normalised rows of an ingested file. */
  function FileRows(env: Env, f: InputFile): seq<Case> {
    if f.sheet.None? then [] else Normalize(env, DetermineSource(f.path, f.preview), f.sheet.value)
  }

  function Reader(env: Env): InputFile -> seq<Case> {
    f => FileRows(env, f)
  }

  /** `all_dataframes`: one frame per ingested file, in file order. */
  function Frames(env: Env, files: seq<InputFile>): seq<seq<Case>> {
    Map(Reader(env), Filter(Ingested, files))
  }

  /** `pd.concat(all_dataframes, ignore_index=True)` */
  function Combined(env: Env, files: seq<InputFile>): seq<Case> {
    Flatten(Frames(env, files))
  }

  /** The frame after duplicate handling and the final cleaning. */
  function Cleaned(env: Env, files: seq<InputFile>): seq<Case> {
    FinalCleaning(HandleDuplicates(Combined(env, files)))
  }

  /** The outcome flags, then the durations, of every row. */
  function Enriched(rows: seq<Case>): (r: seq<Case>)
    ensures |r| == |rows|
    ensures forall i :: 0 <= i < |rows| ==> r[i] == WithDuration(Prevailed(rows[i]))
  {
    Map(WithDuration, Map(Prevailed, rows))
  }

  /**
   * The duration enrichment stores is the dashboard's day difference: every enriched row
   * whose two dates are present carries `calculate_date_diff` of them, and every other
   * row keeps the duration it had.
   */
  lemma DurationIsDateDiff(rows: seq<Case>)
    ensures forall i :: 0 <= i < |rows| ==>
      var d := Utils.DateDiff(rows[i].dateFiled, rows[i].dateClosed);
      Enriched(rows)[i].duration == (if d.Some? then d else rows[i].duration)
  {
    forall i | 0 <= i < |rows|
      ensures var d := Utils.DateDiff(rows[i].dateFiled, rows[i].dateClosed);
        Enriched(rows)[i].duration == (if d.Some? then d else rows[i].duration)
    {
      var c := Prevailed(rows[i]);
      assert c.dateFiled == rows[i].dateFiled && c.dateClosed == rows[i].dateClosed;
      assert c.duration == rows[i].duration;
    }
  }

  /**
   * One file: its forum from its name or content, then `_process_dataframe`; nothing when
   * reading or processing raises, which `process_files` reports before going on.
   */
  method ReadFile(env: Env, f: InputFile) returns (rows: Option<seq<Case>>)
    ensures rows.None? <==> !Ingested(f)
    ensures rows.Some? ==> rows.value == FileRows(env, f)
  {
    if f.sheet.None? {
      return None;
    }
    var source := DetermineSource(f.path, f.preview);
    rows := ProcessDataframe(env, source, f.sheet.value);
  }

  /** The loop over the input files: a file that cannot be read or processed is skipped. */
  method CollectFrames(env: Env, files: seq<InputFile>) returns (frames: seq<seq<Case>>)
    ensures frames == Frames(env, files)
  {
    frames := [];
    var i := 0;
    while i < |files|
      invariant i <= |files|
      invariant frames == Frames(env, files[..i])
    {
      var frame := ReadFile(env, files[i]);
      if frame.Some? {
        assert Frames(env, files[..i + 1]) == frames + [frame.value] by {
          FilterSnoc(Ingested, files, i);
          MapConcat(Reader(env), Filter(Ingested, files[..i]), [files[i]]);
          assert Map(Reader(env), [files[i]]) == [frame.value];
        }
        frames := frames + [frame.value];
      } else {
        assert Frames(env, files[..i + 1]) == frames by {
          FilterSnoc(Ingested, files, i);
        }
      }
      i := i + 1;
    }
    assert files[..i] == files;
  }

  /** The combined frame of `process_files`, before saving; no frame at all gives an empty one. */
  method ProcessFiles(env: Env, files: seq<InputFile>) returns (rows: seq<Case>)
    ensures rows == Enriched(Cleaned(env, files))
  {
    var frames := CollectFrames(env, files);
    if frames == [] {
      assert HandleDuplicates([]) == [];
      return [];
    }
    var combined := Flatten(frames);
    CombinedNeverRaises(env, files);
    var deduped := HandleDuplicatesRun(combined);
    rows := EnrichRows(FinalCleaning(deduped.value));
  }

  /** The cleaned rows in a frame whose flag and duration columns are written in place. */
  method EnrichRows(cleaned: seq<Case>) returns (rows: seq<Case>)
    ensures rows == Enriched(cleaned)
  {
    var a := new Case[|cleaned|](k requires 0 <= k < |cleaned| => cleaned[k]);
    CalculatePrevailedFlags(a);
    CalculateCaseDuration(a);
    rows := a[..];
  }

  // ---------------------------------------------------------------- what the output satisfies

  /** A row as `_process_dataframe` leaves it: no flag set, and a standardised disposition. */
  ghost predicate Unflagged(c: Case) {
    !c.consumerPrevailed && !c.businessPrevailed
    && exists v :: c.disposition == StandardizeDisposition(v)
  }

  lemma NormalizedUnflagged(env: Env, source: Source, t: RawTable)
    ensures forall c :: c in Normalize(env, source, t) ==> c.caseId.Some? && Unflagged(c)
  {
    var res := Resolution(source, t.columns);
    var b := Built(env, source, t);
    forall c | c in Normalize(env, source, t) ensures c.caseId.Some? && Unflagged(c) {
      assert c in Filter(HasCaseId, b);
      var k :| 0 <= k < |b| && b[k] == c;
      BuiltAt(env, source, t, k);
      assert c.disposition == StandardizeDisposition(CleanText(env, Cell(t.rows[k], res[5])));
    }
  }

  /** Every combined row has a Case_ID and no flag yet. */
  lemma CombinedUnflagged(env: Env, files: seq<InputFile>)
    ensures forall c :: c in Combined(env, files) ==> c.caseId.Some? && Unflagged(c)
  {
    var ingested := Filter(Ingested, files);
    var frames := Frames(env, files);
    forall c | c in Combined(env, files) ensures c.caseId.Some? && Unflagged(c) {
      var k :| 0 <= k < |frames| && c in frames[k];
      var f := ingested[k];
      assert f in ingested;
      assert c in FileRows(env, f);
      NormalizedUnflagged(env, DetermineSource(f.path, f.preview), f.sheet.value);
    }
  }

  /** Every combined row has a Case_ID, so duplicate handling never raises on it. */
  lemma CombinedNeverRaises(env: Env, files: seq<InputFile>)
    ensures !NullIdsRaise(Combined(env, files))
  {
    var combined := Combined(env, files);
    CombinedUnflagged(env, files);
    forall i | 0 <= i < |combined| ensures combined[i].caseId.Some? {
      assert combined[i] in combined;
    }
  }

  /** Two rows with different Case_IDs, the first having one. */
  predicate IdsDiffer(x: Case, y: Case) {
    x.caseId.None? || x.caseId != y.caseId
  }

  /** Duplicate handling keeps only combined rows, and one per Case_ID. */
  lemma DedupedRows(env: Env, files: seq<InputFile>)
    ensures forall c :: c in HandleDuplicates(Combined(env, files)) ==> c.caseId.Some? && Unflagged(c)
    ensures KeysDistinct(CaseKey, HandleDuplicates(Combined(env, files)))
  {
    var combined := Combined(env, files);
    var byId := DedupPass(CaseKey, combined);
    CombinedUnflagged(env, files);
    forall c | c in HandleDuplicates(combined) ensures c in combined {
      var i :| 0 <= i < |byId| && KeepMask(TripleKey, NonNullCount, byId)[i] && byId[i] == c;
      assert byId[i] in byId;
    }
    HandleDuplicatesDistinctIds(combined);
  }

  /** The cleaned frame keeps one row per Case_ID, each filled in and flag-free. */
  lemma CleanedRows(env: Env, files: seq<InputFile>)
    ensures forall c :: c in Cleaned(env, files) ==>
      Filled(c) && ArbitratorNotBlank(c) && !c.consumerPrevailed && !c.businessPrevailed
      && exists v :: c.disposition == Some(StandardizeDisposition(v).GetOr(Unknown))
    ensures forall a, b :: 0 <= a < b < |Cleaned(env, files)| ==>
      IdsDiffer(Cleaned(env, files)[a], Cleaned(env, files)[b])
  {
    var d := HandleDuplicates(Combined(env, files));
    DedupedRows(env, files);
    forall c | c in FinalCleaning(d)
      ensures !c.consumerPrevailed && !c.businessPrevailed
      ensures exists v :: c.disposition == Some(StandardizeDisposition(v).GetOr(Unknown))
    {
      var i :| 0 <= i < |d| && c == FillUnknown(d[i]);
      assert d[i] in d;
      var v :| d[i].disposition == StandardizeDisposition(v);
    }
    var filled := Map(FillUnknown, d);
    forall a, b | 0 <= a < b < |filled| ensures IdsDiffer(filled[a], filled[b]) {
      assert d[a] in d && d[b] in d;
    }
    FilterPairwise(ArbitratorNotBlank, filled, IdsDiffer);
  }

  /**
   * What `process_files` returns: one row per Case_ID, every row with its six text
   * columns filled and an arbitrator that is not blank, and never both outcome flags set.
   */
  lemma ProcessFilesOutcome(env: Env, files: seq<InputFile>)
    ensures forall c :: c in Enriched(Cleaned(env, files)) ==>
      Filled(c) && ArbitratorNotBlank(c) && !(c.consumerPrevailed && c.businessPrevailed)
    ensures forall a, b :: 0 <= a < b < |Enriched(Cleaned(env, files))| ==>
      IdsDiffer(Enriched(Cleaned(env, files))[a], Enriched(Cleaned(env, files))[b])
  {
    var r := Cleaned(env, files);
    var e := Enriched(r);
    CleanedRows(env, files);
    forall c | c in e ensures Filled(c) && ArbitratorNotBlank(c) && !(c.consumerPrevailed && c.businessPrevailed) {
      var i :| 0 <= i < |e| && e[i] == c;
      assert r[i] in r;
      var v :| r[i].disposition == Some(StandardizeDisposition(v).GetOr(Unknown));
      FlagsExclusive(r[i], v);
    }
    forall a, b | 0 <= a < b < |e| ensures IdsDiffer(e[a], e[b]) {
      assert e[a].caseId == r[a].caseId && e[b].caseId == r[b].caseId;
    }
  }

  // ---------------------------------------------------------------- saving in batches

  /** The store after a sequence of `save_data` calls, with the counters of those that succeeded. */
  datatype Totals = Totals(store: Store, inserted: nat, updated: nat)

  const BatchSize: nat := 500
  const BatchThreshold: nat := 1000

  /**
   * The batch loop over the store rows: each batch of `size` rows (the last one shorter)
   * is saved on its own; a batch that fails leaves the store as it was and adds nothing.
   */
  function SaveBatches(store: Store, rows: seq<seq<Value>>, size: nat): Totals
    requires size > 0
    decreases |rows|
  {
    if rows == [] then Totals(store, 0, 0)
    else
      var n := if |rows| < size then |rows| else size;
      var batch := rows[..n];
      if AllKeyed(batch) then
        var ins := Inserted(store, batch);
        var rest := SaveBatches(Upserted(store, batch), rows[n..], size);
        Totals(rest.store, ins + rest.inserted, (n - ins) + rest.updated)
      else SaveBatches(store, rows[n..], size)
  }

  lemma AllKeyedSplit(rows: seq<seq<Value>>, n: nat)
    requires AllKeyed(rows) && n <= |rows|
    ensures AllKeyed(rows[..n]) && AllKeyed(rows[n..])
  {
    forall k | 0 <= k < |rows[n..]| ensures Key(rows[n..][k]) != Null {
      assert rows[n..][k] == rows[n + k];
    }
  }

  /** One batch of the loop: its outcome decides what it adds to the store and the counters. */
  lemma BatchStep(before: Store, after: Store, rows: seq<seq<Value>>, size: nat, i: nat, hi: nat, result: SaveResult)
    requires size > 0 && i < |rows| && hi == (if i + size < |rows| then i + size else |rows|)
    requires result.Failed? <==> !AllKeyed(rows[i..hi])
    requires result.Failed? ==> after == before
    requires result.Saved? ==>
      (after == Upserted(before, rows[i..hi]) && result.inserted == Inserted(before, rows[i..hi])
       && result.inserted + result.updated == hi - i)
    ensures SaveBatches(before, rows[i..], size).store == SaveBatches(after, rows[hi..], size).store
    ensures SaveBatches(before, rows[i..], size).inserted
      == (if result.Saved? then result.inserted else 0) + SaveBatches(after, rows[hi..], size).inserted
    ensures SaveBatches(before, rows[i..], size).updated
      == (if result.Saved? then result.updated else 0) + SaveBatches(after, rows[hi..], size).updated
  {
    var s := rows[i..];
    assert s[..hi - i] == rows[i..hi];
    assert s[hi - i..] == rows[hi..];
  }

  /** When no batch fails, saving in batches is saving everything at once. */
  lemma {:induction false} SaveBatchesAll(store: Store, rows: seq<seq<Value>>, size: nat)
    requires size > 0 && AllKeyed(rows)
    ensures SaveBatches(store, rows, size)
      == Totals(Upserted(store, rows), Inserted(store, rows), |rows| - Inserted(store, rows))
    decreases |rows|
  {
    if rows != [] {
      var n := if |rows| < size then |rows| else size;
      var batch, rest := rows[..n], rows[n..];
      AllKeyedSplit(rows, n);
      var after := Upserted(store, batch);
      SaveBatchesAll(after, rest, size);
      assert Upserted(after, rest) == Upserted(store, rows)
        && Inserted(store, rows) == Inserted(store, batch) + Inserted(after, rest) by {
        SplitJoin(rows, n);
        UpsertedConcat(store, batch, rest);
      }
    }
  }

  /** What the save step of `process_files` reports. */
  datatype DbResult = Single(result: SaveResult) | Chunked(inserted: nat, updated: nat)

  /** The batch loop: `save_data` on each slice of 500 rows, summing the successful counters. */
  method SaveInBatches(db: CaseStore, t: Table) returns (inserted: nat, updated: nat)
    requires t.WellFormed()
    modifies db
    ensures SaveBatches(old(db.cases), Rows(ToDb(t)), BatchSize) == Totals(db.cases, inserted, updated)
  {
    ghost var rows := Rows(ToDb(t));
    ghost var goal := SaveBatches(db.cases, rows, BatchSize);
    ghost var copied := AnyCopied(t, AppNames);
    inserted, updated := 0, 0;
    var i := 0;
    while i < t.height
      invariant i <= t.height
      invariant copied ==> goal.store == SaveBatches(db.cases, rows[i..], BatchSize).store
      invariant copied ==> goal.inserted == inserted + SaveBatches(db.cases, rows[i..], BatchSize).inserted
      invariant copied ==> goal.updated == updated + SaveBatches(db.cases, rows[i..], BatchSize).updated
      invariant !copied ==> goal == Totals(db.cases, inserted, updated)
      decreases t.height - i
    {
      var hi := if i + BatchSize < t.height then i + BatchSize else t.height;
      ghost var before := db.cases;
      var result := db.SaveData(Slice(t, i, hi));
      ToDbSlice(t, i, hi);
      if copied {
        BatchStep(before, db.cases, rows, BatchSize, i, hi, result);
      } else {
        assert Upserted(before, []) == before && Inserted(before, []) == 0;
      }
      if result.Saved? {
        inserted := inserted + result.inserted;
        updated := updated + result.updated;
      }
      i := hi;
    }
    if copied {
      assert rows[i..] == [];
    }
  }

  /** `save_data` on the whole frame, or in batches of 500 rows when it has more than 1000. */
  method SaveToDb(db: CaseStore, t: Table) returns (r: DbResult)
    requires t.WellFormed()
    modifies db
    ensures t.height > BatchThreshold <==> r.Chunked?
    ensures r.Chunked? ==> SaveBatches(old(db.cases), Rows(ToDb(t)), BatchSize) == Totals(db.cases, r.inserted, r.updated)
    ensures r.Single? ==> (r.result.Failed? <==> !AllKeyed(Rows(ToDb(t))))
    ensures r.Single? && r.result.Failed? ==> db.cases == old(db.cases)
    ensures r.Single? && r.result.Saved? ==>
      (db.cases == Upserted(old(db.cases), Rows(ToDb(t)))
       && r.result.inserted == Inserted(old(db.cases), Rows(ToDb(t)))
       && r.result.inserted + r.result.updated == r.result.total == ToDb(t).height)
  {
    if t.height > BatchThreshold {
      var inserted, updated := SaveInBatches(db, t);
      r := Chunked(inserted, updated);
    } else {
      var result := db.SaveData(t);
      r := Single(result);
    }
  }
}
