/**
 * The persistence adapter: the renaming between the application's column names and the
 * store's (`_map_dataframe_to_db`, `_map_db_to_dataframe`) and the upsert of `save_data`,
 * over a store modelled as a map from case_id to the stored row.
 */
module Database {
  import opened Wrappers
  import opened Seqs
  import opened Text
  import opened Records
  import opened ColumnMapping

  /** A column-major data frame: `names[j]` heads the column `cells[j]`; every column has `height` cells. */
  datatype Table = Table(height: nat, names: seq<string>, cells: seq<seq<Value>>) {
    predicate WellFormed() {
      |names| == |cells| && forall j :: 0 <= j < |cells| ==> |cells[j]| == height
    }
  }

  /** The application columns the store knows, in mapping order. */
  const AppNames: seq<string> := [
    "Case_ID", "Date_Filed", "Respondent_Name", "Consumer_Rep_Firm",
    "Consumer_Attorney", "Arbitrator_Name", "Forum", "Claim_Amount",
    "Award_Amount", "Disposition_Type", "Consumer_Prevailed", "Business_Prevailed",
    "Decision_Date", "Case_Duration_Days", "Source", "Notes"]

  /** The store's column for each entry of `AppNames`. */
  const DbNames: seq<string> := [
    "case_id", "date_filed", "respondent_name", "consumer_rep_firm",
    "consumer_attorney", "arbitrator_name", "forum", "claim_amount",
    "award_amount", "disposition_type", "consumer_prevailed", "business_prevailed",
    "decision_date", "case_duration_days", "source", "notes"]

  function Nulls(n: nat): (r: seq<Value>)
    ensures |r| == n && forall i :: 0 <= i < n ==> r[i] == Null
  {
    seq(n, _ => Null)
  }

  /**
   * The column copied into the store's column for `name`: the column named exactly
   * `name`, else the first whose lower-case form matches, else none.
   */
  function AppColumn(t: Table, name: string): (r: Option<nat>)
    requires t.WellFormed()
    ensures r.Some? ==> r.value < |t.names|
    ensures name in t.names ==> r.Some? && t.names[r.value] == name
    ensures name !in t.names ==> (r.None? <==> forall j :: 0 <= j < |t.names| ==> Lower(t.names[j]) != Lower(name))
    ensures name !in t.names && r.Some? ==>
      Lower(t.names[r.value]) == Lower(name) && forall j :: 0 <= j < r.value ==> Lower(t.names[j]) != Lower(name)
  {
    if name in t.names then IndexOf(t.names, name)
    else FirstIndex((c: string) => Lower(c) == Lower(name), t.names)
  }

  /** Some name of the mapping finds a column of `t` to copy. */
  predicate AnyCopied(t: Table, apps: seq<string>)
    requires t.WellFormed()
  {
    exists i :: 0 <= i < |apps| && AppColumn(t, apps[i]).Some?
  }

  /**
   * The number of rows of the copy. `pd.DataFrame()` starts without rows; the first
   * column copied into it gives it the frame's rows, while a column set to the scalar
   * `None` adds none. A frame none of whose columns is copied maps to a copy without rows.
   */
  function CopiedHeight(t: Table, apps: seq<string>): nat
    requires t.WellFormed()
  {
    if AnyCopied(t, apps) then t.height else 0
  }

  /** The store column for `name` in a copy of `height` rows. */
  function DbColumn(t: Table, name: string, height: nat): seq<Value>
    requires t.WellFormed()
  {
    var j := AppColumn(t, name);
    if j.Some? then t.cells[j.value] else Nulls(height)
  }

  /** The forward renaming for a mapping from application names `apps` to store names `dbs`. */
  function Copied(t: Table, apps: seq<string>, dbs: seq<string>): (db: Table)
    requires t.WellFormed() && |apps| == |dbs|
    ensures db.WellFormed() && db.names == dbs
    ensures db.height == if AnyCopied(t, apps) then t.height else 0
  {
    var h := CopiedHeight(t, apps);
    Table(h, dbs, seq(|apps|, i requires 0 <= i < |apps| => DbColumn(t, apps[i], h)))
  }

  /**
   * `_map_dataframe_to_db`: all sixteen store columns, in mapping order, over the frame's
   * rows when at least one application column is found and over no rows otherwise.
   */
  function ToDb(t: Table): (db: Table)
    requires t.WellFormed()
    ensures db.WellFormed() && db.names == DbNames
    ensures db.height == if AnyCopied(t, AppNames) then t.height else 0
  {
    Copied(t, AppNames, DbNames)
  }

  /** The inner `for ... else` loop: the first column whose lower-case form is `name`'s. */
  method FindLower(names: seq<string>, name: string) returns (r: Option<nat>)
    ensures r == FirstIndex((c: string) => Lower(c) == Lower(name), names)
  {
    var j := 0;
    while j < |names|
      invariant j <= |names|
      invariant forall k :: 0 <= k < j ==> Lower(names[k]) != Lower(name)
    {
      if Lower(names[j]) == Lower(name) {
        return Some(j);
      }
      j := j + 1;
    }
    return None;
  }

  /** One step of the outer loop: the exact column, else the case-insensitive one. */
  method FindColumn(t: Table, name: string) returns (found: Option<nat>)
    requires t.WellFormed()
    ensures found == AppColumn(t, name)
  {
    found := IndexOf(t.names, name);
    if found.None? {
      found := FindLower(t.names, name);
    }
  }

  /** A mapping one name longer copies something exactly when the shorter one did or the new name does. */
  lemma AnyCopiedSnoc(t: Table, names: seq<string>, i: nat)
    requires t.WellFormed() && i < |names|
    ensures AnyCopied(t, names[..i + 1]) <==> AnyCopied(t, names[..i]) || AppColumn(t, names[i]).Some?
  {
    var longer, shorter := names[..i + 1], names[..i];
    if AnyCopied(t, longer) {
      var k :| 0 <= k < |longer| && AppColumn(t, longer[k]).Some?;
      if k < i {
        assert shorter[k] == longer[k];
      }
    }
    if AnyCopied(t, shorter) {
      var k :| 0 <= k < |shorter| && AppColumn(t, shorter[k]).Some?;
      assert longer[k] == shorter[k];
    }
    if AppColumn(t, names[i]).Some? {
      assert longer[i] == names[i];
    }
  }

  /**
   * One assignment into the copy. The first column copied into a copy without rows gives
   * it the frame's rows, and the columns set to `None` before it are widened to nulls.
   */
  method CopyStep(t: Table, names: seq<string>, i: nat, height: nat, cells: seq<seq<Value>>)
    returns (height': nat, cells': seq<seq<Value>>)
    requires t.WellFormed() && i < |names| && |cells| == i
    requires height == CopiedHeight(t, names[..i])
    requires forall k :: 0 <= k < i ==> cells[k] == DbColumn(t, names[k], height)
    ensures height' == CopiedHeight(t, names[..i + 1]) && |cells'| == i + 1
    ensures forall k :: 0 <= k <= i ==> cells'[k] == DbColumn(t, names[k], height')
  {
    AnyCopiedSnoc(t, names, i);
    var found := FindColumn(t, names[i]);
    height', cells' := height, cells;
    if found.Some? {
      if height == 0 && t.height > 0 {
        forall k | 0 <= k < i ensures AppColumn(t, names[k]).None? {
          assert names[..i][k] == names[k];
        }
        cells' := seq(i, _ => Nulls(t.height));
        height' := t.height;
      }
      cells' := cells' + [t.cells[found.value]];
    } else {
      cells' := cells' + [Nulls(height)];
    }
  }

  /** The outer loop over the mapping's application names. */
  method CopyColumns(t: Table, names: seq<string>) returns (height: nat, cells: seq<seq<Value>>)
    requires t.WellFormed()
    ensures height == CopiedHeight(t, names)
    ensures |cells| == |names|
    ensures forall k :: 0 <= k < |names| ==> cells[k] == DbColumn(t, names[k], height)
  {
    height, cells := 0, [];
    var i := 0;
    while i < |names|
      invariant i <= |names| && |cells| == i
      invariant height == CopiedHeight(t, names[..i])
      invariant forall k :: 0 <= k < i ==> cells[k] == DbColumn(t, names[k], height)
    {
      height, cells := CopyStep(t, names, i, height, cells);
      i := i + 1;
    }
    assert names[..i] == names;
  }

  method MapDataframeToDb(t: Table) returns (db: Table)
    requires t.WellFormed()
    ensures db == ToDb(t)
  {
    var height, cells := CopyColumns(t, AppNames);
    assert cells == ToDb(t).cells;
    db := Table(height, DbNames, cells);
  }

  /**
   * `_map_db_to_dataframe` over the first `n` entries of a mapping from the store's names
   * `dbs` to the application's names `apps`: each present store column, renamed, in mapping order.
   */
  function Renamed(t: Table, dbs: seq<string>, apps: seq<string>, n: nat): (r: Table)
    requires t.WellFormed() && n <= |dbs| == |apps|
    ensures r.WellFormed() && r.height == t.height
  {
    if n == 0 then Table(t.height, [], [])
    else
      var r := Renamed(t, dbs, apps, n - 1);
      var j := IndexOf(t.names, dbs[n - 1]);
      if j.Some? then Table(t.height, r.names + [apps[n - 1]], r.cells + [t.cells[j.value]]) else r
  }

  function FromDb(t: Table): Table
    requires t.WellFormed()
  {
    Renamed(t, DbNames, AppNames, |DbNames|)
  }

  /** The renaming loop over a mapping. */
  method RenameColumns(t: Table, dbs: seq<string>, apps: seq<string>) returns (app: Table)
    requires t.WellFormed() && |dbs| == |apps|
    ensures app == Renamed(t, dbs, apps, |dbs|)
  {
    app := Table(t.height, [], []);
    var i := 0;
    while i < |dbs|
      invariant i <= |dbs|
      invariant app == Renamed(t, dbs, apps, i)
    {
      var j := IndexOf(t.names, dbs[i]);
      if j.Some? {
        app := Table(t.height, app.names + [apps[i]], app.cells + [t.cells[j.value]]);
      }
      i := i + 1;
    }
  }

  method MapDbToDataframe(t: Table) returns (app: Table)
    requires t.WellFormed()
    ensures app == FromDb(t)
  {
    app := RenameColumns(t, DbNames, AppNames);
  }

  // ---------------------------------------------------------------- the round trip

  /** Each store column comes from the exact application column, else a case-insensitive one, else nulls. */
  lemma ToDbColumns(t: Table)
    requires t.WellFormed()
    ensures forall i :: 0 <= i < |AppNames| && AppNames[i] in t.names ==>
      exists j :: 0 <= j < |t.names| && t.names[j] == AppNames[i] && ToDb(t).cells[i] == t.cells[j]
    ensures forall i :: 0 <= i < |AppNames| && AppNames[i] !in t.names ==>
      ((exists j :: 0 <= j < |t.names| && Lower(t.names[j]) == Lower(AppNames[i]) && ToDb(t).cells[i] == t.cells[j])
       || ((forall j :: 0 <= j < |t.names| ==> Lower(t.names[j]) != Lower(AppNames[i])) && ToDb(t).cells[i] == Nulls(ToDb(t).height)))
  {
    forall i | 0 <= i < |AppNames|
      ensures ToDb(t).cells[i] == DbColumn(t, AppNames[i], ToDb(t).height)
    {
    }
  }

  /** A frame with a Case_ID column, in any case, keeps all its rows in the store's copy. */
  lemma ToDbKeepsRows(t: Table, j: nat)
    requires t.WellFormed() && j < |t.names| && Lower(t.names[j]) == Lower(AppNames[0])
    ensures ToDb(t).height == t.height
  {
    assert AppColumn(t, AppNames[0]).Some?;
  }

  /**
   * A frame none of whose columns the store knows, in any case, maps to a copy without
   * rows: `save_data` then stores nothing and reports success.
   */
  lemma NothingToCopy(t: Table, store: Store)
    requires t.WellFormed()
    requires forall i, j :: 0 <= i < |AppNames| && 0 <= j < |t.names| ==> Lower(t.names[j]) != Lower(AppNames[i])
    ensures Rows(ToDb(t)) == [] && AllKeyed(Rows(ToDb(t)))
    ensures Upserted(store, Rows(ToDb(t))) == store && Inserted(store, Rows(ToDb(t))) == 0
  {
    assert forall i :: 0 <= i < |AppNames| ==> AppColumn(t, AppNames[i]).None?;
  }

  predicate Distinct(s: seq<string>) {
    forall i, j :: 0 <= i < j < |s| ==> s[i] != s[j]
  }

  lemma DbNamesDistinct()
    ensures Distinct(DbNames)
  {
  }

  lemma IndexOfDistinct(s: seq<string>, k: nat)
    requires Distinct(s) && k < |s|
    ensures IndexOf(s, s[k]) == Some(k)
  {
  }

  /** One step of the renaming when the store column is found at `j`. */
  lemma RenamedStep(t: Table, dbs: seq<string>, apps: seq<string>, n: nat, j: nat)
    requires t.WellFormed() && 0 < n <= |dbs| == |apps|
    requires IndexOf(t.names, dbs[n - 1]) == Some(j)
    ensures Renamed(t, dbs, apps, n).names == Renamed(t, dbs, apps, n - 1).names + [apps[n - 1]]
    ensures Renamed(t, dbs, apps, n).cells == Renamed(t, dbs, apps, n - 1).cells + [t.cells[j]]
  {
  }

  /** Renaming a frame whose columns are exactly the distinct store names keeps every column, in order. */
  lemma {:induction false} RenamedAll(t: Table, dbs: seq<string>, apps: seq<string>, n: nat)
    requires t.WellFormed() && t.names == dbs && n <= |dbs| == |apps|
    requires Distinct(dbs)
    ensures Renamed(t, dbs, apps, n).names == apps[..n]
    ensures Renamed(t, dbs, apps, n).cells == t.cells[..n]
  {
    if n > 0 {
      RenamedAll(t, dbs, apps, n - 1);
      IndexOfDistinct(dbs, n - 1);
      RenamedStep(t, dbs, apps, n, n - 1);
      PrefixSnoc(apps, n);
      PrefixSnoc(t.cells, n);
    }
  }

  lemma PrefixSnoc<T>(s: seq<T>, n: nat)
    requires 0 < n <= |s|
    ensures s[..n] == s[..n - 1] + [s[n - 1]]
  {
  }

  /** For any mapping with distinct store names, the backward renaming undoes the forward one. */
  lemma RenameBack(t: Table, apps: seq<string>, dbs: seq<string>)
    requires t.WellFormed() && |apps| == |dbs| && Distinct(dbs)
    ensures Renamed(Copied(t, apps, dbs), dbs, apps, |dbs|) == Table(Copied(t, apps, dbs).height, apps, Copied(t, apps, dbs).cells)
  {
    var db := Copied(t, apps, dbs);
    RenamedAll(db, dbs, apps, |dbs|);
    assert apps[..|dbs|] == apps;
    assert db.cells[..|dbs|] == db.cells;
  }

  /**
   * Saving then loading renames the sixteen store columns back to their application
   * names, in mapping order, with the cells the forward mapping copied.
   */
  lemma RoundTrip(t: Table)
    requires t.WellFormed()
    ensures FromDb(ToDb(t)) == Table(ToDb(t).height, AppNames, ToDb(t).cells)
  {
    DbNamesDistinct();
    RenameBack(t, AppNames, DbNames);
  }

  lemma CopiedKeeps(t: Table, apps: seq<string>, dbs: seq<string>, i: nat, j: nat)
    requires t.WellFormed() && |apps| == |dbs| && i < |apps| && j < |t.names|
    requires t.names[j] == apps[i] && forall k :: 0 <= k < j ==> t.names[k] != apps[i]
    ensures Copied(t, apps, dbs).cells[i] == t.cells[j]
  {
    assert Copied(t, apps, dbs).cells[i] == DbColumn(t, apps[i], Copied(t, apps, dbs).height);
    assert AppColumn(t, apps[i]) == Some(j);
  }

  /** An application column the store knows survives the round trip unchanged. */
  lemma RoundTripKeeps(t: Table, i: nat, j: nat)
    requires t.WellFormed() && i < |AppNames| && j < |t.names|
    requires t.names[j] == AppNames[i] && forall k :: 0 <= k < j ==> t.names[k] != AppNames[i]
    ensures i < |FromDb(ToDb(t)).names| && FromDb(ToDb(t)).names[i] == t.names[j]
    ensures FromDb(ToDb(t)).cells[i] == t.cells[j]
  {
    RoundTrip(t);
    CopiedKeeps(t, AppNames, DbNames, i, j);
  }

  /** Columns outside the mapping, such as Respondent_Attorney and Date_Closed, are not stored. */
  lemma UnmappedNotStored(t: Table, name: string)
    requires t.WellFormed() && name !in AppNames
    ensures name !in FromDb(ToDb(t)).names
  {
    RoundTrip(t);
  }

  // ---------------------------------------------------------------- the upsert

  /** A stored case: the row of the store's sixteen columns, keyed by its `case_id`. */
  type Store = map<Value, seq<Value>>

  /** The `case_id` of a store row (the first store column). */
  function Key(row: seq<Value>): Value {
    if row == [] then Null else row[0]
  }

  /** Row `i` of a column-major frame: the cell of every column at that index. */
  function Row(t: Table, i: nat): (r: seq<Value>)
    requires t.WellFormed() && i < t.height
    ensures |r| == |t.cells| && forall j :: 0 <= j < |r| ==> r[j] == t.cells[j][i]
  {
    seq(|t.cells|, j requires 0 <= j < |t.cells| => t.cells[j][i])
  }

  /** `db_data.iterrows()` */
  function Rows(t: Table): (r: seq<seq<Value>>)
    requires t.WellFormed()
    ensures |r| == t.height && forall i :: 0 <= i < t.height ==> r[i] == Row(t, i)
  {
    seq(t.height, i requires 0 <= i < t.height => Row(t, i))
  }

  /** The keys a batch of rows names. */
  function BatchKeys(rows: seq<seq<Value>>): set<Value> {
    set row | row in rows :: Key(row)
  }

  /** Every row has a `case_id`: the column is declared `nullable=False`. */
  predicate AllKeyed(rows: seq<seq<Value>>) {
    forall i :: 0 <= i < |rows| ==> Key(rows[i]) != Null
  }

  /**
   * The store after the rows, in order: a stored key is updated (every column but the
   * key takes the row's value, so the stored row becomes the row), a new key is inserted.
   */
  function Upserted(store: Store, rows: seq<seq<Value>>): Store
  {
    if rows == [] then store
    else
      var last := rows[|rows| - 1];
      Upserted(store, rows[..|rows| - 1])[Key(last) := last]
  }

  /** How many of the rows find their key absent when they come, and so insert. */
  function Inserted(store: Store, rows: seq<seq<Value>>): (n: nat)
    ensures n <= |rows|
  {
    if rows == [] then 0
    else
      var init := rows[..|rows| - 1];
      Inserted(store, init) + if Key(rows[|rows| - 1]) in Upserted(store, init) then 0 else 1
  }

  /** Applying two batches one after the other is applying their concatenation, counters included. */
  lemma {:induction false} UpsertedConcat(store: Store, a: seq<seq<Value>>, b: seq<seq<Value>>)
    ensures Upserted(store, a + b) == Upserted(Upserted(store, a), b)
    ensures Inserted(store, a + b) == Inserted(store, a) + Inserted(Upserted(store, a), b)
    decreases |b|
  {
    if b == [] {
      assert a + b == a;
    } else {
      var init := b[..|b| - 1];
      assert (a + b)[..|a + b| - 1] == a + init;
      assert (a + b)[|a + b| - 1] == b[|b| - 1];
      UpsertedConcat(store, a, init);
    }
  }

  /** The stored keys afterwards are the old ones and those of the batch. */
  lemma {:induction false} UpsertedKeys(store: Store, rows: seq<seq<Value>>)
    ensures Upserted(store, rows).Keys == store.Keys + BatchKeys(rows)
  {
    if rows != [] {
      var init := rows[..|rows| - 1];
      assert rows == init + [rows[|rows| - 1]];
      assert BatchKeys(rows) == BatchKeys(init) + {Key(rows[|rows| - 1])};
      UpsertedKeys(store, init);
    }
  }

  /** A row whose key no later row repeats is what the store holds for that key: the last occurrence wins. */
  lemma {:induction false} UpsertedLastWins(store: Store, rows: seq<seq<Value>>, i: nat)
    requires i < |rows|
    requires forall j :: i < j < |rows| ==> Key(rows[j]) != Key(rows[i])
    ensures Key(rows[i]) in Upserted(store, rows) && Upserted(store, rows)[Key(rows[i])] == rows[i]
  {
    if i < |rows| - 1 {
      var init := rows[..|rows| - 1];
      assert init[i] == rows[i];
      UpsertedLastWins(store, init, i);
    }
  }

  /** A key the batch does not name keeps its stored row, or stays absent. */
  lemma {:induction false} UpsertedUntouched(store: Store, rows: seq<seq<Value>>, k: Value)
    requires k !in BatchKeys(rows)
    ensures k in Upserted(store, rows) <==> k in store
    ensures k in store ==> Upserted(store, rows)[k] == store[k]
  {
    if rows != [] {
      var init := rows[..|rows| - 1];
      assert rows[|rows| - 1] in rows;
      assert BatchKeys(init) <= BatchKeys(rows);
      UpsertedUntouched(store, init, k);
    }
  }

  /** Each insert adds one key and each update none, so `inserted` counts the keys the batch adds. */
  lemma {:induction false} InsertedCount(store: Store, rows: seq<seq<Value>>)
    ensures |Upserted(store, rows).Keys| == |store.Keys| + Inserted(store, rows)
  {
    if rows != [] {
      var init := rows[..|rows| - 1];
      var k := Key(rows[|rows| - 1]);
      InsertedCount(store, init);
      var before := Upserted(store, init);
      if k in before {
        assert Upserted(store, rows).Keys == before.Keys;
      } else {
        assert Upserted(store, rows).Keys == before.Keys + {k};
      }
    }
  }

  /** `inserted` is the number of distinct new keys: a key repeated in the batch inserts once, then updates. */
  lemma InsertedNewKeys(store: Store, rows: seq<seq<Value>>)
    ensures Inserted(store, rows) == |BatchKeys(rows) - store.Keys|
  {
    InsertedCount(store, rows);
    UpsertedKeys(store, rows);
    var added := BatchKeys(rows) - store.Keys;
    assert store.Keys + BatchKeys(rows) == store.Keys + added;
    assert store.Keys * added == {};
  }

  /** Rows are stored under their own `case_id`: an update never changes the key. */
  lemma {:induction false} UpsertedKeyed(store: Store, rows: seq<seq<Value>>)
    requires forall k :: k in store ==> Key(store[k]) == k
    ensures forall k :: k in Upserted(store, rows) ==> Key(Upserted(store, rows)[k]) == k
  {
    if rows != [] {
      UpsertedKeyed(store, rows[..|rows| - 1]);
    }
  }

  /** Rows `lo` to `hi` of a frame (`combined_df.iloc[lo:hi]`), with the same columns. */
  function Slice(t: Table, lo: nat, hi: nat): (s: Table)
    requires t.WellFormed() && lo <= hi <= t.height
    ensures s.WellFormed() && s.names == t.names && s.height == hi - lo
    ensures forall j, i :: 0 <= j < |s.cells| && 0 <= i < hi - lo ==> s.cells[j][i] == t.cells[j][lo + i]
  {
    Table(hi - lo, t.names, seq(|t.cells|, j requires 0 <= j < |t.cells| => t.cells[j][lo..hi]))
  }

  /** Mapping a slice of a frame gives the same slice of the mapped frame's rows. */
  lemma CopiedSlice(t: Table, apps: seq<string>, dbs: seq<string>, lo: nat, hi: nat)
    requires t.WellFormed() && |apps| == |dbs| && lo <= hi <= t.height
    ensures AnyCopied(Slice(t, lo, hi), apps) == AnyCopied(t, apps)
    ensures Rows(Copied(Slice(t, lo, hi), apps, dbs)) ==
      if AnyCopied(t, apps) then Rows(Copied(t, apps, dbs))[lo..hi] else []
  {
    var s := Slice(t, lo, hi);
    assert forall x :: AppColumn(s, x) == AppColumn(t, x);
    assert AnyCopied(s, apps) == AnyCopied(t, apps);
    var whole, part := Copied(t, apps, dbs), Copied(s, apps, dbs);
    if AnyCopied(t, apps) {
      forall j | 0 <= j < |apps|
        ensures forall i :: 0 <= i < hi - lo ==> part.cells[j][i] == whole.cells[j][lo + i]
      {
        assert AppColumn(s, apps[j]) == AppColumn(t, apps[j]);
      }
      forall i | 0 <= i < hi - lo
        ensures Rows(part)[i] == Rows(whole)[lo + i]
      {
        assert Row(part, i) == Row(whole, lo + i);
      }
    }
  }

  lemma ToDbSlice(t: Table, lo: nat, hi: nat)
    requires t.WellFormed() && lo <= hi <= t.height
    ensures Rows(ToDb(Slice(t, lo, hi))) == if AnyCopied(t, AppNames) then Rows(ToDb(t))[lo..hi] else []
  {
    CopiedSlice(t, AppNames, DbNames, lo, hi);
  }

  /** The outcome of `save_data`: the counters, or the store's error message. */
  datatype SaveResult = Saved(inserted: nat, updated: nat, total: nat) | Failed(message: string)

  /** The message of the not-null violation the store raises for a row without a `case_id`. */
  const NullCaseId: string := "null value in column \"case_id\" violates not-null constraint"

  /**
   * The loop of `save_data` inside its transaction: the rows are applied to a copy of the
   * store, counting inserts and updates; a row without a key stops it with `ok` false.
   */
  method Stage(store: Store, rows: seq<seq<Value>>) returns (ok: bool, staged: Store, inserted: nat, updated: nat)
    ensures ok <==> AllKeyed(rows)
    ensures ok ==> staged == Upserted(store, rows)
    ensures ok ==> inserted == Inserted(store, rows) && inserted + updated == |rows|
  {
    staged, inserted, updated := store, 0, 0;
    var i := 0;
    while i < |rows|
      invariant i <= |rows|
      invariant AllKeyed(rows[..i])
      invariant staged == Upserted(store, rows[..i])
      invariant inserted == Inserted(store, rows[..i]) && inserted + updated == i
    {
      var row := rows[i];
      if Key(row) == Null {
        assert !AllKeyed(rows) by { assert Key(rows[i]) == Null; }
        return false, store, 0, 0;
      }
      assert rows[..i + 1][..i] == rows[..i];
      if Key(row) in staged {
        updated := updated + 1;
      } else {
        inserted := inserted + 1;
      }
      staged := staged[Key(row) := row];
      i := i + 1;
    }
    assert rows[..i] == rows;
    ok := true;
  }

  /** The case store of `ArbitrationDatabase`, one stored row per `case_id`. */
  class CaseStore {
    var cases: Store

    constructor()
      ensures cases == map[]
    {
      cases := map[];
    }

    /**
     * `save_data`: map the frame to the store's columns and upsert its rows in one
     * transaction; a row without a `case_id` rolls everything back and reports the error.
     */
    method SaveData(t: Table) returns (result: SaveResult)
      requires t.WellFormed()
      modifies this
      ensures result.Failed? <==> !AllKeyed(Rows(ToDb(t)))
      ensures result.Failed? ==> cases == old(cases) && result.message == NullCaseId
      ensures result.Saved? ==> cases == Upserted(old(cases), Rows(ToDb(t)))
      ensures result.Saved? ==> result.inserted == Inserted(old(cases), Rows(ToDb(t)))
      ensures result.Saved? ==> result.inserted + result.updated == result.total == ToDb(t).height
    {
      var db := MapDataframeToDb(t);
      var ok, staged, inserted, updated := Stage(cases, Rows(db));
      if !ok {
        return Failed(NullCaseId);
      }
      cases := staged;
      result := Saved(inserted, updated, |Rows(db)|);
    }
  }
}
