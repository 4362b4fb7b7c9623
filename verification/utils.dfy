/**
 * The dashboard's helpers: the sidebar's row filter, the day difference between two
 * dates, the top-N selection of a count table, title-casing of names and the date
 * formatter.
 */
module Utils {
  import opened Wrappers
  import opened Seqs
  import opened Text
  import opened Records

  // ---------------------------------------------------------------- filter_dataframe

  /** The five text criteria, in the order `filter_dataframe` applies them. */
  datatype Field = ArbitratorField | RespondentField | AttorneyField | ForumField | DispositionField

  const FilterOrder: seq<Field> := [ArbitratorField, RespondentField, AttorneyField, ForumField, DispositionField]

  const DateFiledColumn: string := "Date_Filed"

  function FieldColumn(fd: Field): string {
    match fd
    case ArbitratorField => "Arbitrator_Name"
    case RespondentField => "Respondent_Name"
    case AttorneyField => "Consumer_Attorney"
    case ForumField => "Forum"
    case DispositionField => "Disposition_Type"
  }

  function FieldOf(fd: Field, c: Case): Option<string> {
    match fd
    case ArbitratorField => c.arbitrator
    case RespondentField => c.respondent
    case AttorneyField => c.consumerAttorney
    case ForumField => c.forum
    case DispositionField => c.disposition
  }

  /**
   * The arguments of `filter_dataframe`. An absent date range and an empty one behave
   * alike, so both are the empty list; dates are day numbers.
   */
  datatype Filters = Filters(
    arbitrator: Option<string>,
    respondent: Option<string>,
    attorney: Option<string>,
    forum: Option<string>,
    disposition: Option<string>,
    dateRange: seq<int>)

  function Criterion(f: Filters, fd: Field): Option<string> {
    match fd
    case ArbitratorField => f.arbitrator
    case RespondentField => f.respondent
    case AttorneyField => f.attorney
    case ForumField => f.forum
    case DispositionField => f.disposition
  }

  /** `if arbitrator:` — a criterion is used only when it is present and not empty. */
  predicate Active(f: Filters, fd: Field) {
    Criterion(f, fd).Some? && Criterion(f, fd).value != ""
  }

  /** The date range is used only when it has two ends and the frame has filing dates. */
  predicate DatesActive(f: Filters, columns: set<string>) {
    |f.dateRange| == 2 && DateFiledColumn in columns
  }

  /** The row's cell equals the criterion; a missing cell never does. */
  predicate Passes(f: Filters, fd: Field, c: Case) {
    Active(f, fd) ==> FieldOf(fd, c) == Criterion(f, fd)
  }

  /** Filed on or between the two ends; a missing date compares false. */
  predicate InDateRange(f: Filters, columns: set<string>, c: Case) {
    DatesActive(f, columns) ==>
      c.dateFiled.Some? && f.dateRange[0] <= c.dateFiled.value <= f.dateRange[1]
  }

  /** The row passes the first `k` steps of the filter; the date range is the sixth. */
  predicate PassesFirst(f: Filters, columns: set<string>, k: nat, c: Case) {
    (forall j :: 0 <= j < k && j < |FilterOrder| ==> Passes(f, FilterOrder[j], c))
    && (k > |FilterOrder| ==> InDateRange(f, columns, c))
  }

  function KeptBy(f: Filters, columns: set<string>, k: nat): Case -> bool {
    (c: Case) => PassesFirst(f, columns, k, c)
  }

  /** A row survives every step of `filter_dataframe`. */
  function Keeps(f: Filters, columns: set<string>): Case -> bool {
    KeptBy(f, columns, |FilterOrder| + 1)
  }

  /** A used criterion whose column the frame lacks: selecting that column raises `KeyError`. */
  predicate MissingFilterColumn(f: Filters, columns: set<string>) {
    exists fd :: Active(f, fd) && FieldColumn(fd) !in columns
  }

  function FieldIs(fd: Field, v: string): Case -> bool {
    (c: Case) => FieldOf(fd, c) == Some(v)
  }

  function FiledBetween(lo: int, hi: int): Case -> bool {
    (c: Case) => c.dateFiled.Some? && lo <= c.dateFiled.value <= hi
  }

  /** One text step of the filter narrows the rows kept so far to those passing one more criterion. */
  lemma NarrowStep(f: Filters, columns: set<string>, k: nat, all: seq<Case>, rows: seq<Case>)
    requires k < |FilterOrder| && rows == Filter(KeptBy(f, columns, k), all)
    ensures Active(f, FilterOrder[k]) ==>
      Filter(FieldIs(FilterOrder[k], Criterion(f, FilterOrder[k]).value), rows) == Filter(KeptBy(f, columns, k + 1), all)
    ensures !Active(f, FilterOrder[k]) ==> rows == Filter(KeptBy(f, columns, k + 1), all)
  {
    var fd := FilterOrder[k];
    if Active(f, fd) {
      var q := FieldIs(fd, Criterion(f, fd).value);
      FilterFilter(KeptBy(f, columns, k), q, all);
      forall c: Case ensures Both(KeptBy(f, columns, k), q)(c) == KeptBy(f, columns, k + 1)(c) {
        assert Both(KeptBy(f, columns, k), q)(c) == (PassesFirst(f, columns, k, c) && q(c));
      }
      FilterExt(Both(KeptBy(f, columns, k), q), KeptBy(f, columns, k + 1), all);
    } else {
      forall c: Case ensures KeptBy(f, columns, k)(c) == KeptBy(f, columns, k + 1)(c) {
        assert Passes(f, fd, c);
      }
      FilterExt(KeptBy(f, columns, k), KeptBy(f, columns, k + 1), all);
    }
  }

  /** The date step narrows the rows that passed the text criteria to the whole filter. */
  lemma DateStep(f: Filters, columns: set<string>, all: seq<Case>, rows: seq<Case>)
    requires rows == Filter(KeptBy(f, columns, |FilterOrder|), all)
    ensures DatesActive(f, columns) ==>
      Filter(FiledBetween(f.dateRange[0], f.dateRange[1]), rows) == Filter(Keeps(f, columns), all)
    ensures !DatesActive(f, columns) ==> rows == Filter(Keeps(f, columns), all)
  {
    var n := |FilterOrder|;
    if DatesActive(f, columns) {
      var q := FiledBetween(f.dateRange[0], f.dateRange[1]);
      FilterFilter(KeptBy(f, columns, n), q, all);
      forall c: Case ensures Both(KeptBy(f, columns, n), q)(c) == Keeps(f, columns)(c) {
        assert Both(KeptBy(f, columns, n), q)(c) == (PassesFirst(f, columns, n, c) && q(c));
      }
      FilterExt(Both(KeptBy(f, columns, n), q), Keeps(f, columns), all);
    } else {
      FilterExt(KeptBy(f, columns, n), Keeps(f, columns), all);
    }
  }

  /** The rows left after the first `k` text steps, each used criterion selecting by equality. */
  function Narrowed(f: Filters, k: nat, rows: seq<Case>): seq<Case>
    requires k <= |FilterOrder|
  {
    if k == 0 then rows
    else if Active(f, FilterOrder[k - 1]) then
      Filter(FieldIs(FilterOrder[k - 1], Criterion(f, FilterOrder[k - 1]).value), Narrowed(f, k - 1, rows))
    else Narrowed(f, k - 1, rows)
  }

  /** The text steps keep exactly the rows that pass the first `k` criteria. */
  lemma {:induction false} NarrowedKeeps(f: Filters, columns: set<string>, k: nat, rows: seq<Case>)
    requires k <= |FilterOrder|
    ensures Narrowed(f, k, rows) == Filter(KeptBy(f, columns, k), rows)
  {
    if k == 0 {
      FilterAll(KeptBy(f, columns, 0), rows);
    } else {
      NarrowedKeeps(f, columns, k - 1, rows);
      NarrowStep(f, columns, k - 1, rows, Narrowed(f, k - 1, rows));
    }
  }

  /**
   * `filter_dataframe`: each used criterion in turn narrows the frame, then the
   * inclusive date range when it has two ends and the frame has filing dates; a used
   * criterion whose column is missing raises.
   */
  method FilterFrame(data: Frame, f: Filters) returns (r: Option<seq<Case>>)
    ensures r.None? <==> MissingFilterColumn(f, data.columns)
    ensures r.Some? ==> r.value == Filter(Keeps(f, data.columns), data.rows)
  {
    var rows := data.rows;
    var k := 0;
    while k < |FilterOrder|
      invariant k <= |FilterOrder|
      invariant rows == Narrowed(f, k, data.rows)
      invariant forall j :: 0 <= j < k && Active(f, FilterOrder[j]) ==> FieldColumn(FilterOrder[j]) in data.columns
    {
      var fd := FilterOrder[k];
      if Active(f, fd) {
        if FieldColumn(fd) !in data.columns {
          return None;
        }
        rows := Filter(FieldIs(fd, Criterion(f, fd).value), rows);
      }
      k := k + 1;
    }
    assert !MissingFilterColumn(f, data.columns) by {
      forall fd | Active(f, fd) ensures FieldColumn(fd) in data.columns {
        assert fd == FilterOrder[FieldIndex(fd)];
      }
    }
    NarrowedKeeps(f, data.columns, |FilterOrder|, data.rows);
    DateStep(f, data.columns, data.rows, rows);
    if |f.dateRange| == 2 && DateFiledColumn in data.columns {
      rows := Filter(FiledBetween(f.dateRange[0], f.dateRange[1]), rows);
    }
    return Some(rows);
  }

  function FieldIndex(fd: Field): (i: nat)
    ensures i < |FilterOrder| && FilterOrder[i] == fd
  {
    match fd
    case ArbitratorField => 0
    case RespondentField => 1
    case AttorneyField => 2
    case ForumField => 3
    case DispositionField => 4
  }

  /**
   * A row is kept exactly when it is in the frame, equals every used criterion in its
   * column, and, when the range is used, was filed on or between its two ends.
   */
  lemma KeepsIff(f: Filters, columns: set<string>, rows: seq<Case>, c: Case)
    ensures c in Filter(Keeps(f, columns), rows) <==>
      c in rows && (forall fd :: Active(f, fd) ==> FieldOf(fd, c) == Criterion(f, fd))
      && InDateRange(f, columns, c)
  {
    if c in rows && (forall fd :: Active(f, fd) ==> FieldOf(fd, c) == Criterion(f, fd))
      && InDateRange(f, columns, c) {
      var i :| 0 <= i < |rows| && rows[i] == c;
      assert Keeps(f, columns)(rows[i]);
    }
    if c in Filter(Keeps(f, columns), rows) {
      assert PassesFirst(f, columns, |FilterOrder| + 1, c);
      forall fd | Active(f, fd) ensures FieldOf(fd, c) == Criterion(f, fd) {
        assert Passes(f, FilterOrder[FieldIndex(fd)], c);
      }
    }
  }

  /** The filtered rows are some of the frame's rows, in their original order. */
  lemma FilterFrameSubseq(f: Filters, columns: set<string>, rows: seq<Case>)
    ensures SubseqOf(Filter(Keeps(f, columns), rows), rows)
  {
    FilterSubseq(Keeps(f, columns), rows);
  }

  /** With no criterion and no usable date range the frame comes back whole. */
  lemma NoFiltersIdentity(f: Filters, columns: set<string>, rows: seq<Case>)
    requires forall fd :: !Active(f, fd)
    requires !DatesActive(f, columns)
    ensures Filter(Keeps(f, columns), rows) == rows
  {
    forall c | c in rows ensures Keeps(f, columns)(c) {
      assert PassesFirst(f, columns, |FilterOrder| + 1, c);
    }
    FilterAll(Keeps(f, columns), rows);
  }

  /** Filtering the filtered frame again with the same arguments changes nothing. */
  lemma FilterFrameTwice(f: Filters, columns: set<string>, rows: seq<Case>)
    ensures Filter(Keeps(f, columns), Filter(Keeps(f, columns), rows)) == Filter(Keeps(f, columns), rows)
  {
    FilterIdempotent(Keeps(f, columns), rows);
  }

  // ---------------------------------------------------------------- calculate_date_diff

  /** `calculate_date_diff`: the days from `start` to `end`, when both are present. */
  function DateDiff(start: Option<int>, end: Option<int>): (r: Option<int>)
    ensures r.None? <==> start.None? || end.None?
  {
    if start.None? || end.None? then None else Some(end.value - start.value)
  }

  // ---------------------------------------------------------------- get_top_items

  /** Every entry's count is at least that of every later entry. */
  predicate NonIncreasing<K>(s: seq<(K, int)>) {
    forall i, j :: 0 <= i < j < |s| ==> s[i].1 >= s[j].1
  }

  /** Places `x` after every entry counting at least as much: later equal entries stay later. */
  function InsertDesc<K>(x: (K, int), s: seq<(K, int)>): (r: seq<(K, int)>)
    ensures |r| == |s| + 1
  {
    if s == [] then [x]
    else if s[0].1 >= x.1 then [s[0]] + InsertDesc(x, s[1..])
    else [x] + s
  }

  /** Inserting adds exactly `x`. */
  lemma {:induction false} InsertDescPerm<K>(x: (K, int), s: seq<(K, int)>)
    ensures multiset(InsertDesc(x, s)) == multiset(s) + multiset{x}
  {
    if s != [] && s[0].1 >= x.1 {
      InsertDescPerm(x, s[1..]);
      assert s == [s[0]] + s[1..];
    }
  }

  /** Inserting into a table sorted by count keeps it sorted. */
  lemma {:induction false} InsertDescSorted<K>(x: (K, int), s: seq<(K, int)>)
    requires NonIncreasing(s)
    ensures NonIncreasing(InsertDesc(x, s))
  {
    if s != [] && s[0].1 >= x.1 {
      var t := InsertDesc(x, s[1..]);
      InsertDescSorted(x, s[1..]);
      assert InsertDesc(x, s) == [s[0]] + t;
      InsertDescPerm(x, s[1..]);
      forall k | 0 <= k < |t| ensures t[k].1 <= s[0].1 {
        assert t[k] in multiset(t);
        assert t[k] in multiset(s[1..]) || t[k] == x;
        if t[k] != x {
          var m :| 0 <= m < |s[1..]| && s[1..][m] == t[k];
          assert s[m + 1] == t[k];
        }
      }
    }
  }

  /**
   * `sorted(items, key=count, reverse=True)`: Python's sort is stable, also in reverse, so
   * entries with equal counts keep their order.
   */
  function SortDesc<K>(s: seq<(K, int)>): (r: seq<(K, int)>)
    ensures |r| == |s|
    ensures multiset(r) == multiset(s)
    ensures NonIncreasing(r)
    decreases |s|
  {
    if s == [] then []
    else
      var init := s[..|s| - 1];
      assert s == init + [s[|s| - 1]];
      InsertDescSorted(s[|s| - 1], SortDesc(init));
      InsertDescPerm(s[|s| - 1], SortDesc(init));
      InsertDesc(s[|s| - 1], SortDesc(init))
  }

  /** The entries counting `v`, in their order. */
  function WithCount<K>(v: int, s: seq<(K, int)>): seq<(K, int)> {
    if s == [] then []
    else (if s[0].1 == v then [s[0]] else []) + WithCount(v, s[1..])
  }

  lemma {:induction false} WithCountConcat<K>(v: int, a: seq<(K, int)>, b: seq<(K, int)>)
    ensures WithCount(v, a + b) == WithCount(v, a) + WithCount(v, b)
  {
    if a != [] {
      var head := if a[0].1 == v then [a[0]] else [];
      assert WithCount(v, a + b) == head + WithCount(v, a[1..] + b) by {
        assert (a + b)[0] == a[0];
        assert (a + b)[1..] == a[1..] + b;
      }
      WithCountConcat(v, a[1..], b);
    } else {
      assert a + b == b;
    }
  }

  /** A sorted table whose first count is below `v` has no entry counting `v`. */
  lemma {:induction false} WithCountBelow<K>(v: int, s: seq<(K, int)>)
    requires NonIncreasing(s)
    requires s != [] ==> s[0].1 < v
    ensures WithCount(v, s) == []
  {
    if s != [] {
      assert NonIncreasing(s[1..]);
      assert s[1..] != [] ==> s[1..][0].1 <= s[0].1;
      WithCountBelow(v, s[1..]);
    }
  }

  /** Inserting adds `x` at the end of the entries that share its count. */
  lemma {:induction false} InsertDescStable<K>(x: (K, int), s: seq<(K, int)>, v: int)
    requires NonIncreasing(s)
    ensures WithCount(v, InsertDesc(x, s)) == WithCount(v, s) + WithCount(v, [x])
  {
    var last := WithCount(v, [x]);
    if s == [] {
    } else if s[0].1 >= x.1 {
      var t := InsertDesc(x, s[1..]);
      var head := if s[0].1 == v then [s[0]] else [];
      assert InsertDesc(x, s) == [s[0]] + t;
      assert WithCount(v, t) == WithCount(v, s[1..]) + last by {
        assert NonIncreasing(s[1..]);
        InsertDescStable(x, s[1..], v);
      }
      assert WithCount(v, [s[0]] + t) == head + WithCount(v, t) by {
        assert ([s[0]] + t)[1..] == t;
      }
      assert WithCount(v, s) == head + WithCount(v, s[1..]);
      assert head + (WithCount(v, s[1..]) + last) == (head + WithCount(v, s[1..])) + last;
    } else {
      assert InsertDesc(x, s) == [x] + s;
      assert WithCount(v, [x] + s) == last + WithCount(v, s) by {
        assert ([x] + s)[1..] == s;
        assert [x][1..] == [];
        assert last == (if x.1 == v then [x] else []) + WithCount(v, []);
      }
      if x.1 == v {
        WithCountBelow(v, s);
      } else {
        assert last == [];
      }
    }
  }

  /** The sort is stable: the entries with any one count come out in their input order. */
  lemma {:induction false} SortDescStable<K>(s: seq<(K, int)>, v: int)
    ensures WithCount(v, SortDesc(s)) == WithCount(v, s)
    decreases |s|
  {
    if s != [] {
      var init := s[..|s| - 1];
      var last := s[|s| - 1];
      SortDescStable(init, v);
      InsertDescStable(last, SortDesc(init), v);
      assert s == init + [last];
      WithCountConcat(v, init, [last]);
    }
  }

  /** Python's `s[:n]`: a negative `n` drops that many entries from the end. */
  function TakePrefix<T>(s: seq<T>, n: int): (r: seq<T>)
    ensures |r| == if n >= 0 then (if n < |s| then n else |s|) else (if |s| + n > 0 then |s| + n else 0)
    ensures r == s[..|r|]
  {
    if n >= 0 then (if n < |s| then s[..n] else s)
    else if |s| + n > 0 then s[..|s| + n] else []
  }

  /** `get_top_items`: the first `n` entries of the table sorted by count, highest first. */
  function TopItems<K>(data: seq<(K, int)>, n: int): (r: seq<(K, int)>)
    ensures |r| == if n >= 0 then (if n < |data| then n else |data|) else (if |data| + n > 0 then |data| + n else 0)
    ensures NonIncreasing(r)
    ensures multiset(r) <= multiset(data)
  {
    var sorted := SortDesc(data);
    var r := TakePrefix(sorted, n);
    assert sorted == r + sorted[|r|..];
    r
  }

  /** No entry left out counts more than any entry taken. */
  lemma TopItemsAreTop<K>(data: seq<(K, int)>, n: int, x: (K, int))
    requires x in data && x !in TopItems(data, n)
    ensures forall y :: y in TopItems(data, n) ==> y.1 >= x.1
  {
    var sorted := SortDesc(data);
    var r := TopItems(data, n);
    assert r == sorted[..|r|];
    assert x in multiset(sorted) by {
      assert x in multiset(data);
    }
    var j :| 0 <= j < |sorted| && sorted[j] == x;
    assert j >= |r|;
    forall y | y in r ensures y.1 >= x.1 {
      var i :| 0 <= i < |r| && r[i] == y;
      assert sorted[i] == y;
    }
  }

  // ---------------------------------------------------------------------------------------
  // convert_to_title_case

  /** The spellings the title-caser means to keep, compared with each word upper-cased. */
  const Abbreviations: seq<string> := ["LLC", "Inc.", "Ltd.", "Corp.", "AAA", "JAMS"]

  /** One word: upper-cased when its upper-case form is listed, capitalised otherwise. */
  function TitleWord(w: string): (r: string)
    ensures |r| == |w|
    ensures Lower(r) == Lower(w)
  {
    if Upper(w) in Abbreviations then
      assert Lower(Upper(w)) == Lower(w);
      Upper(w)
    else
      LowerCapitalize(w);
      Capitalize(w)
  }

  /**
   * `convert_to_title_case`: the whitespace-separated words, each title-cased, joined by
   * single spaces; the empty string comes back as it is.
   */
  function TitleCase(text: string): string {
    if text == [] then text else Join(Map(TitleWord, Split(text)), " ")
  }

  /** The loop of `convert_to_title_case`, rewriting the list of words in place. */
  method ConvertToTitleCase(text: string) returns (r: string)
    ensures r == TitleCase(text)
  {
    if text == [] {
      return text;
    }
    var words := TitleWords(Split(text));
    r := Join(words, " ");
  }

  /** The `for i, word in enumerate(words)` loop: each word replaced by its title-cased form. */
  method TitleWords(original: seq<string>) returns (words: seq<string>)
    ensures words == Map(TitleWord, original)
  {
    words := original;
    for i := 0 to |words|
      invariant |words| == |original|
      invariant forall k :: 0 <= k < i ==> words[k] == TitleWord(original[k])
      invariant forall k :: i <= k < |words| ==> words[k] == original[k]
    {
      words := words[i := TitleWord(words[i])];
    }
    MapPointwise(TitleWord, original, words);
  }

  /** A sequence that holds `f` of each element, in order, is the map of `f`. */
  lemma MapPointwise<T, U>(f: T -> U, s: seq<T>, r: seq<U>)
    requires |r| == |s|
    requires forall k :: 0 <= k < |s| ==> r[k] == f(s[k])
    ensures r == Map(f, s)
  {
  }

  /** An upper-cased word holds no lower-case letter. */
  lemma UpperHasNoLower(w: string)
    ensures forall i :: 0 <= i < |Upper(w)| ==> !('a' <= Upper(w)[i] <= 'z')
  {
  }

  /**
   * Only "LLC", "AAA" and "JAMS" can be kept upper-case: "Inc.", "Ltd." and "Corp." hold
   * lower-case letters, so no upper-cased word equals them.
   */
  lemma KeptUppercase(w: string)
    requires Upper(w) in Abbreviations
    ensures Upper(w) == "LLC" || Upper(w) == "AAA" || Upper(w) == "JAMS"
  {
    var u := Upper(w);
    UpperHasNoLower(w);
    assert u != "Inc." by {
      assert "Inc."[1] == 'n';
    }
    assert u != "Ltd." by {
      assert "Ltd."[1] == 't';
    }
    assert u != "Corp." by {
      assert "Corp."[1] == 'o';
    }
  }

  lemma UpperIdempotent(s: string)
    ensures Upper(Upper(s)) == Upper(s)
  {
  }

  /** Capitalising keeps the upper-case form of a word. */
  lemma UpperCapitalize(s: string)
    ensures Upper(Capitalize(s)) == Upper(s)
  {
    if s != [] {
      var c := Capitalize(s);
      forall i | 0 <= i < |s| ensures Upper(c)[i] == Upper(s)[i] {
        if i > 0 {
          assert c[i] == Lower(s[1..])[i - 1];
        }
      }
    }
  }

  lemma CapitalizeIdempotent(s: string)
    ensures Capitalize(Capitalize(s)) == Capitalize(s)
  {
    if s != [] {
      var c := Capitalize(s);
      assert c[1..] == Lower(s[1..]);
      LowerIdempotent(s[1..]);
    }
  }

  /** Title-casing a word twice is title-casing it once. */
  lemma TitleWordIdempotent(w: string)
    ensures TitleWord(TitleWord(w)) == TitleWord(w)
  {
    if Upper(w) in Abbreviations {
      UpperIdempotent(w);
    } else {
      UpperCapitalize(w);
      CapitalizeIdempotent(w);
    }
  }

  /** A word stays a word: only letters change, and only their case. */
  lemma TitleWordIsWord(w: string)
    requires IsWord(w)
    ensures IsWord(TitleWord(w))
  {
    var r := TitleWord(w);
    forall i | 0 <= i < |r| ensures !IsSpace(r[i]) {
      assert Lower(r)[i] == Lower(w)[i];
    }
  }

  /** Splitting the result gives back the title-cased words of the input, one for one. */
  lemma SplitTitleCase(text: string)
    ensures Split(TitleCase(text)) == Map(TitleWord, Split(text))
  {
    var words := Map(TitleWord, Split(text));
    forall k | 0 <= k < |words| ensures IsWord(words[k]) {
      assert Split(text)[k] in Split(text);
      TitleWordIsWord(Split(text)[k]);
    }
    SplitOfJoin(words);
  }

  /** Title-casing is idempotent. */
  lemma TitleCaseIdempotent(text: string)
    ensures TitleCase(TitleCase(text)) == TitleCase(text)
  {
    if text != [] && TitleCase(text) != [] {
      var words := Split(text);
      SplitTitleCase(text);
      assert Map(TitleWord, Map(TitleWord, words)) == Map(TitleWord, words) by {
        forall k | 0 <= k < |words| ensures TitleWord(TitleWord(words[k])) == TitleWord(words[k]) {
          TitleWordIdempotent(words[k]);
        }
      }
    }
  }

  // ---------------------------------------------------------------------------------------
  // format_date

  /** A cell handed to `format_date`: absent (None or NaT), a calendar date, or anything else. */
  datatype DateCell = NoDate | CalendarDate(year: int, month: int, day: int) | OtherCell(text: string)

  /** What a Python `date` can hold. */
  predicate ValidDate(year: int, month: int, day: int) {
    1 <= year <= 9999 && 1 <= month <= 12 && 1 <= day <= 31
  }

  /** `n` written in exactly `width` decimal digits, zero-padded on the left. */
  function Padded(n: nat, width: nat): (r: string)
    requires n < Pow10(width)
    ensures |r| == width
    ensures forall i :: 0 <= i < |r| ==> IsDigit(r[i])
  {
    if width == 0 then [] else Padded(n / 10, width - 1) + [DigitChar(n % 10)]
  }

  /** Reading the padded digits back gives the number. */
  lemma {:induction false} PaddedValue(n: nat, width: nat)
    requires n < Pow10(width)
    ensures DigitsValue(Padded(n, width)) == n
  {
    if width > 0 {
      var s := Padded(n, width);
      PaddedValue(n / 10, width - 1);
      assert s[..|s| - 1] == Padded(n / 10, width - 1);
    }
  }

  /** `format_date`: "" when absent, `strftime("%Y-%m-%d")` for a date, `str(value)` otherwise. */
  function FormatDate(v: DateCell): (r: string)
    requires v.CalendarDate? ==> ValidDate(v.year, v.month, v.day)
    ensures v.NoDate? ==> r == ""
    ensures v.OtherCell? ==> r == v.text
    ensures v.CalendarDate? ==> |r| == 10 && r[4] == '-' && r[7] == '-'
  {
    match v
    case NoDate => ""
    case CalendarDate(y, m, d) => Padded(y, 4) + "-" + Padded(m, 2) + "-" + Padded(d, 2)
    case OtherCell(t) => t
  }

  /** Reading a `YYYY-MM-DD` string back into its three numbers. */
  function ParseDate(s: string): (r: Option<(int, int, int)>)
    ensures r.Some? ==> |s| == 10
  {
    if |s| == 10 && s[4] == '-' && s[7] == '-'
       && AllDigits(s[..4]) && AllDigits(s[5..7]) && AllDigits(s[8..])
    then Some((DigitsValue(s[..4]), DigitsValue(s[5..7]), DigitsValue(s[8..])))
    else None
  }

  /** A formatted date reads back as the same year, month and day. */
  lemma FormatDateRoundTrip(year: int, month: int, day: int)
    requires ValidDate(year, month, day)
    ensures ParseDate(FormatDate(CalendarDate(year, month, day))) == Some((year, month, day))
  {
    var y, m, d := Padded(year, 4), Padded(month, 2), Padded(day, 2);
    var s := FormatDate(CalendarDate(year, month, day));
    assert s == y + "-" + m + "-" + d;
    assert s[..4] == y;
    assert s[5..7] == m;
    assert s[8..] == d;
    PaddedValue(year, 4);
    PaddedValue(month, 2);
    PaddedValue(day, 2);
  }
}
