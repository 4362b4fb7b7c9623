/** Order-preserving selection over sequences: the boolean-mask row selection of a data frame. */
module Seqs {
  import opened Wrappers

  /** The elements of `s` that satisfy `p`, in their original order. */
  function Filter<T>(p: T -> bool, s: seq<T>): (r: seq<T>)
    ensures |r| <= |s|
    ensures forall x :: x in r ==> x in s && p(x)
    ensures forall i :: 0 <= i < |s| && p(s[i]) ==> s[i] in r
  {
    if s == [] then [] else (if p(s[0]) then [s[0]] else []) + Filter(p, s[1..])
  }

  /** `a` is obtained from `b` by deleting elements, keeping the order of the rest. */
  predicate SubseqOf<T(==)>(a: seq<T>, b: seq<T>)
    decreases |b|
  {
    if a == [] then true
    else if b == [] then false
    else (a[0] == b[0] && SubseqOf(a[1..], b[1..])) || SubseqOf(a, b[1..])
  }

  lemma {:induction false} SubseqRefl<T>(a: seq<T>)
    ensures SubseqOf(a, a)
  {
    if a != [] {
      SubseqRefl(a[1..]);
    }
  }

  lemma {:induction false} FilterSubseq<T>(p: T -> bool, s: seq<T>)
    ensures SubseqOf(Filter(p, s), s)
  {
    if s != [] {
      FilterSubseq(p, s[1..]);
      var r := Filter(p, s[1..]);
      if p(s[0]) {
        assert Filter(p, s) == [s[0]] + r;
        assert ([s[0]] + r)[1..] == r;
      } else {
        assert Filter(p, s) == r;
        if r != [] {
          assert SubseqOf(r, s[1..]);
        }
      }
    }
  }

  lemma {:induction false} FilterConcat<T>(p: T -> bool, a: seq<T>, b: seq<T>)
    ensures Filter(p, a + b) == Filter(p, a) + Filter(p, b)
  {
    if a == [] {
      assert a + b == b;
    } else {
      assert (a + b)[1..] == a[1..] + b;
      FilterConcat(p, a[1..], b);
    }
  }

  /** Extending the input by one element extends the filter by that element or by nothing. */
  lemma FilterSnoc<T>(p: T -> bool, s: seq<T>, j: nat)
    requires j < |s|
    ensures Filter(p, s[..j + 1]) == Filter(p, s[..j]) + (if p(s[j]) then [s[j]] else [])
  {
    assert s[..j + 1] == s[..j] + [s[j]];
    FilterConcat(p, s[..j], [s[j]]);
    assert [s[j]][1..] == [];
  }

  /** A relation that holds between every earlier and later element still holds after filtering. */
  lemma {:induction false} FilterPairwise<T>(p: T -> bool, s: seq<T>, P: (T, T) -> bool)
    requires forall a, b :: 0 <= a < b < |s| ==> P(s[a], s[b])
    ensures forall a, b :: 0 <= a < b < |Filter(p, s)| ==> P(Filter(p, s)[a], Filter(p, s)[b])
  {
    if s != [] {
      var t := s[1..];
      forall a, b | 0 <= a < b < |t| ensures P(t[a], t[b]) {
        assert t[a] == s[a + 1] && t[b] == s[b + 1];
      }
      FilterPairwise(p, t, P);
      var r := Filter(p, t);
      if p(s[0]) {
        var f := Filter(p, s);
        assert f == [s[0]] + r;
        forall a, b | 0 <= a < b < |f| ensures P(f[a], f[b]) {
          if a == 0 {
            assert f[b] == r[b - 1] && r[b - 1] in t;
            var k :| 0 <= k < |t| && t[k] == r[b - 1];
            assert s[k + 1] == t[k];
          } else {
            assert f[a] == r[a - 1] && f[b] == r[b - 1];
          }
        }
      } else {
        assert Filter(p, s) == r;
      }
    }
  }

  /** The positions of the elements of `s` that satisfy `p`. */
  function Indices<T>(p: T -> bool, s: seq<T>): set<nat> {
    set i: nat | i < |s| && p(s[i])
  }

  /** The filter keeps one element per qualifying position: the count the mask's `sum()` gives. */
  lemma {:induction false} FilterCount<T>(p: T -> bool, s: seq<T>)
    ensures |Filter(p, s)| == |Indices(p, s)|
    decreases |s|
  {
    if s != [] {
      var n := |s| - 1;
      var init := s[..n];
      FilterCount(p, init);
      var before := Indices(p, init);
      var extra: set<nat> := if p(s[n]) then {n} else {};
      assert |Filter(p, s)| == |Filter(p, init)| + |extra| by {
        FilterSnoc(p, s, n);
        assert s[..n + 1] == s;
      }
      assert Indices(p, s) == before + extra by {
        forall i: nat
          ensures i in Indices(p, s) <==> i in before + extra
        {
          if i < n {
            assert init[i] == s[i];
            assert i in Indices(p, s) <==> p(s[i]);
            assert i in before <==> p(init[i]);
          } else if i == n {
            assert i !in before;
          } else {
            assert i !in before && i !in Indices(p, s);
          }
        }
      }
      assert before * extra == {};
    }
  }

  /** Both predicates hold. */
  function Both<T>(p: T -> bool, q: T -> bool): T -> bool {
    x => p(x) && q(x)
  }

  /** Filtering by `p` and then by `q` is filtering by both at once. */
  lemma {:induction false} FilterFilter<T>(p: T -> bool, q: T -> bool, s: seq<T>)
    ensures Filter(q, Filter(p, s)) == Filter(Both(p, q), s)
  {
    if s != [] {
      FilterFilter(p, q, s[1..]);
      var b := Both(p, q);
      assert b(s[0]) == (p(s[0]) && q(s[0]));
      if p(s[0]) {
        var t := [s[0]] + Filter(p, s[1..]);
        assert Filter(p, s) == t;
        assert t[1..] == Filter(p, s[1..]);
        assert Filter(q, t) == (if q(s[0]) then [s[0]] else []) + Filter(q, t[1..]);
      } else {
        assert Filter(p, s) == Filter(p, s[1..]);
      }
    }
  }

  /** When no element qualifies, the filter is empty. */
  lemma {:induction false} FilterNone<T>(p: T -> bool, s: seq<T>)
    requires forall i :: 0 <= i < |s| ==> !p(s[i])
    ensures Filter(p, s) == []
  {
    if s != [] {
      FilterNone(p, s[1..]);
    }
  }

  /** The selection loop: appends each element that satisfies `p`, in order. */
  method FilterLoop<T>(p: T -> bool, s: seq<T>) returns (r: seq<T>)
    ensures r == Filter(p, s)
  {
    r := [];
    var j := 0;
    while j < |s|
      invariant 0 <= j <= |s|
      invariant r == Filter(p, s[..j])
    {
      FilterSnoc(p, s, j);
      if p(s[j]) {
        r := r + [s[j]];
      }
      j := j + 1;
    }
    assert s[..|s|] == s;
  }

  /** When every element qualifies, the filter changes nothing. */
  lemma {:induction false} FilterAll<T>(p: T -> bool, s: seq<T>)
    requires forall x :: x in s ==> p(x)
    ensures Filter(p, s) == s
  {
    if s != [] {
      FilterAll(p, s[1..]);
    }
  }

  /** Predicates that agree everywhere select the same elements. */
  lemma {:induction false} FilterExt<T>(p: T -> bool, q: T -> bool, s: seq<T>)
    requires forall x :: p(x) == q(x)
    ensures Filter(p, s) == Filter(q, s)
  {
    if s != [] {
      FilterExt(p, q, s[1..]);
    }
  }

  /** Filtering twice with the same predicate is filtering once. */
  lemma FilterIdempotent<T>(p: T -> bool, s: seq<T>)
    ensures Filter(p, Filter(p, s)) == Filter(p, s)
  {
    FilterAll(p, Filter(p, s));
  }

  lemma {:induction false} SubseqTrans<T>(a: seq<T>, b: seq<T>, c: seq<T>)
    requires SubseqOf(a, b) && SubseqOf(b, c)
    ensures SubseqOf(a, c)
    decreases |c|
  {
    if a != [] && c != [] {
      if b[0] == c[0] && SubseqOf(b[1..], c[1..]) {
        if a[0] == b[0] && SubseqOf(a[1..], b[1..]) {
          SubseqTrans(a[1..], b[1..], c[1..]);
        } else {
          SubseqTrans(a, b[1..], c[1..]);
        }
      } else {
        SubseqTrans(a, b, c[1..]);
      }
    }
  }

  /** The elements of `s` whose position is marked in `m`: selection by a boolean row mask. */
  function Select<T>(s: seq<T>, m: seq<bool>): (r: seq<T>)
    requires |m| == |s|
    ensures |r| <= |s|
    ensures forall i :: 0 <= i < |s| && m[i] ==> s[i] in r
    ensures forall x :: x in r ==> exists i :: 0 <= i < |s| && m[i] && s[i] == x
  {
    if s == [] then []
    else
      var rest := Select(s[1..], m[1..]);
      assert forall x :: x in rest ==> exists i :: 0 <= i < |s| && m[i] && s[i] == x by {
        forall x | x in rest
          ensures exists i :: 0 <= i < |s| && m[i] && s[i] == x
        {
          var i :| 0 <= i < |s| - 1 && m[1..][i] && s[1..][i] == x;
          assert m[i + 1] && s[i + 1] == x;
        }
      }
      (if m[0] then [s[0]] else []) + rest
  }

  lemma {:induction false} SelectSubseq<T>(s: seq<T>, m: seq<bool>)
    requires |m| == |s|
    ensures SubseqOf(Select(s, m), s)
  {
    if s != [] {
      SelectSubseq(s[1..], m[1..]);
      var r := Select(s[1..], m[1..]);
      if m[0] {
        assert Select(s, m) == [s[0]] + r;
        assert ([s[0]] + r)[1..] == r;
      } else {
        assert Select(s, m) == r;
        if r != [] {
          assert SubseqOf(r, s[1..]);
        }
      }
    }
  }

  /** A relation that holds between every two selected elements, in order, holds along the selection. */
  lemma {:induction false} SelectPairwise<T>(s: seq<T>, m: seq<bool>, P: (T, T) -> bool)
    requires |m| == |s|
    requires forall i, j :: 0 <= i < j < |s| && m[i] && m[j] ==> P(s[i], s[j])
    ensures forall a, b :: 0 <= a < b < |Select(s, m)| ==> P(Select(s, m)[a], Select(s, m)[b])
  {
    if s != [] {
      var t, n := s[1..], m[1..];
      forall i, j | 0 <= i < j < |t| && n[i] && n[j]
        ensures P(t[i], t[j])
      {
        assert s[i + 1] == t[i] && s[j + 1] == t[j];
      }
      SelectPairwise(t, n, P);
      var rest := Select(t, n);
      if m[0] {
        var r := [s[0]] + rest;
        assert Select(s, m) == r;
        forall a, b | 0 <= a < b < |r|
          ensures P(r[a], r[b])
        {
          if a == 0 {
            assert r[b] == rest[b - 1] && r[b] in rest;
            var i :| 0 <= i < |t| && n[i] && t[i] == r[b];
            assert s[i + 1] == r[b] && m[i + 1];
          } else {
            assert r[a] == rest[a - 1] && r[b] == rest[b - 1];
          }
        }
      } else {
        assert Select(s, m) == rest;
      }
    }
  }

  lemma SplitJoin<T>(s: seq<T>, n: nat)
    requires n <= |s|
    ensures s[..n] + s[n..] == s
  {
  }

  /** A prefix one longer is the prefix and the next element. */
  lemma TakeSnoc<T>(s: seq<T>, i: nat)
    requires i < |s|
    ensures s[..i + 1] == s[..i] + [s[i]]
  {
  }

  /** Applying `f` to every element. */
  function Map<T, U>(f: T -> U, s: seq<T>): (r: seq<U>)
    ensures |r| == |s|
    ensures forall i :: 0 <= i < |s| ==> r[i] == f(s[i])
  {
    if s == [] then [] else [f(s[0])] + Map(f, s[1..])
  }

  /** The positions of the elements of `s` that satisfy `p`, in increasing order. */
  function Positions<T>(p: T -> bool, s: seq<T>): (r: seq<nat>)
    ensures forall k :: 0 <= k < |r| ==> r[k] < |s| && p(s[r[k]])
    ensures forall k, l :: 0 <= k < l < |r| ==> r[k] < r[l]
    ensures forall i :: 0 <= i < |s| && p(s[i]) ==> i in r
  {
    if s == [] then []
    else
      var n := |s| - 1;
      Positions(p, s[..n]) + (if p(s[n]) then [n] else [])
  }

  /**
   * `r` lists `f` of every element of `s` that satisfies `p`: one entry per such
   * element, in the order of `s`.
   */
  predicate Lists<T, U(==)>(f: T -> U, p: T -> bool, r: seq<U>, s: seq<T>) {
    var at := Positions(p, s);
    |r| == |at| && forall k :: 0 <= k < |r| ==> r[k] == f(s[at[k]])
  }

  /** The `k`-th selected element sits at the `k`-th qualifying position. */
  lemma {:induction false} FilterPositions<T>(p: T -> bool, s: seq<T>)
    ensures |Filter(p, s)| == |Positions(p, s)|
    ensures forall k :: 0 <= k < |Filter(p, s)| ==> Filter(p, s)[k] == s[Positions(p, s)[k]]
    decreases |s|
  {
    if s != [] {
      var n := |s| - 1;
      var init := s[..n];
      FilterPositions(p, init);
      FilterSnoc(p, s, n);
      assert s[..n + 1] == s;
      var last := if p(s[n]) then [s[n]] else [];
      var f, at := Filter(p, init), Positions(p, init);
      assert Filter(p, s) == f + last;
      assert Positions(p, s) == at + (if p(s[n]) then [n] else []);
      forall k | 0 <= k < |Filter(p, s)| ensures Filter(p, s)[k] == s[Positions(p, s)[k]] {
        if k < |f| {
          assert Filter(p, s)[k] == f[k] == init[at[k]];
          assert Positions(p, s)[k] == at[k];
        }
      }
    }
  }

  /** Mapping a selection lists the mapped selected elements in order. */
  lemma MapFilterLists<T, U>(f: T -> U, p: T -> bool, s: seq<T>)
    ensures Lists(f, p, Map(f, Filter(p, s)), s)
  {
    FilterPositions(p, s);
  }

  /** Each element of a mapped selection is the image of a selected element. */
  lemma MapFilterFrom<T, U>(f: T -> U, p: T -> bool, s: seq<T>, k: nat)
    requires k < |Map(f, Filter(p, s))|
    ensures exists i :: 0 <= i < |s| && p(s[i]) && f(s[i]) == Map(f, Filter(p, s))[k]
  {
    var x := Filter(p, s)[k];
    assert x in Filter(p, s);
    var i :| 0 <= i < |s| && s[i] == x;
    assert p(s[i]) && f(s[i]) == Map(f, Filter(p, s))[k];
  }

  lemma {:induction false} MapConcat<T, U>(f: T -> U, a: seq<T>, b: seq<T>)
    ensures Map(f, a + b) == Map(f, a) + Map(f, b)
  {
    var l, r := Map(f, a + b), Map(f, a) + Map(f, b);
    assert |l| == |r|;
    forall i | 0 <= i < |l|
      ensures l[i] == r[i]
    {
      if i < |a| {
        assert (a + b)[i] == a[i];
      } else {
        assert (a + b)[i] == b[i - |a|];
      }
    }
  }

  /** The concatenation of the sequences of `ss`, in order. */
  function Flatten<T>(ss: seq<seq<T>>): (r: seq<T>)
    ensures forall x :: x in r ==> exists k :: 0 <= k < |ss| && x in ss[k]
  {
    if ss == [] then []
    else
      var r := Flatten(ss[..|ss| - 1]) + ss[|ss| - 1];
      assert forall x :: x in r ==> exists k :: 0 <= k < |ss| && x in ss[k] by {
        forall x | x in r ensures exists k :: 0 <= k < |ss| && x in ss[k] {
          if x !in ss[|ss| - 1] {
            var k :| 0 <= k < |ss| - 1 && x in ss[..|ss| - 1][k];
            assert ss[k] == ss[..|ss| - 1][k];
          }
        }
      }
      r
  }

  /** Only empty parts flatten to nothing. */
  lemma {:induction false} FlattenEmpty<T>(ss: seq<seq<T>>)
    requires forall k :: 0 <= k < |ss| ==> ss[k] == []
    ensures Flatten(ss) == []
  {
    if ss != [] {
      FlattenEmpty(ss[..|ss| - 1]);
    }
  }

  /** The position of the first element of `s` satisfying `p`: a search loop with early return. */
  function FirstIndex<T>(p: T -> bool, s: seq<T>): (r: Option<nat>)
    ensures r.None? <==> forall i :: 0 <= i < |s| ==> !p(s[i])
    ensures r.Some? ==> r.value < |s| && p(s[r.value])
    ensures r.Some? ==> forall j :: 0 <= j < r.value ==> !p(s[j])
  {
    if s == [] then None
    else if p(s[0]) then Some(0)
    else
      match FirstIndex(p, s[1..])
      case None => None
      case Some(k) => Some(k + 1)
  }
}
