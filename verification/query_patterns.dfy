/**
 * The five question patterns of the natural-language query box and Python's `re.search`
 * for them: the leftmost position where the pattern matches, each `([^?]+)` group greedy
 * and given back one character at a time when the rest of the pattern needs it.
 */
module QueryPatterns {
  import opened Wrappers
  import opened Text

  /** What a matched question asks for, with its captured groups. */
  datatype Intent =
    | AskCaseCount(name: string)
    | AskRulings(name: string, party: string)
    | AskAverageAward(name: string)
    | AskCaseList(name: string)
    | AskSpecificRulings(arbitrator: string, respondent: string)
    | Unrecognised

  /** The five patterns, in the order the dispatcher tries them. */
  datatype Pattern = CountPattern | RulingsPattern | AveragePattern | ListPattern | SpecificPattern

  const CountHead: string := "how many arbitration"
  const CountMid: string := " has "
  const TimesHead: string := "how many times has "
  const ForComplainant: string := " ruled for the complainant"
  const ForConsumer: string := " ruled for the consumer"
  const AverageHead: string := "what was the average award given by "
  const ListHead: string := "list the names of all the arbitration"
  const ListMid: string := " handled by "
  const AgainstMid: string := " ruled for the consumer against "

  /** A captured group: never empty and never holding a `?`. */
  predicate Group(g: string) {
    g != [] && forall k :: 0 <= k < |g| ==> g[k] != '?'
  }

  /** The end of the longest run without `?` starting at `i`. */
  function RunEnd(s: string, i: nat): (e: nat)
    requires i <= |s|
    ensures i <= e <= |s|
    ensures forall k :: i <= k < e ==> s[k] != '?'
    ensures e == |s| || s[e] == '?'
    decreases |s| - i
  {
    if i == |s| || s[i] == '?' then i else RunEnd(s, i + 1)
  }

  /** A trailing `([^?]+)` at `i`: the whole run up to the next `?`, if it is not empty. */
  function TailGroup(s: string, i: nat): (r: Option<string>)
    ensures r.Some? ==> Group(r.value) && StartsAt(s, r.value, i)
    ensures r.Some? ==> i + |r.value| == |s| || s[i + |r.value|] == '?'
    ensures r.None? <==> i >= |s| || s[i] == '?'
  {
    if i < |s| && s[i] != '?' then Some(s[i..RunEnd(s, i)]) else None
  }

  /**
   * The greedy `s?` before a literal that starts with a space: it takes the `s` when
   * there is one, and giving it back cannot help because the literal would then have to
   * start at that `s`.
   */
  function OptionalS(s: string, k: nat): nat {
    if k < |s| && s[k] == 's' then k + 1 else k
  }

  /**
   * What follows the first group of the two "how many times has" patterns, when it starts
   * at `e`: the party for the rulings pattern (the alternatives tried in order), the
   * respondent group for the specific pattern.
   */
  function RestAt(p: Pattern, s: string, e: nat): Option<string> {
    if p == RulingsPattern then
      if StartsAt(s, ForComplainant, e) then Some("complainant")
      else if StartsAt(s, ForConsumer, e) then Some("consumer")
      else None
    else if StartsAt(s, AgainstMid, e) then TailGroup(s, e + |AgainstMid|)
    else None
  }

  /**
   * Backtracking of the first group, which starts at `k`: the end `e` in `(k, hi]` at
   * which the rest of the pattern matches, trying the largest first.
   */
  function Backtrack(p: Pattern, s: string, k: nat, hi: nat): (r: Option<(nat, string)>)
    ensures r.Some? ==> k < r.value.0 <= hi && RestAt(p, s, r.value.0) == Some(r.value.1)
    decreases hi
  {
    if hi <= k then None
    else
      match RestAt(p, s, hi)
      case Some(g) => Some((hi, g))
      case None => Backtrack(p, s, k, hi - 1)
  }

  /** The backtracking fails only when no end in range works. */
  lemma {:induction false} BacktrackFinds(p: Pattern, s: string, k: nat, hi: nat, e: nat)
    requires k < e <= hi && RestAt(p, s, e).Some?
    ensures Backtrack(p, s, k, hi).Some?
    decreases hi
  {
    if e < hi && RestAt(p, s, hi).None? {
      BacktrackFinds(p, s, k, hi - 1, e);
    }
  }

  /** The end it settles on is the largest that works: the group is greedy. */
  lemma {:induction false} BacktrackGreedy(p: Pattern, s: string, k: nat, hi: nat, e: nat)
    requires Backtrack(p, s, k, hi).Some? && Backtrack(p, s, k, hi).value.0 < e <= hi
    ensures RestAt(p, s, e).None?
    decreases hi
  {
    if RestAt(p, s, hi).None? && e < hi {
      BacktrackGreedy(p, s, k, hi - 1, e);
    }
  }

  /** The pattern matched at position `j`, with its groups. */
  function MatchAt(p: Pattern, s: string, j: nat): (r: Option<Intent>)
    ensures r.Some? && p == CountPattern ==> r.value.AskCaseCount? && Group(r.value.name)
    ensures r.Some? && p == RulingsPattern ==>
      r.value.AskRulings? && Group(r.value.name) && r.value.party in {"complainant", "consumer"}
    ensures r.Some? && p == AveragePattern ==> r.value.AskAverageAward? && Group(r.value.name)
    ensures r.Some? && p == ListPattern ==> r.value.AskCaseList? && Group(r.value.name)
    ensures r.Some? && p == SpecificPattern ==>
      r.value.AskSpecificRulings? && Group(r.value.arbitrator) && Group(r.value.respondent)
  {
    match p
    case CountPattern =>
      if !StartsAt(s, CountHead, j) then None
      else
        var k := OptionalS(s, j + |CountHead|);
        if !StartsAt(s, CountMid, k) then None
        else (match TailGroup(s, k + |CountMid|) case Some(g) => Some(AskCaseCount(g)) case None => None)
    case AveragePattern =>
      if !StartsAt(s, AverageHead, j) then None
      else (match TailGroup(s, j + |AverageHead|) case Some(g) => Some(AskAverageAward(g)) case None => None)
    case ListPattern =>
      if !StartsAt(s, ListHead, j) then None
      else
        var k := OptionalS(s, j + |ListHead|);
        if !StartsAt(s, ListMid, k) then None
        else (match TailGroup(s, k + |ListMid|) case Some(g) => Some(AskCaseList(g)) case None => None)
    case RulingsPattern =>
      (match TimesMatch(p, s, j) case Some(m) => Some(AskRulings(m.0, m.1)) case None => None)
    case SpecificPattern =>
      (match TimesMatch(p, s, j) case Some(m) => Some(AskSpecificRulings(m.0, m.1)) case None => None)
  }

  /** The two "how many times has" patterns at `j`: the first group and what the rest captured. */
  function TimesMatch(p: Pattern, s: string, j: nat): (r: Option<(string, string)>)
    ensures r.Some? ==> Group(r.value.0)
    ensures r.Some? && p == RulingsPattern ==> r.value.1 in {"complainant", "consumer"}
    ensures r.Some? && p != RulingsPattern ==> Group(r.value.1)
  {
    if !StartsAt(s, TimesHead, j) then None
    else
      var k := j + |TimesHead|;
      match Backtrack(p, s, k, RunEnd(s, k))
      case None => None
      case Some((e, rest)) => Some((s[k..e], rest))
  }

  /** The first result `f` gives at a position from `j` to `n`, and the position it is at. */
  function FirstSome<T>(f: nat -> Option<T>, j: nat, n: nat): (r: Option<T>)
    requires j <= n
    ensures r.None? <==> forall x :: j <= x <= n ==> f(x).None?
    ensures r.Some? ==> exists x :: j <= x <= n && f(x) == r && forall y :: j <= y < x ==> f(y).None?
    decreases n - j
  {
    if f(j).Some? then f(j)
    else if j == n then None
    else FirstSome(f, j + 1, n)
  }

  /** `re.search`: the match at the leftmost position `j` or later where the pattern matches. */
  function LeftmostFrom(p: Pattern, s: string, j: nat): (r: Option<Intent>)
    requires j <= |s|
    ensures r.None? <==> forall x :: j <= x <= |s| ==> MatchAt(p, s, x).None?
    ensures r.Some? ==>
      exists x :: j <= x <= |s| && MatchAt(p, s, x) == r && forall y :: j <= y < x ==> MatchAt(p, s, y).None?
  {
    var f := (x: nat) => MatchAt(p, s, x);
    assert forall x: nat :: f(x) == MatchAt(p, s, x);
    FirstSome(f, j, |s|)
  }

  function Search(p: Pattern, s: string): Option<Intent> {
    LeftmostFrom(p, s, 0)
  }

  /**
   * `process_natural_language_query`'s dispatch: the lower-cased query is tried against
   * the five patterns in order and the first that matches decides the intent.
   */
  function Parse(query: string): (r: Intent)
    ensures r.AskCaseCount? <==> Search(CountPattern, Lower(query)).Some?
    ensures r.AskRulings? <==>
      Search(CountPattern, Lower(query)).None? && Search(RulingsPattern, Lower(query)).Some?
    ensures r.AskAverageAward? <==>
      Search(CountPattern, Lower(query)).None? && Search(RulingsPattern, Lower(query)).None?
      && Search(AveragePattern, Lower(query)).Some?
    ensures r.AskSpecificRulings? ==>
      Search(RulingsPattern, Lower(query)).None? && Search(SpecificPattern, Lower(query)).Some?
    ensures r.Unrecognised? <==>
      forall p: Pattern :: Search(p, Lower(query)).None?
  {
    var q := Lower(query);
    if Search(CountPattern, q).Some? then Search(CountPattern, q).value
    else if Search(RulingsPattern, q).Some? then Search(RulingsPattern, q).value
    else if Search(AveragePattern, q).Some? then Search(AveragePattern, q).value
    else if Search(ListPattern, q).Some? then Search(ListPattern, q).value
    else if Search(SpecificPattern, q).Some? then Search(SpecificPattern, q).value
    else Unrecognised
  }

  /** Wherever the specific pattern matches, the rulings pattern matches too. */
  lemma SpecificMatchesRulings(s: string, j: nat)
    requires MatchAt(SpecificPattern, s, j).Some?
    ensures MatchAt(RulingsPattern, s, j).Some?
  {
    var k := j + |TimesHead|;
    var e := Backtrack(SpecificPattern, s, k, RunEnd(s, k)).value.0;
    assert StartsAt(s, ForConsumer, e) by {
      assert StartsAt(s, AgainstMid, e);
      assert s[e..e + |ForConsumer|] == s[e..e + |AgainstMid|][..|ForConsumer|];
      assert AgainstMid[..|ForConsumer|] == ForConsumer;
    }
    BacktrackFinds(RulingsPattern, s, k, RunEnd(s, k), e);
  }

  /**
   * The specific-rulings question is never dispatched: every query it matches is taken
   * by the rulings pattern, which is tried earlier.
   */
  lemma ParseNeverSpecific(query: string)
    ensures !Parse(query).AskSpecificRulings?
  {
    var q := Lower(query);
    if Search(SpecificPattern, q).Some? {
      assert Search(RulingsPattern, q).Some? by {
        var x :| 0 <= x <= |q| && MatchAt(SpecificPattern, q, x) == Search(SpecificPattern, q);
        SpecificMatchesRulings(q, x);
      }
    }
  }

  /**
   * The count group runs to the question mark, so words after the name are captured
   * with it.
   */
  lemma GreedyCountCapture(query: string, n: string)
    requires Lower(query) == CountHead + "s" + CountMid + n + "?"
    requires Group(n)
    ensures Parse(query) == AskCaseCount(n)
  {
    var q := Lower(query);
    var i := |CountHead| + 1 + |CountMid|;
    assert StartsAt(q, CountHead, 0) by {
      assert q[..|CountHead|] == CountHead;
    }
    assert q[|CountHead|] == 's';
    assert StartsAt(q, CountMid, |CountHead| + 1) by {
      assert q[|CountHead| + 1..i] == CountMid;
    }
    assert q[i..i + |n|] == n;
    assert q[i + |n|] == '?';
    assert TailGroup(q, i) == Some(n);
    assert MatchAt(CountPattern, q, 0) == Some(AskCaseCount(n));
  }
}
