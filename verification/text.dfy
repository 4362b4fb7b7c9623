/**
 * String helpers with Python's meaning for the ASCII range: `str.lower`, `str.upper`,
 * `str.capitalize`, `str.strip`, `str.split()`, `' '.join`, the `in` substring test and
 * the regular-expression class `\s`.
 */
module Text {

  /**
   * Python's whitespace for `\s`, `str.strip()` and `str.split()`, restricted to ASCII:
   * space, tab to carriage return, and the four separators 0x1C to 0x1F.
   */
  predicate IsSpace(c: char) {
    c == ' ' || '\t' <= c <= '\r' || '\U{001C}' <= c <= '\U{001F}'
  }

  predicate IsDigit(c: char) {
    '0' <= c <= '9'
  }

  function LowerChar(c: char): char {
    if 'A' <= c <= 'Z' then (c as int + 32) as char else c
  }

  function UpperChar(c: char): char {
    if 'a' <= c <= 'z' then (c as int - 32) as char else c
  }

  function Lower(s: string): (r: string)
    ensures |r| == |s|
    ensures forall i :: 0 <= i < |s| ==> r[i] == LowerChar(s[i])
  {
    seq(|s|, i requires 0 <= i < |s| => LowerChar(s[i]))
  }

  /**
   * What `str.lower` promises on ASCII: no upper-case letter is left, every other
   * character is kept, each upper-case letter becomes its lower-case partner, and
   * lower-casing lower-cased text changes nothing.
   */
  lemma LowerMeaning(s: string)
    ensures forall i :: 0 <= i < |s| ==> !('A' <= Lower(s)[i] <= 'Z')
    ensures forall i :: 0 <= i < |s| && !('A' <= s[i] <= 'Z') ==> Lower(s)[i] == s[i]
    ensures forall i :: 0 <= i < |s| && 'A' <= s[i] <= 'Z' ==>
      'a' <= Lower(s)[i] <= 'z' && Lower(s)[i] as int == s[i] as int + 32
    ensures Lower(Lower(s)) == Lower(s)
  {
  }

  function Upper(s: string): (r: string)
    ensures |r| == |s|
    ensures forall i :: 0 <= i < |s| ==> r[i] == UpperChar(s[i])
  {
    seq(|s|, i requires 0 <= i < |s| => UpperChar(s[i]))
  }

  /** `str.capitalize`: first character upper-cased, the rest lower-cased. */
  function Capitalize(s: string): (r: string)
    ensures |r| == |s|
  {
    if s == [] then [] else [UpperChar(s[0])] + Lower(s[1..])
  }

  /** Lower-casing forgets what `Capitalize` did. */
  lemma LowerCapitalize(s: string)
    ensures Lower(Capitalize(s)) == Lower(s)
  {
    if s != [] {
      var c := Capitalize(s);
      forall i | 0 <= i < |s| ensures Lower(c)[i] == Lower(s)[i] {
        if i > 0 {
          assert c[i] == Lower(s[1..])[i - 1];
        }
      }
    }
  }

  /** `t` occurs in `s` at position `i`. */
  predicate StartsAt(s: string, t: string, i: int) {
    0 <= i && i + |t| <= |s| && s[i..i + |t|] == t
  }

  /** Python's `t in s` for strings: `t` occurs somewhere in `s`. */
  predicate Contains(s: string, t: string) {
    exists j :: 0 <= j <= |s| && StartsAt(s, t, j)
  }

  /** `t` matches `s` at position `i` from the `k`-th character of `t` on. */
  predicate MatchesAt(s: string, t: string, i: nat, k: nat)
    requires i + |t| <= |s| && k <= |t|
    decreases |t| - k
  {
    k == |t| || (s[i + k] == t[k] && MatchesAt(s, t, i, k + 1))
  }

  /** The left-to-right substring search: `t` occurs in `s` at position `i` or later. */
  predicate SearchFrom(s: string, t: string, i: nat)
    decreases |s| - i
  {
    i + |t| <= |s| && (MatchesAt(s, t, i, 0) || SearchFrom(s, t, i + 1))
  }

  lemma {:induction false} MatchesAtIff(s: string, t: string, i: nat, k: nat)
    requires i + |t| <= |s| && k <= |t|
    ensures MatchesAt(s, t, i, k) <==> forall m :: k <= m < |t| ==> s[i + m] == t[m]
    decreases |t| - k
  {
    if k < |t| {
      MatchesAtIff(s, t, i, k + 1);
    }
  }

  lemma {:induction false} SearchFromIff(s: string, t: string, i: nat)
    ensures SearchFrom(s, t, i) <==> exists j :: i <= j && StartsAt(s, t, j)
    decreases |s| - i
  {
    if i + |t| <= |s| {
      MatchesAtIff(s, t, i, 0);
      SearchFromIff(s, t, i + 1);
      if MatchesAt(s, t, i, 0) {
        assert s[i..i + |t|] == t;
        assert StartsAt(s, t, i);
      }
      if StartsAt(s, t, i) {
        forall m | 0 <= m < |t| ensures s[i + m] == t[m] {
          assert s[i..i + |t|][m] == s[i + m];
        }
      }
    } else {
      assert forall j :: i <= j ==> !StartsAt(s, t, j);
    }
  }

  /** The search from the start decides containment. */
  lemma SearchDecides(s: string, t: string)
    ensures SearchFrom(s, t, 0) <==> Contains(s, t)
  {
    SearchFromIff(s, t, 0);
  }

  /** A string contains each of its infixes. */
  lemma ContainsInfix(a: string, t: string, b: string)
    ensures Contains(a + t + b, t)
  {
    assert StartsAt(a + t + b, t, |a|) by {
      assert (a + t + b)[|a|..|a| + |t|] == t;
    }
  }

  /** A string cannot contain a string with a character it lacks. */
  lemma NotContainsChar(s: string, t: string, c: char)
    requires c in t && c !in s
    ensures !Contains(s, t)
  {
  }

  lemma ContainsSelf(t: string)
    ensures Contains(t, t)
  {
    assert StartsAt(t, t, 0);
  }

  /** Drops leading whitespace. */
  function TrimLeft(s: string): (r: string)
    ensures |r| <= |s| && r == s[|s| - |r|..]
    ensures r == [] || !IsSpace(r[0])
    ensures forall i :: 0 <= i < |s| - |r| ==> IsSpace(s[i])
    ensures s != [] && !IsSpace(s[0]) ==> r == s
  {
    if s != [] && IsSpace(s[0]) then
      var r := TrimLeft(s[1..]);
      assert forall i :: 1 <= i < |s| - |r| ==> s[i] == s[1..][i - 1];
      r
    else s
  }

  /** Drops trailing whitespace. */
  function TrimRight(s: string): (r: string)
    ensures |r| <= |s| && r == s[..|r|]
    ensures r == [] || !IsSpace(r[|r| - 1])
    ensures s != [] && !IsSpace(s[|s| - 1]) ==> r == s
  {
    if s != [] && IsSpace(s[|s| - 1]) then TrimRight(s[..|s| - 1]) else s
  }

  /** `str.strip()`. */
  function Strip(s: string): string {
    TrimRight(TrimLeft(s))
  }

  /** No leading and no trailing whitespace. */
  predicate Stripped(s: string) {
    s == [] || (!IsSpace(s[0]) && !IsSpace(s[|s| - 1]))
  }

  lemma StripStripped(s: string)
    ensures Stripped(Strip(s))
    ensures Stripped(s) ==> Strip(s) == s
  {
    var l := TrimLeft(s);
    var r := TrimRight(l);
    if r != [] {
      assert r == l[..|r|];
      assert r[0] == l[0];
    }
  }

  /** `re.sub(r'\s+', ' ', s)`: every run of whitespace becomes one space. */
  function Collapse(s: string): (r: string)
    ensures |r| <= |s|
    ensures r == [] <==> s == []
    decreases |s|
  {
    if s == [] then []
    else if IsSpace(s[0]) then " " + Collapse(TrimLeft(s[1..]))
    else [s[0]] + Collapse(s[1..])
  }

  /** Every whitespace character is a single space not followed by another whitespace. */
  predicate Normal(s: string) {
    forall i :: 0 <= i < |s| && IsSpace(s[i]) ==> s[i] == ' ' && (i + 1 < |s| ==> !IsSpace(s[i + 1]))
  }

  lemma {:induction false} CollapseNormal(s: string)
    ensures Normal(Collapse(s))
    decreases |s|
  {
    if s != [] {
      if IsSpace(s[0]) {
        var t := TrimLeft(s[1..]);
        CollapseNormal(t);
        var c := Collapse(t);
        if t != [] {
          CollapseFirst(t);
        }
        assert Collapse(s) == " " + c;
        forall i | 0 <= i < |Collapse(s)| && IsSpace(Collapse(s)[i])
          ensures Collapse(s)[i] == ' ' && (i + 1 < |Collapse(s)| ==> !IsSpace(Collapse(s)[i + 1]))
        {
          if i > 0 {
            assert Collapse(s)[i] == c[i - 1];
          }
        }
      } else {
        CollapseNormal(s[1..]);
        var c := Collapse(s[1..]);
        assert Collapse(s) == [s[0]] + c;
        forall i | 0 <= i < |Collapse(s)| && IsSpace(Collapse(s)[i])
          ensures Collapse(s)[i] == ' ' && (i + 1 < |Collapse(s)| ==> !IsSpace(Collapse(s)[i + 1]))
        {
          assert i > 0;
          assert Collapse(s)[i] == c[i - 1];
        }
      }
    }
  }

  /** A non-whitespace first character survives collapsing. */
  lemma CollapseFirst(s: string)
    requires s != [] && !IsSpace(s[0])
    ensures Collapse(s)[0] == s[0]
  {
  }

  /** A non-whitespace last character survives collapsing. */
  lemma {:induction false} CollapseLast(s: string)
    requires s != [] && !IsSpace(s[|s| - 1])
    ensures Collapse(s)[|Collapse(s)| - 1] == s[|s| - 1]
    decreases |s|
  {
    if IsSpace(s[0]) {
      var t := TrimLeft(s[1..]);
      assert t != [] && t[|t| - 1] == s[|s| - 1];
      CollapseLast(t);
    } else if |s| > 1 {
      CollapseLast(s[1..]);
    }
  }

  /** Collapsing leaves a normal string alone. */
  lemma {:induction false} CollapseFixed(s: string)
    requires Normal(s)
    ensures Collapse(s) == s
    decreases |s|
  {
    if s != [] {
      assert Normal(s[1..]) by {
        forall i | 0 <= i < |s[1..]| && IsSpace(s[1..][i])
          ensures s[1..][i] == ' ' && (i + 1 < |s[1..]| ==> !IsSpace(s[1..][i + 1]))
        {
          assert s[1..][i] == s[i + 1];
        }
      }
      if IsSpace(s[0]) {
        assert TrimLeft(s[1..]) == s[1..];
      }
      CollapseFixed(s[1..]);
    }
  }

  /** Python's `sep.join(words)`. */
  function Join(words: seq<string>, sep: string): string {
    if words == [] then ""
    else if |words| == 1 then words[0]
    else words[0] + (sep + Join(words[1..], sep))
  }

  /** The longest prefix of `s` without whitespace. */
  function TakeWord(s: string): (r: string)
    ensures |r| <= |s| && r == s[..|r|]
    ensures forall i :: 0 <= i < |r| ==> !IsSpace(r[i])
    ensures |r| < |s| ==> IsSpace(s[|r|])
  {
    if s == [] || IsSpace(s[0]) then [] else [s[0]] + TakeWord(s[1..])
  }

  /** Python's `str.split()` with no separator: the maximal whitespace-free runs. */
  function Split(s: string): (r: seq<string>)
    ensures forall w :: w in r ==> w != [] && forall i :: 0 <= i < |w| ==> !IsSpace(w[i])
    decreases |s|
  {
    var t := TrimLeft(s);
    if t == [] then []
    else
      var w := TakeWord(t);
      [w] + Split(t[|w|..])
  }

  /** A word of `str.split()`: not empty and free of whitespace. */
  predicate IsWord(w: string) {
    w != [] && forall i :: 0 <= i < |w| ==> !IsSpace(w[i])
  }

  /** The word is read whole when whitespace or the end follows it. */
  lemma {:induction false} TakeWordPrefix(w: string, tail: string)
    requires forall i :: 0 <= i < |w| ==> !IsSpace(w[i])
    requires tail == [] || IsSpace(tail[0])
    ensures TakeWord(w + tail) == w
  {
    if w != [] {
      TakeWordPrefix(w[1..], tail);
      assert (w + tail)[1..] == w[1..] + tail;
      assert w == [w[0]] + w[1..];
    } else {
      assert w + tail == tail;
    }
  }

  /** Leading whitespace does not change the split. */
  lemma SplitSpace(s: string)
    ensures Split(" " + s) == Split(s)
  {
    var t := " " + s;
    assert TrimLeft(t) == TrimLeft(s) by {
      assert t[0] == ' ' && t[1..] == s;
    }
  }

  /** A word followed by whitespace or the end is split off whole. */
  lemma SplitStep(w: string, tail: string)
    requires IsWord(w)
    requires tail == [] || IsSpace(tail[0])
    ensures Split(w + tail) == [w] + Split(tail)
  {
    var s := w + tail;
    assert s[0] == w[0];
    assert TrimLeft(s) == s;
    TakeWordPrefix(w, tail);
    assert s[|w|..] == tail;
  }

  /** Splitting words joined by single spaces gives the words back. */
  lemma {:induction false} SplitOfJoin(words: seq<string>)
    requires forall k :: 0 <= k < |words| ==> IsWord(words[k])
    ensures Split(Join(words, " ")) == words
  {
    if words != [] {
      var w := words[0];
      var rest := words[1..];
      assert words == [w] + rest;
      if rest == [] {
        assert Split(w + "") == [w] + Split("") by {
          SplitStep(w, "");
        }
        assert w + "" == w;
      } else {
        var tail := " " + Join(rest, " ");
        assert Split(tail) == rest by {
          SplitSpace(Join(rest, " "));
          assert forall k :: 0 <= k < |rest| ==> IsWord(rest[k]) by {
            forall k | 0 <= k < |rest| ensures IsWord(rest[k]) {
              assert rest[k] == words[k + 1];
            }
          }
          SplitOfJoin(rest);
        }
        assert Split(w + tail) == [w] + Split(tail) by {
          SplitStep(w, tail);
        }
      }
    }
  }

  function DigitChar(d: nat): char
    requires d < 10
  {
    ('0' as int + d) as char
  }

  function DigitValue(c: char): nat
    requires IsDigit(c)
  {
    c as int - '0' as int
  }

  /** Python's `str(n)` for a natural number. */
  function NatToString(n: nat): (r: string)
    ensures |r| >= 1
    ensures forall i :: 0 <= i < |r| ==> IsDigit(r[i])
  {
    if n < 10 then [DigitChar(n)] else NatToString(n / 10) + [DigitChar(n % 10)]
  }

  /** Python's `str(i)` for an integer. */
  function IntToString(i: int): string {
    if i < 0 then "-" + NatToString(-i) else NatToString(i)
  }

  predicate AllDigits(s: string) {
    forall i :: 0 <= i < |s| ==> IsDigit(s[i])
  }

  function Pow10(n: nat): (r: nat)
    ensures r >= 1
  {
    if n == 0 then 1 else 10 * Pow10(n - 1)
  }

  /** The natural number written by a string of decimal digits (0 for the empty string). */
  function DigitsValue(s: string): nat
    requires forall i :: 0 <= i < |s| ==> IsDigit(s[i])
  {
    if s == [] then 0 else DigitsValue(s[..|s| - 1]) * 10 + DigitValue(s[|s| - 1])
  }

  /** Reading back what `NatToString` wrote gives the number. */
  lemma {:induction false} DigitsOfNat(n: nat)
    ensures DigitsValue(NatToString(n)) == n
  {
    var s := NatToString(n);
    if n >= 10 {
      DigitsOfNat(n / 10);
      assert s[..|s| - 1] == NatToString(n / 10);
    }
  }

  /** The non-whitespace characters of `s`, in order. */
  function NonSpace(s: string): string {
    if s == [] then [] else (if IsSpace(s[0]) then [] else [s[0]]) + NonSpace(s[1..])
  }

  lemma {:induction false} NonSpaceConcat(a: string, b: string)
    ensures NonSpace(a + b) == NonSpace(a) + NonSpace(b)
  {
    if a == [] {
      assert a + b == b;
    } else {
      assert (a + b)[1..] == a[1..] + b;
      NonSpaceConcat(a[1..], b);
    }
  }

  lemma {:induction false} NonSpaceTrimLeft(s: string)
    ensures NonSpace(TrimLeft(s)) == NonSpace(s)
  {
    if s != [] && IsSpace(s[0]) {
      NonSpaceTrimLeft(s[1..]);
    }
  }

  lemma {:induction false} NonSpaceTrimRight(s: string)
    ensures NonSpace(TrimRight(s)) == NonSpace(s)
    decreases |s|
  {
    if s != [] && IsSpace(s[|s| - 1]) {
      var p := s[..|s| - 1];
      NonSpaceTrimRight(p);
      assert s == p + [s[|s| - 1]];
      NonSpaceConcat(p, [s[|s| - 1]]);
    }
  }

  /** Stripping only removes whitespace. */
  lemma NonSpaceStrip(s: string)
    ensures NonSpace(Strip(s)) == NonSpace(s)
  {
    NonSpaceTrimLeft(s);
    NonSpaceTrimRight(TrimLeft(s));
  }

  /** Collapsing only rewrites whitespace. */
  lemma {:induction false} NonSpaceCollapse(s: string)
    ensures NonSpace(Collapse(s)) == NonSpace(s)
    decreases |s|
  {
    if s != [] {
      if IsSpace(s[0]) {
        var t := TrimLeft(s[1..]);
        NonSpaceCollapse(t);
        NonSpaceTrimLeft(s[1..]);
        assert Collapse(s) == " " + Collapse(t);
        NonSpaceConcat(" ", Collapse(t));
      } else {
        NonSpaceCollapse(s[1..]);
        assert Collapse(s) == [s[0]] + Collapse(s[1..]);
        NonSpaceConcat([s[0]], Collapse(s[1..]));
      }
    }
  }

  lemma LowerIdempotent(s: string)
    ensures Lower(Lower(s)) == Lower(s)
  {
  }
}
