/**
 * The cell cleaners of data_processor.py and its forum-keyword rules: string clean-up,
 * amount extraction, disposition standardisation, and the choice between AAA and JAMS.
 */
module Cleaners {
  import opened Wrappers
  import opened Text
  import opened Records

  // ---------------------------------------------------------------- strings

  /** `_clean_string`: strip, then turn every whitespace run into one space; null stays null. */
  function CleanString(v: Option<string>): (r: Option<string>)
    ensures r.None? <==> v.None?
    ensures r.Some? ==> Stripped(r.value) && Normal(r.value)
    ensures r.Some? ==> NonSpace(r.value) == NonSpace(v.value)
  {
    match v
    case None => None
    case Some(s) =>
      var t := Strip(s);
      StripStripped(s);
      CollapseNormal(t);
      NonSpaceStrip(s);
      NonSpaceCollapse(t);
      if t != [] then
        CollapseFirst(t);
        CollapseLast(t);
        Some(Collapse(t))
      else
        Some(Collapse(t))
  }

  /** Cleaning a cleaned string changes nothing. */
  lemma CleanStringIdempotent(v: Option<string>)
    ensures CleanString(CleanString(v)) == CleanString(v)
  {
    if v.Some? {
      var c := CleanString(v).value;
      StripStripped(c);
      CollapseFixed(c);
    }
  }

  // ---------------------------------------------------------------- amounts

  predicate IsAmountChar(c: char) {
    IsDigit(c) || c == '.' || c == '-'
  }

  /** `re.sub(r'[^\d.-]', '', s)`: keeps digits, dots and minus signs, in order. */
  function KeepAmountChars(s: string): (r: string)
    ensures |r| <= |s|
    ensures forall i :: 0 <= i < |r| ==> IsAmountChar(r[i])
  {
    if s == [] then [] else (if IsAmountChar(s[0]) then [s[0]] else []) + KeepAmountChars(s[1..])
  }

  /** Every kept character comes from the input. */
  lemma {:induction false} KeptFromInput(s: string, i: nat)
    requires i < |KeepAmountChars(s)|
    ensures exists j :: 0 <= j < |s| && s[j] == KeepAmountChars(s)[i]
  {
    var head := if IsAmountChar(s[0]) then [s[0]] else [];
    if i < |head| {
      assert s[0] == KeepAmountChars(s)[i];
    } else {
      KeptFromInput(s[1..], i - |head|);
      var j :| 0 <= j < |s[1..]| && s[1..][j] == KeepAmountChars(s[1..])[i - |head|];
      assert s[j + 1] == KeepAmountChars(s)[i];
    }
  }

  lemma {:induction false} KeepAmountCharsConcat(a: string, b: string)
    ensures KeepAmountChars(a + b) == KeepAmountChars(a) + KeepAmountChars(b)
  {
    if a == [] {
      assert a + b == b;
    } else {
      assert (a + b)[1..] == a[1..] + b;
      KeepAmountCharsConcat(a[1..], b);
    }
  }

  lemma {:induction false} KeepAmountCharsFixed(s: string)
    requires forall i :: 0 <= i < |s| ==> IsAmountChar(s[i])
    ensures KeepAmountChars(s) == s
  {
    if s != [] {
      KeepAmountCharsFixed(s[1..]);
    }
  }

  /** The position of the first `c` in `s`. */
  function FirstIndexOf(s: string, c: char): (r: Option<nat>)
    ensures r.None? <==> c !in s
    ensures r.Some? ==> r.value < |s| && s[r.value] == c && c !in s[..r.value]
  {
    if s == [] then None
    else if s[0] == c then Some(0)
    else
      var r := FirstIndexOf(s[1..], c);
      if r.None? then None
      else
        assert s[..r.value + 1] == [s[0]] + s[1..][..r.value];
        Some(r.value + 1)
  }

  /** The first `c` of `a + [c] + b` is the one after `a` when `a` holds none. */
  lemma {:induction false} FirstIndexAfter(a: string, c: char, b: string)
    requires c !in a
    ensures FirstIndexOf(a + [c] + b, c) == Some(|a|)
  {
    if a != [] {
      assert (a + [c] + b)[1..] == a[1..] + [c] + b;
      FirstIndexAfter(a[1..], c, b);
    }
  }

  /** The value of the digits after a decimal point. */
  function Fraction(frac: string): (r: real)
    requires AllDigits(frac)
    ensures 0.0 <= r
  {
    DigitsValue(frac) as real / Pow10(|frac|) as real
  }

  /** Python's `float()` on an unsigned decimal numeral `ddd`, `ddd.ddd`, `ddd.` or `.ddd`. */
  function ParseUnsigned(s: string): Option<real> {
    match FirstIndexOf(s, '.')
    case None =>
      if s != [] && AllDigits(s) then Some(DigitsValue(s) as real) else None
    case Some(k) =>
      var whole, frac := s[..k], s[k + 1..];
      if AllDigits(whole) && AllDigits(frac) && |whole| + |frac| >= 1 then
        Some(DigitsValue(whole) as real + Fraction(frac))
      else None
  }

  /**
   * Python's `float()` on a string made of digits, dots and minus signs: an optional
   * leading minus, then an unsigned numeral; anything else fails (None).
   */
  function ParseDecimal(s: string): Option<real> {
    if s != [] && s[0] == '-' then
      match ParseUnsigned(s[1..])
      case Some(x) => Some(-x)
      case None => None
    else ParseUnsigned(s)
  }

  /** A parse succeeds only on a string holding at least one digit: failure is never 0. */
  lemma ParseNeedsDigit(s: string)
    requires ParseDecimal(s).Some?
    ensures exists i :: 0 <= i < |s| && IsDigit(s[i])
  {
    var u := if s != [] && s[0] == '-' then s[1..] else s;
    assert ParseUnsigned(u).Some?;
    match FirstIndexOf(u, '.')
    case None =>
      assert IsDigit(u[0]);
      assert u[0] == s[|s| - |u|];
    case Some(k) =>
      if k > 0 {
        assert IsDigit(u[..k][0]);
        assert u[0] == s[|s| - |u|];
      } else {
        assert IsDigit(u[k + 1..][0]);
        assert u[k + 1] == s[|s| - |u| + k + 1];
      }
  }

  /** Reading back a whole number written in decimal. */
  lemma ParseNat(n: nat)
    ensures ParseDecimal(NatToString(n)) == Some(n as real)
  {
    var s := NatToString(n);
    DigitsOfNat(n);
    assert FirstIndexOf(s, '.').None?;
  }

  /** Reading back a numeral `whole.frac` whose whole part is not empty. */
  lemma ParseNumeral(whole: string, frac: string)
    requires whole != [] && AllDigits(whole) && AllDigits(frac)
    ensures ParseDecimal(whole + "." + frac) == Some(DigitsValue(whole) as real + Fraction(frac))
  {
    var s := whole + ['.'] + frac;
    assert whole + "." + frac == s;
    assert '.' !in whole;
    FirstIndexAfter(whole, '.', frac);
    assert s[..|whole|] == whole;
    assert s[|whole| + 1..] == frac;
    assert s[0] == whole[0] && IsDigit(whole[0]);
  }

  /** Reading back `whole.frac` for a whole number written in decimal. */
  lemma ParseWithFraction(n: nat, frac: string)
    requires AllDigits(frac)
    ensures ParseDecimal(NatToString(n) + "." + frac) == Some(n as real + Fraction(frac))
  {
    DigitsOfNat(n);
    ParseNumeral(NatToString(n), frac);
  }

  /** The value of a digit string is that of its head shifted past its tail, plus the tail. */
  lemma {:induction false} DigitsValueConcat(a: string, b: string)
    requires AllDigits(a) && AllDigits(b)
    ensures DigitsValue(a + b) == DigitsValue(a) * Pow10(|b|) + DigitsValue(b)
    decreases |b|
  {
    if b == [] {
      assert a + b == a;
    } else {
      var b' := b[..|b| - 1];
      var d := DigitValue(b[|b| - 1]);
      assert (a + b)[..|a + b| - 1] == a + b';
      assert (a + b)[|a + b| - 1] == b[|b| - 1];
      DigitsValueConcat(a, b');
      ShiftDigit(DigitsValue(a), Pow10(|b'|), DigitsValue(b'), d);
    }
  }

  lemma ShiftDigit(x: int, p: int, y: int, d: int)
    ensures (x * p + y) * 10 + d == x * (p * 10) + (y * 10 + d)
  {
  }

  /** A leading minus negates whatever the rest of the numeral is worth. */
  lemma ParseNegative(u: string)
    requires u == [] || u[0] != '-'
    ensures ParseDecimal("-" + u) == (match ParseDecimal(u) case Some(x) => Some(-x) case None => None)
  {
    assert ("-" + u)[1..] == u;
  }

  /**
   * `_extract_amount`: null gives None; a number is returned as a float unchanged;
   * text keeps only digits, dots and minus signs and is then parsed, failure giving None.
   * A date cell is rendered with inner dashes and colons, so its numeral never parses.
   */
  function ExtractAmount(v: Value): (r: Option<real>)
    ensures v.Null? ==> r.None?
    ensures v.Num? ==> r == Some(v.x)
    ensures v.Int? ==> r == Some(v.i as real)
    ensures v.Str? && r.Some? ==> exists i :: 0 <= i < |v.s| && IsDigit(v.s[i])
  {
    match v
    case Null => None
    case Num(x) => Some(x)
    case Int(i) => Some(i as real)
    case Bool(b) => Some(if b then 1.0 else 0.0)
    case Day(_) => None
    case Str(s) =>
      var t := KeepAmountChars(s);
      var r := ParseDecimal(t);
      if r.Some? then
        ParseNeedsDigit(t);
        var i :| 0 <= i < |t| && IsDigit(t[i]);
        KeptFromInput(s, i);
        r
      else r
  }

  /** Text is read by parsing its kept characters. */
  lemma ExtractText(s: string)
    ensures ExtractAmount(Str(s)) == ParseDecimal(KeepAmountChars(s))
  {
  }

  lemma KeepDropsOne(c: char)
    requires !IsAmountChar(c)
    ensures KeepAmountChars([c]) == []
  {
    assert [c][1..] == [];
  }

  /** Removing a character that is not kept splits the kept characters around it. */
  lemma KeepAroundDropped(a: string, c: char, b: string)
    requires !IsAmountChar(c)
    ensures KeepAmountChars(a + [c] + b) == KeepAmountChars(a) + KeepAmountChars(b)
  {
    KeepAmountCharsConcat(a + [c], b);
    KeepAmountCharsConcat(a, [c]);
    KeepDropsOne(c);
  }

  /**
   * A currency amount with a thousands separator, `$T,GGG.CC`, reads as T * 1000 + GGG
   * plus the cents.
   */
  lemma ExtractThousands(thousands: nat, group: string, cents: string)
    requires |group| == 3 && AllDigits(group) && AllDigits(cents)
    ensures ExtractAmount(Str("$" + NatToString(thousands) + "," + group + "." + cents))
            == Some((thousands * 1000 + DigitsValue(group)) as real + Fraction(cents))
  {
    var w := NatToString(thousands);
    KeepThousands(w, group, cents);
    GroupedValue(thousands, group);
    ParseNumeral(w + group, cents);
    ExtractText("$" + w + "," + group + "." + cents);
  }

  lemma KeepThousands(w: string, group: string, cents: string)
    requires AllDigits(w) && AllDigits(group) && AllDigits(cents)
    ensures KeepAmountChars("$" + w + "," + group + "." + cents) == (w + group) + "." + cents
  {
    var tail := group + "." + cents;
    assert "$" + w + "," + group + "." + cents == ("$" + w) + [','] + tail;
    KeepAroundDropped("$" + w, ',', tail);
    KeepDollarSign(w);
    KeepAmountCharsFixed(tail);
    assert w + tail == (w + group) + "." + cents;
  }

  lemma GroupedValue(thousands: nat, group: string)
    requires |group| == 3 && AllDigits(group)
    ensures AllDigits(NatToString(thousands) + group)
    ensures DigitsValue(NatToString(thousands) + group) == thousands * 1000 + DigitsValue(group)
  {
    DigitsValueConcat(NatToString(thousands), group);
    DigitsOfNat(thousands);
    assert Pow10(3) == 1000;
  }

  lemma FractionExample()
    ensures Fraction("67") == 0.67
  {
    assert DigitsValue("67") == 67 by {
      assert "67"[..1] == "6";
    }
    assert Pow10(2) == 100;
  }

  /** "$12,345.67" reads as 12345.67. */
  lemma ExtractDollarsExample(s: string)
    requires s == "$12,345.67"
    ensures ExtractAmount(Str(s)) == Some(12345.67)
  {
    DollarsExampleText(s);
    ExtractThousands(12, "345", "67");
    DollarsExampleValue();
  }

  lemma DollarsExampleText(s: string)
    requires s == "$12,345.67"
    ensures s == "$" + NatToString(12) + "," + "345" + "." + "67"
  {
    assert NatToString(12) == "12";
  }

  lemma DollarsExampleValue()
    ensures AllDigits("345")
    ensures (12 * 1000 + DigitsValue("345")) as real + Fraction("67") == 12345.67
  {
    assert DigitsValue("345") == 345 by {
      assert "345"[..2] == "34";
      assert "34"[..1] == "3";
    }
    FractionExample();
  }


  /** "N/A" holds no digit and reads as nothing. */
  lemma ExtractNotAvailable()
    ensures ExtractAmount(Str("N/A")) == None
  {
    assert KeepAmountChars("N/A") == "";
  }

  /** "-5" reads as -5. */
  lemma ExtractNegativeExample()
    ensures ExtractAmount(Str("-5")) == Some(-5.0)
  {
    KeepAmountCharsFixed("-5");
    ParseNat(5);
    assert NatToString(5) == "5";
    ParseNegative("5");
  }

  /** A dollar amount with cents, as a currency formatter writes it, is read back exactly. */
  lemma ExtractDollarsAndCents(dollars: nat, cents: string)
    requires AllDigits(cents)
    ensures ExtractAmount(Str("$" + NatToString(dollars) + "." + cents))
            == Some(dollars as real + Fraction(cents))
  {
    var body := NatToString(dollars) + "." + cents;
    assert "$" + NatToString(dollars) + "." + cents == "$" + body;
    KeepDollarSign(body);
    ParseWithFraction(dollars, cents);
    ExtractText("$" + body);
  }

  /** The dollar sign is dropped and a string of kept characters is left alone. */
  lemma KeepDollarSign(body: string)
    requires forall i :: 0 <= i < |body| ==> IsAmountChar(body[i])
    ensures KeepAmountChars("$" + body) == body
  {
    KeepAmountCharsConcat("$", body);
    assert KeepAmountChars("$") == [];
    KeepAmountCharsFixed(body);
  }

  // ---------------------------------------------------------------- dispositions

  // The keywords of the standardisation rules.
  const Settled := "settled"
  const Settlement := "settlement"
  const Dismissed := "dismissed"
  const Merit := "merit"
  const Dismissal := "dismissal"
  const Withdrawn := "withdrawn"
  const Awarded := "awarded"
  const Award := "award"
  const Administrative := "administrative"
  const Admin := "admin"

  /** The standardisation rules on an already lower-cased disposition, in precedence order. */
  function ClassifyLowered(t: string): string {
    if Contains(t, Settled) || Contains(t, Settlement) then "Settled"
    else if Contains(t, Dismissed) && Contains(t, Merit) then "Dismissed on the Merits"
    else if Contains(t, Dismissed) || Contains(t, Dismissal) then "Dismissed"
    else if Contains(t, Withdrawn) then "Withdrawn"
    else if Contains(t, Awarded) || Contains(t, Award) then "Awarded"
    else if Contains(t, Administrative) || Contains(t, Admin) then "Administrative"
    else Capitalize(t)
  }

  /** The lower-cased text matches none of the standardisation keywords. */
  predicate Unclassified(t: string) {
    !Contains(t, Settled) && !Contains(t, Settlement) && !Contains(t, Dismissed)
    && !Contains(t, Dismissal) && !Contains(t, Withdrawn) && !Contains(t, Awarded)
    && !Contains(t, Award) && !Contains(t, Administrative) && !Contains(t, Admin)
  }

  /** The six standard labels. */
  predicate IsStandardLabel(d: string) {
    d == "Settled" || d == "Dismissed on the Merits" || d == "Dismissed"
    || d == "Withdrawn" || d == "Awarded" || d == "Administrative"
  }

  /**
   * `_standardize_disposition`: null stays null; otherwise one of the six labels, or, when
   * no keyword occurs, the lower-cased text with its first character capitalised.
   */
  function StandardizeDisposition(v: Option<string>): (r: Option<string>)
    ensures r.None? <==> v.None?
    ensures r.Some? ==> IsStandardLabel(r.value) || Unclassified(Lower(v.value))
    ensures r.Some? && Unclassified(Lower(v.value)) ==> r.value == Capitalize(Lower(v.value))
  {
    match v
    case None => None
    case Some(s) => Some(ClassifyLowered(Lower(s)))
  }

  /** Each label classifies as itself. */
  lemma SettledFixed()
    ensures ClassifyLowered("settled") == "Settled"
  {
    ContainsSelf("settled");
  }

  lemma MeritsFixed()
    ensures ClassifyLowered("dismissed on the merits") == "Dismissed on the Merits"
  {
    assert "" + Dismissed + " on the " + Merit + "s" == "dismissed on the merits";
    MeritsRule("", " on the ", "s");
  }

  /** Text without an `l` that mentions a dismissal and then the merits is a dismissal on the merits. */
  lemma MeritsRule(a: string, b: string, c: string)
    requires 'l' !in a + b + c
    ensures ClassifyLowered(a + Dismissed + b + Merit + c) == "Dismissed on the Merits"
  {
    var t := a + Dismissed + b + Merit + c;
    NotContainsChar(t, Settled, 'l');
    NotContainsChar(t, Settlement, 'l');
    assert t == a + Dismissed + (b + Merit + c);
    ContainsInfix(a, Dismissed, b + Merit + c);
    assert t == (a + Dismissed + b) + Merit + c;
    ContainsInfix(a + Dismissed + b, Merit, c);
  }

  lemma DismissedFixed()
    ensures ClassifyLowered("dismissed") == "Dismissed"
  {
    NotContainsChar("dismissed", "settled", 'l');
    NotContainsChar("dismissed", "settlement", 'l');
    NotContainsChar("dismissed", "merit", 'r');
    ContainsSelf("dismissed");
  }

  lemma WithdrawnFixed()
    ensures ClassifyLowered("withdrawn") == "Withdrawn"
  {
    NotContainsChar("withdrawn", "settled", 'l');
    NotContainsChar("withdrawn", "settlement", 'l');
    NotContainsChar("withdrawn", "dismissed", 'm');
    NotContainsChar("withdrawn", "dismissal", 'm');
    ContainsSelf("withdrawn");
  }

  lemma AwardedFixed()
    ensures ClassifyLowered("awarded") == "Awarded"
  {
    NotContainsChar("awarded", "settled", 's');
    NotContainsChar("awarded", "settlement", 's');
    NotContainsChar("awarded", "dismissed", 'i');
    NotContainsChar("awarded", "dismissal", 'i');
    NotContainsChar("awarded", "withdrawn", 'i');
    ContainsSelf("awarded");
  }

  lemma AdministrativeFixed()
    ensures ClassifyLowered("administrative") == "Administrative"
  {
    var a := "administrative";
    NotContainsChar(a, "settled", 'l');
    NotContainsChar(a, "settlement", 'l');
    NotContainsChar(a, "dismissal", 'l');
    AdministrativeNotDismissed();
    NotContainsChar(a, "withdrawn", 'w');
    NotContainsChar(a, "awarded", 'w');
    NotContainsChar(a, "award", 'w');
    assert a == "" + "administrative" + "";
    ContainsInfix("", "administrative", "");
  }

  /** The lower-case forms of the labels. */
  lemma LowerLabels()
    ensures Lower("Settled") == "settled"
    ensures Lower("Dismissed") == "dismissed"
    ensures Lower("Withdrawn") == "withdrawn"
    ensures Lower("Awarded") == "awarded"
  {
  }

  lemma LowerMerits()
    ensures Lower("Dismissed on the Merits") == "dismissed on the merits"
  {
  }

  lemma LowerAdministrative()
    ensures Lower("Administrative") == "administrative"
  {
  }

  lemma AdministrativeNotDismissed()
    ensures !Contains("administrative", "dismissed")
  {
    SearchDecides("administrative", "dismissed");
  }

  /** A standard label is classified as itself. */
  lemma LabelFixed(d: string)
    requires IsStandardLabel(d)
    ensures ClassifyLowered(Lower(d)) == d
  {
    LowerLabels();
    LowerMerits();
    LowerAdministrative();
    SettledFixed();
    MeritsFixed();
    DismissedFixed();
    WithdrawnFixed();
    AwardedFixed();
    AdministrativeFixed();
  }

  /** Standardising a standardised disposition changes nothing. */
  lemma StandardizeIdempotent(v: Option<string>)
    ensures StandardizeDisposition(StandardizeDisposition(v)) == StandardizeDisposition(v)
  {
    if v.Some? {
      var t := Lower(v.value);
      var d := ClassifyLowered(t);
      if Unclassified(t) {
        LowerCapitalize(t);
        LowerIdempotent(v.value);
      } else {
        LabelFixed(d);
      }
    }
  }

  /** Precedence: a dismissal on the merits is not a plain dismissal. */
  lemma DismissedOnTheMerits()
    ensures StandardizeDisposition(Some("Case Dismissed on the Merits")) == Some("Dismissed on the Merits")
  {
    LowerCaseMerits();
    CaseMeritsClassified();
  }

  lemma LowerCaseMerits()
    ensures Lower("Case Dismissed on the Merits") == "case dismissed on the merits"
  {
  }

  lemma CaseMeritsClassified()
    ensures ClassifyLowered("case dismissed on the merits") == "Dismissed on the Merits"
  {
    assert "case " + Dismissed + " on the " + Merit + "s" == "case dismissed on the merits";
    MeritsRule("case ", " on the ", "s");
  }

  // ---------------------------------------------------------------- forum keywords

  /** `os.path.basename`: the part after the last `/`. */
  function Basename(path: string): (r: string)
    ensures '/' !in r
    ensures |r| <= |path| && r == path[|path| - |r|..]
  {
    if path == [] then []
    else if path[|path| - 1] == '/' then []
    else
      var r := Basename(path[..|path| - 1]);
      assert path[..|path| - 1][|path| - 1 - |r|..] + [path[|path| - 1]] == path[|path| - 1 - |r|..];
      r + [path[|path| - 1]]
  }

  /** The file-name rule: "aaa" before "jams", case-insensitively; otherwise undecided. */
  function SourceFromFilename(path: string): Option<Source> {
    var name := Lower(Basename(path));
    if Contains(name, "aaa") then Some(AAA)
    else if Contains(name, "jams") then Some(JAMS)
    else None
  }

  /** The keyword rule on one lower-cased text: "aaa" or "american arbitration" before "jams". */
  function SourceFromText(text: string): Option<Source> {
    if Contains(text, "aaa") || Contains(text, "american arbitration") then Some(AAA)
    else if Contains(text, "jams") then Some(JAMS)
    else None
  }

  /**
   * `_infer_source_from_content`: the preview's header names joined by spaces, then its
   * rendered cells joined by spaces; AAA when neither decides or the preview cannot be read.
   */
  function InferSourceFromContent(preview: Option<(seq<string>, seq<string>)>): Source {
    match preview
    case None => AAA
    case Some((headers, cells)) =>
      SourceFromText(Lower(Join(headers, " "))).OrElse(SourceFromText(Lower(Join(cells, " ")))).GetOr(AAA)
  }

  /** The forum of one input file: its name first, its content only when the name is silent. */
  function DetermineSource(path: string, preview: Option<(seq<string>, seq<string>)>): (r: Source)
    ensures Contains(Lower(Basename(path)), "aaa") ==> r == AAA
    ensures !Contains(Lower(Basename(path)), "aaa") && Contains(Lower(Basename(path)), "jams") ==> r == JAMS
    ensures r == JAMS ==>
      Contains(Lower(Basename(path)), "jams")
      || (preview.Some? && (Contains(Lower(Join(preview.value.0, " ")), "jams")
                            || Contains(Lower(Join(preview.value.1, " ")), "jams")))
  {
    SourceFromFilename(path).GetOr(InferSourceFromContent(preview))
  }
}
