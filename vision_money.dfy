/**
 * The two money formatters of the extractor script (`to_money_2dp`, `to_rupees_slash`).
 * Both look for the first match of `\d+(\.\d+)?` after removing the rupee sign and
 * thousands separators; one renders it with exactly two decimals, the other as
 * `₹ <integer part> /-`. A missing or empty input, or one without any digit, renders
 * as the empty string.
 *
 * Numbers are exact decimal digit strings here: rounding to two decimals is done on the
 * decimal digits (half up), where the script rounds the nearest binary double.
 */
module VisionMoney {
  import opened Wrappers
  import opened PyStr

  const Rupee: char := '\U{20B9}'

  /** A match of `\d+(\.\d+)?`: the integer digits and the fractional digits (maybe none). */
  datatype Number = Number(whole: string, frac: string)

  predicate WellFormed(n: Number)
  {
    n.whole != [] && AllDigits(n.whole) && AllDigits(n.frac)
  }

  /** The text the regular expression matched. */
  function MatchText(n: Number): string
  {
    if n.frac == [] then n.whole else n.whole + "." + n.frac
  }

  predicate HasDigit(s: string)
  {
    exists i :: 0 <= i < |s| && IsDigit(s[i])
  }

  /** Length of the longest all-digit prefix (what greedy `\d+` consumes). */
  function DigitRun(s: string): (k: nat)
    ensures k <= |s| && AllDigits(s[..k])
    ensures k < |s| ==> !IsDigit(s[k])
  {
    if s != [] && IsDigit(s[0]) then
      var k := DigitRun(s[1..]) + 1;
      assert s[..k] == [s[0]] + s[1..][..k - 1];
      k
    else 0
  }

  /** A digit prefix followed by a non-digit (or nothing) is exactly one run. */
  lemma {:induction false} DigitRunOf(d: string, t: string)
    requires AllDigits(d)
    requires t == [] || !IsDigit(t[0])
    ensures DigitRun(d + t) == |d|
    decreases |d|
  {
    if d == [] {
      assert d + t == t;
    } else {
      assert (d + t)[1..] == d[1..] + t;
      DigitRunOf(d[1..], t);
    }
  }

  /**
   * `n` is what `\d+(\.\d+)?` matches at the start of `t`: `t` begins with its text,
   * the integer part is the whole run of digits there, and the fraction is present exactly
   * when a dot and a digit follow that run, in which case it is the whole run after the dot.
   */
  predicate GreedyMatch(t: string, n: Number)
  {
    && WellFormed(n) && StartsWith(t, MatchText(n))
    && (|n.whole| == |t| || !IsDigit(t[|n.whole|]))
    && (n.frac != [] <==> |n.whole| + 1 < |t| && t[|n.whole|] == '.' && IsDigit(t[|n.whole| + 1]))
    && (n.frac != [] ==> |n.whole| + 1 + |n.frac| == |t| || !IsDigit(t[|n.whole| + 1 + |n.frac|]))
  }

  /** The match of `\d+(\.\d+)?` that starts at the first character of `s`, a digit. */
  function NumberAt(s: string): (n: Number)
    requires s != [] && IsDigit(s[0])
    ensures GreedyMatch(s, n)
  {
    var k := DigitRun(s);
    var rest := s[k..];
    if |rest| >= 2 && rest[0] == '.' && IsDigit(rest[1]) then
      var f := DigitRun(rest[1..]);
      var n := Number(s[..k], rest[1..][..f]);
      assert s[..k + 1 + f] == s[..k] + "." + rest[1..][..f];
      assert s[k] == rest[0] && s[k + 1] == rest[1];
      assert k + 1 + f < |s| ==> s[k + 1 + f] == rest[1..][f];
      n
    else
      assert k + 1 < |s| ==> s[k] == rest[0] && s[k + 1] == rest[1];
      Number(s[..k], [])
  }

  /** A digit string that the text starts with and that no digit follows is unique. */
  lemma DigitPrefixUnique(t: string, a: string, b: string)
    requires AllDigits(a) && StartsWith(t, a) && (|a| == |t| || !IsDigit(t[|a|]))
    requires AllDigits(b) && StartsWith(t, b) && (|b| == |t| || !IsDigit(t[|b|]))
    ensures a == b
  {
    assert forall i :: 0 <= i < |a| ==> t[i] == t[..|a|][i] == a[i];
    assert forall i :: 0 <= i < |b| ==> t[i] == t[..|b|][i] == b[i];
  }

  /** The parts of a matched text: its integer part, and after the dot its fraction. */
  lemma MatchTextParts(t: string, n: Number)
    requires WellFormed(n) && StartsWith(t, MatchText(n))
    ensures StartsWith(t, n.whole)
    ensures n.frac != [] ==> |n.whole| < |t| && StartsWith(t[|n.whole| + 1..], n.frac)
  {
    var m := MatchText(n);
    assert m[..|n.whole|] == n.whole;
    assert t[..|n.whole|] == m[..|n.whole|];
    if n.frac != [] {
      var j := |n.whole| + 1;
      assert m[j..] == n.frac;
      assert t[j..][..|n.frac|] == m[j..];
    }
  }

  /** The pattern matches in one way only at a given place. */
  lemma GreedyMatchUnique(t: string, n: Number, m: Number)
    requires GreedyMatch(t, n) && GreedyMatch(t, m)
    ensures n == m
  {
    MatchTextParts(t, n);
    MatchTextParts(t, m);
    DigitPrefixUnique(t, n.whole, m.whole);
    if n.frac != [] {
      var j := |n.whole| + 1;
      assert |t[j..]| == |t| - j;
      DigitPrefixUnique(t[j..], n.frac, m.frac);
    }
  }

  /** A non-empty string holds a digit when its head is one or its tail holds one. */
  lemma HasDigitCons(s: string)
    requires s != []
    ensures HasDigit(s) <==> IsDigit(s[0]) || HasDigit(s[1..])
  {
    if HasDigit(s) && !IsDigit(s[0]) {
      var i :| 0 <= i < |s| && IsDigit(s[i]);
      assert s[1..][i - 1] == s[i];
    }
    if HasDigit(s[1..]) {
      var i :| 0 <= i < |s[1..]| && IsDigit(s[1..][i]);
      assert s[i + 1] == s[1..][i];
    }
  }

  /** Index of the first digit of `s`, or -1. */
  function FirstDigit(s: string): (i: int)
    ensures i == -1 <==> !HasDigit(s)
    ensures i != -1 ==> 0 <= i < |s| && IsDigit(s[i]) && !HasDigit(s[..i])
  {
    if s == [] then -1
    else if IsDigit(s[0]) then
      assert s[..0] == [];
      0
    else
      HasDigitCons(s);
      var i := FirstDigit(s[1..]);
      if i == -1 then -1
      else
        assert s[..i + 1] == [s[0]] + s[1..][..i];
        HasDigitCons(s[..i + 1]);
        i + 1
  }

  /** `re.search(r"\d+(\.\d+)?", s)`: the match starting at the leftmost digit, or none. */
  function FirstNumber(s: string): (r: Option<Number>)
    ensures r.None? <==> !HasDigit(s)
    ensures r.Some? ==> WellFormed(r.value)
    ensures r.Some? ==> var i := FirstDigit(s);
      0 <= i < |s| && !HasDigit(s[..i]) && GreedyMatch(s[i..], r.value)
  {
    var i := FirstDigit(s);
    if i == -1 then None else Some(NumberAt(s[i..]))
  }

  /** The first digit is the digit with no digit before it. */
  lemma FirstDigitIs(s: string, i: nat)
    requires i < |s| && IsDigit(s[i]) && !HasDigit(s[..i])
    ensures FirstDigit(s) == i
  {
    var j := FirstDigit(s);
    assert HasDigit(s) by {
      assert 0 <= i < |s| && IsDigit(s[i]);
    }
    assert forall k :: 0 <= k < i ==> s[..i][k] == s[k];
    assert forall k :: 0 <= k < j ==> s[..j][k] == s[k];
  }

  /**
   * `re.search(r"\d+(\.\d+)?", s)` is determined by the pattern: a greedy match at a place
   * with no digit before it is the one returned.
   */
  lemma FirstNumberIs(s: string, i: nat, n: Number)
    requires i <= |s| && !HasDigit(s[..i]) && GreedyMatch(s[i..], n)
    ensures FirstNumber(s) == Some(n)
  {
    MatchTextParts(s[i..], n);
    assert s[i..][0] == n.whole[0];
    FirstDigitIs(s, i);
    GreedyMatchUnique(s[i..], FirstNumber(s).value, n);
  }

  /** Hundredths contributed by the fractional digits, rounded half up at the third digit. */
  function FracCents(frac: string): (c: nat)
    requires AllDigits(frac)
    ensures c <= 100
  {
    var d1 := if |frac| > 0 then frac[0] as int - '0' as int else 0;
    var d2 := if |frac| > 1 then frac[1] as int - '0' as int else 0;
    var up := if |frac| > 2 && frac[2] >= '5' then 1 else 0;
    d1 * 10 + d2 + up
  }

  /** The number in hundredths, rounded to two decimals. */
  function Cents(n: Number): nat
    requires WellFormed(n)
  {
    DigitsValue(n.whole) * 100 + FracCents(n.frac)
  }

  /** `f"{v:.2f}"` for a value given in hundredths. */
  function FormatCents(c: nat): string
  {
    NatToString(c / 100) + "." + [DigitOf(c % 100 / 10), DigitOf(c % 10)]
  }

  /** Digits, a dot, and exactly two digits. */
  predicate TwoDecimals(r: string)
  {
    |r| >= 4 && r[|r| - 3] == '.' && AllDigits(r[..|r| - 3]) && AllDigits(r[|r| - 2..])
  }

  /** The text `to_money_2dp` searches: the rupee sign and commas removed. */
  function CleanFor2dp(s: string): string
  {
    ReplaceAll(ReplaceAll(s, [Rupee], ""), ",", "")
  }

  /** The text `to_rupees_slash` searches: rupee sign, `/-` suffix and commas removed. */
  function CleanForSlash(s: string): string
  {
    ReplaceAll(ReplaceAll(ReplaceAll(s, [Rupee], ""), "/-", ""), ",", "")
  }

  /** Removing something that holds no digit keeps exactly the digits there were. */
  lemma {:induction false} RemovalKeepsDigits(s: string, pat: string)
    requires pat != [] && !HasDigit(pat)
    ensures HasDigit(ReplaceAll(s, pat, "")) <==> HasDigit(s)
    decreases |s|
  {
    if s == [] {
    } else if StartsWith(s, pat) {
      var t := s[|pat|..];
      RemovalKeepsDigits(t, pat);
      assert ReplaceAll(s, pat, "") == ReplaceAll(t, pat, "");
      assert forall i :: 0 <= i < |pat| ==> s[i] == pat[i];
      if HasDigit(s) {
        var i :| 0 <= i < |s| && IsDigit(s[i]);
        assert t[i - |pat|] == s[i];
      }
      if HasDigit(t) {
        var i :| 0 <= i < |t| && IsDigit(t[i]);
        assert s[i + |pat|] == t[i];
      }
    } else {
      RemovalKeepsDigits(s[1..], pat);
      HasDigitCons(s);
      HasDigitCons(ReplaceAll(s, pat, ""));
    }
  }

  /**
   * `to_money_2dp(x)`: `""` for a missing or empty value and for a value without any
   * digit; otherwise the first number, rounded to two decimals.
   */
  function ToMoney2dp(x: Option<string>): (r: string)
    ensures r == "" <==> x.None? || !HasDigit(x.value)
    ensures r != "" ==> TwoDecimals(r)
  {
    if x.None? || x.value == "" then ""
    else
      RemovalKeepsDigits(x.value, [Rupee]);
      RemovalKeepsDigits(ReplaceAll(x.value, [Rupee], ""), ",");
      match FirstNumber(CleanFor2dp(x.value))
      case None => ""
      case Some(n) =>
        FormatCentsTwoDecimals(Cents(n));
        FormatCents(Cents(n))
  }

  /** A rendering of hundredths has digits, a dot and exactly two digits. */
  lemma FormatCentsTwoDecimals(c: nat)
    ensures TwoDecimals(FormatCents(c))
  {
    var r := FormatCents(c);
    assert r[..|r| - 3] == NatToString(c / 100);
  }

  /** `to_rupees_slash(x)`: `₹ <integer part> /-`, with the fraction dropped, not rounded. */
  function ToRupeesSlash(x: Option<string>): (r: string)
    ensures r == "" <==> x.None? || !HasDigit(x.value)
    ensures r != "" ==> exists w :: AllDigits(w) && w != [] && r == [Rupee, ' '] + w + " /-"
  {
    if x.None? || x.value == "" then ""
    else
      RemovalKeepsDigits(x.value, [Rupee]);
      RemovalKeepsDigits(ReplaceAll(x.value, [Rupee], ""), "/-");
      RemovalKeepsDigits(ReplaceAll(ReplaceAll(x.value, [Rupee], ""), "/-", ""), ",");
      match FirstNumber(CleanForSlash(x.value))
      case None => ""
      case Some(n) => [Rupee, ' '] + NatToString(DigitsValue(n.whole)) + " /-"
  }

  /** `₹ <n> /-`, the rendering `to_rupees_slash` produces. */
  function RupeesSlash(n: nat): string
  {
    [Rupee, ' '] + NatToString(n) + " /-"
  }

  /** Cleaning the empty text leaves it empty. */
  lemma CleanOfEmpty()
    ensures CleanFor2dp("") == "" && CleanForSlash("") == ""
  {
    assert ReplaceAll("", [Rupee], "") == "";
    assert ReplaceAll("", "/-", "") == "";
    assert ReplaceAll("", ",", "") == "";
  }

  /**
   * `to_money_2dp(x)` on any text: when the cleaned text has its first digit at `i` and the
   * pattern matches `n` there, the result is `n` rounded to two decimals.
   */
  lemma Money2dpValue(x: Option<string>, i: nat, n: Number)
    requires x.Some? && i <= |CleanFor2dp(x.value)|
    requires !HasDigit(CleanFor2dp(x.value)[..i]) && GreedyMatch(CleanFor2dp(x.value)[i..], n)
    ensures ToMoney2dp(x) == FormatCents(Cents(n))
  {
    FirstNumberIs(CleanFor2dp(x.value), i, n);
    CleanOfEmpty();
  }

  /**
   * `to_rupees_slash(x)` on any text: when the cleaned text has its first digit at `i` and
   * the pattern matches `n` there, the result renders the integer part of `n`.
   */
  lemma RupeesSlashValue(x: Option<string>, i: nat, n: Number)
    requires x.Some? && i <= |CleanForSlash(x.value)|
    requires !HasDigit(CleanForSlash(x.value)[..i]) && GreedyMatch(CleanForSlash(x.value)[i..], n)
    ensures ToRupeesSlash(x) == RupeesSlash(DigitsValue(n.whole))
  {
    FirstNumberIs(CleanForSlash(x.value), i, n);
    CleanOfEmpty();
  }

  /** A digit string followed by a non-digit parses as that integer part. */
  lemma NumberAtWhole(w: string, t: string)
    requires w != [] && AllDigits(w)
    requires t == [] || !IsDigit(t[0])
    ensures NumberAt(w + t).whole == w
    ensures !(|t| >= 2 && t[0] == '.' && IsDigit(t[1])) ==> NumberAt(w + t).frac == []
  {
    DigitRunOf(w, t);
    assert (w + t)[..|w|] == w && (w + t)[|w|..] == t;
  }

  /** A string that starts with a digit has its first number at the very start. */
  lemma FirstNumberAtHead(o: string)
    requires o != [] && IsDigit(o[0])
    ensures FirstNumber(o) == Some(NumberAt(o))
  {
    assert o[0..] == o;
  }

  /** The greedy match on `w.f` takes all of `w` and all of `f`. */
  lemma NumberAtDecimal(w: string, f: string)
    requires w != [] && AllDigits(w) && f != [] && AllDigits(f)
    ensures NumberAt(w + ("." + f)) == Number(w, f)
  {
    var t := "." + f;
    var o := w + t;
    DigitRunOf(w, t);
    assert o[..|w|] == w && o[|w|..] == t;
    assert t[1..] == f;
    DigitRunOf(f, []);
    assert f + [] == f && f[..|f|] == f;
  }

  /** `w.f` with digit strings `w` and `f` is read back as exactly that number. */
  lemma DecimalParses(w: string, f: string)
    requires w != [] && AllDigits(w) && f != [] && AllDigits(f)
    ensures FirstNumber(w + "." + f) == Some(Number(w, f))
  {
    var o := w + "." + f;
    assert o == w + ("." + f);
    NumberAtDecimal(w, f);
    FirstNumberAtHead(o);
  }

  /** Nothing here is a rupee sign or a comma in a string of digits and dots. */
  lemma CleanNumeral(o: string)
    requires forall i :: 0 <= i < |o| ==> IsDigit(o[i]) || o[i] == '.'
    ensures CleanFor2dp(o) == o && CleanForSlash(o) == o
  {
    AbsentCharNotContained(o, [Rupee]);
    ReplaceAllAbsent(o, [Rupee], "");
    AbsentCharNotContained(o, "/-");
    ReplaceAllAbsent(o, "/-", "");
    AbsentCharNotContained(o, ",");
    ReplaceAllAbsent(o, ",", "");
  }

  /** Digit strings joined by a dot hold only digits and that dot. */
  lemma DecimalIsNumeral(w: string, f: string)
    requires AllDigits(w) && AllDigits(f)
    ensures forall i :: 0 <= i < |w + "." + f| ==> IsDigit((w + "." + f)[i]) || (w + "." + f)[i] == '.'
  {
    var o := w + "." + f;
    assert forall i :: 0 <= i < |w| ==> o[i] == w[i];
    assert forall i :: |w| < i < |o| ==> o[i] == f[i - |w| - 1];
  }

  /** A two-decimal rendering holds only digits and its dot. */
  lemma RenderingIsNumeral(c: nat)
    ensures forall i :: 0 <= i < |FormatCents(c)| ==> IsDigit(FormatCents(c)[i]) || FormatCents(c)[i] == '.'
  {
    var w := NatToString(c / 100);
    var o := FormatCents(c);
    assert forall i :: 0 <= i < |w| ==> o[i] == w[i];
  }

  /** The hundredths of the rendering's two parts are the hundredths rendered. */
  lemma RenderingCents(c: nat)
    ensures Cents(Number(NatToString(c / 100), [DigitOf(c % 100 / 10), DigitOf(c % 10)])) == c
  {
    var dd := [DigitOf(c % 100 / 10), DigitOf(c % 10)];
    assert FracCents(dd) == c % 100;
  }

  /** A two-decimal rendering is read back as the same number of hundredths. */
  lemma {:induction false} FormatCentsReparses(c: nat)
    ensures ToMoney2dp(Some(FormatCents(c))) == FormatCents(c)
  {
    var w := NatToString(c / 100);
    var dd := [DigitOf(c % 100 / 10), DigitOf(c % 10)];
    var o := FormatCents(c);
    RenderingIsNumeral(c);
    CleanNumeral(o);
    DecimalParses(w, dd);
    RenderingCents(c);
  }

  /** `to_money_2dp` applied to its own output returns that output. */
  lemma {:induction false} Money2dpIdempotent(x: Option<string>)
    ensures ToMoney2dp(Some(ToMoney2dp(x))) == ToMoney2dp(x)
  {
    if ToMoney2dp(x) != "" {
      var n := FirstNumber(CleanFor2dp(x.value)).value;
      assert ToMoney2dp(x) == FormatCents(Cents(n));
      FormatCentsReparses(Cents(n));
    }
  }

  /** Dropping the rupee sign at the head of a string that has no other. */
  lemma DropLeadingRupee(t: string)
    requires Rupee !in t
    ensures ReplaceAll([Rupee] + t, [Rupee], "") == t
  {
    var o := [Rupee] + t;
    assert StartsWith(o, [Rupee]) && o[1..] == t;
    AbsentCharNotContained(t, [Rupee]);
    ReplaceAllAbsent(t, [Rupee], "");
  }

  /** Dropping a trailing `/-` from a string that has no other slash. */
  lemma DropTrailingSlashDash(a: string)
    requires '/' !in a
    ensures ReplaceAll(a + "/-", "/-", "") == a
  {
    ReplaceAllCleanPrefix(a, "/-", "/-", "");
    assert ReplaceAll("/-", "/-", "") == "" + ReplaceAll([], "/-", "");
  }

  /** What `to_rupees_slash` searches in its own output `₹ <w> /-`. */
  lemma SlashCleanOfRendering(w: string)
    requires AllDigits(w)
    ensures CleanForSlash([Rupee, ' '] + w + " /-") == " " + w + " "
  {
    var a := " " + w + " ";
    assert [Rupee, ' '] + w + " /-" == [Rupee] + (a + "/-");
    assert Rupee !in a + "/-";
    DropLeadingRupee(a + "/-");
    DropTrailingSlashDash(a);
    AbsentCharNotContained(a, ",");
    ReplaceAllAbsent(a, ",", "");
  }

  lemma CleanPrefixed(o: string)
    requires forall i :: 0 <= i < |o| ==> IsDigit(o[i]) || o[i] == '.'
    ensures CleanFor2dp([Rupee, ' '] + o) == " " + o
  {
    var a := " " + o;
    assert [Rupee, ' '] + o == [Rupee] + a;
    assert forall i :: 0 <= i < |a| ==> a[i] == ' ' || IsDigit(a[i]) || a[i] == '.';
    DropLeadingRupee(a);
    NoCommaIn(a);
  }

  lemma FirstNumberAfterSpace(o: string)
    requires o != [] && IsDigit(o[0])
    ensures FirstNumber(" " + o) == FirstNumber(o)
  {
    var a := " " + o;
    assert a[1..] == o && o[0..] == o;
    assert FirstDigit(a) == 1;
  }

  /** A `₹ ` in front of a plain numeral does not change its two-decimal reading. */
  lemma PrefixIgnored(o: string)
    requires o != [] && IsDigit(o[0])
    requires forall i :: 0 <= i < |o| ==> IsDigit(o[i]) || o[i] == '.'
    ensures ToMoney2dp(Some([Rupee, ' '] + o)) == ToMoney2dp(Some(o))
  {
    CleanPrefixed(o);
    CleanNumeral(o);
    FirstNumberAfterSpace(o);
  }

  /** A two-decimal rendering behind `₹ ` is read back as the same number. */
  lemma {:induction false} PrefixedCentsReparses(c: nat)
    ensures ToMoney2dp(Some([Rupee, ' '] + FormatCents(c))) == FormatCents(c)
  {
    var w := NatToString(c / 100);
    var dd := [DigitOf(c % 100 / 10), DigitOf(c % 10)];
    var o := FormatCents(c);
    assert o == w + "." + dd;
    assert o[0] == w[0];
    PrefixIgnored(o);
    FormatCentsReparses(c);
  }

  /**
   * The subtotal's rendering `₹ <to_money_2dp(x)>` is a fixed point: formatting its
   * rendering again gives back the same two-decimal text, and `₹ ` alone gives `""`.
   */
  lemma {:induction false} SubtotalIdempotent(x: Option<string>)
    ensures ToMoney2dp(Some([Rupee, ' '] + ToMoney2dp(x))) == ToMoney2dp(x)
  {
    if ToMoney2dp(x) != "" {
      var n := FirstNumber(CleanFor2dp(x.value)).value;
      assert ToMoney2dp(x) == FormatCents(Cents(n));
      PrefixedCentsReparses(Cents(n));
    } else {
      assert [Rupee, ' '] + "" == [Rupee, ' '];
      assert !HasDigit([Rupee, ' ']);
    }
  }

  /** A `₹ <n> /-` rendering is read back as the same integer. */
  lemma {:induction false} RupeesSlashReparses(n: nat)
    ensures ToRupeesSlash(Some(RupeesSlash(n))) == RupeesSlash(n)
  {
    var w := NatToString(n);
    var a := " " + w + " ";
    SlashCleanOfRendering(w);
    assert a[1..] == w + " ";
    assert FirstDigit(a) == 1;
    NumberAtWhole(w, " ");
    assert FirstNumber(a) == Some(NumberAt(w + " "));
  }

  /** `to_rupees_slash` applied to its own output returns that output. */
  lemma {:induction false} RupeesSlashIdempotent(x: Option<string>)
    ensures ToRupeesSlash(Some(ToRupeesSlash(x))) == ToRupeesSlash(x)
  {
    if ToRupeesSlash(x) != "" {
      var n := FirstNumber(CleanForSlash(x.value)).value;
      assert ToRupeesSlash(x) == RupeesSlash(DigitsValue(n.whole));
      RupeesSlashReparses(DigitsValue(n.whole));
    }
  }

  /** Once the search has found `n`, `to_money_2dp` renders `n` in hundredths. */
  lemma Money2dpOf(s: string, n: Number)
    requires WellFormed(n) && FirstNumber(CleanFor2dp(s)) == Some(n)
    ensures ToMoney2dp(Some(s)) == FormatCents(Cents(n))
  {
  }

  /** Once the search has found `n`, `to_rupees_slash` renders its integer part. */
  lemma RupeesSlashOf(s: string, n: Number)
    requires WellFormed(n) && FirstNumber(CleanForSlash(s)) == Some(n)
    ensures ToRupeesSlash(Some(s)) == RupeesSlash(DigitsValue(n.whole))
  {
  }

  /** A bare integer is found whole, with no fraction. */
  lemma IntegerParses(w: string)
    requires w != [] && AllDigits(w)
    ensures FirstNumber(CleanFor2dp(w)) == Some(Number(w, []))
  {
    CleanNumeral(w);
    assert FirstDigit(w) == 0 && w[0..] == w;
    NumberAtWhole(w, []);
    assert w + [] == w;
  }

  /** An amount written as a bare integer renders with `.00`. */
  lemma Money2dpOfInteger(w: string)
    requires w != [] && AllDigits(w)
    ensures ToMoney2dp(Some(w)) == FormatCents(DigitsValue(w) * 100)
  {
    IntegerParses(w);
    Money2dpOf(w, Number(w, []));
    assert Cents(Number(w, [])) == DigitsValue(w) * 100;
  }

  /** An amount written as `w.f` renders as `₹ <w> /-`. */
  lemma RupeesSlashOfDecimal(w: string, f: string)
    requires w != [] && AllDigits(w) && f != [] && AllDigits(f)
    ensures ToRupeesSlash(Some(w + "." + f)) == RupeesSlash(DigitsValue(w))
  {
    DecimalIsNumeral(w, f);
    CleanNumeral(w + "." + f);
    DecimalParses(w, f);
    RupeesSlashOf(w + "." + f, Number(w, f));
  }

  // Decimal facts about the worked examples, each in its own small proof.

  lemma Renders192()
    ensures DigitsValue("192") == 192 && FormatCents(19200) == "192.00"
  {
    assert NatToString(192) == "192";
  }

  lemma Renders1234()
    ensures DigitsValue("1234") == 1234 && RupeesSlash(1234) == [Rupee] + " 1234 /-"
  {
    assert NatToString(1234) == "1234";
  }

  lemma Renders5432()
    ensures DigitsValue("5432") == 5432 && RupeesSlash(5432) == [Rupee] + " 5432 /-"
  {
    assert NatToString(5432) == "5432";
  }

  lemma Splits1234()
    ensures "1234" + "." + "50" == "1234.50" && AllDigits("1234") && AllDigits("50")
  {
  }

  lemma Splits5432()
    ensures "5432" + "." + "90" == "5432.90" && AllDigits("5432") && AllDigits("90")
  {
  }

  /** `"192"` renders as `"192.00"`; a missing or empty amount renders as `""`. */
  lemma Money2dpExamples()
    ensures ToMoney2dp(Some("192")) == "192.00"
    ensures ToMoney2dp(None) == "" && ToMoney2dp(Some("")) == ""
  {
    Renders192();
    Money2dpOfInteger("192");
  }

  /** `"1234.50"` renders as `"₹ 1234 /-"`: the fraction is dropped, not rounded. */
  lemma RupeesSlashPlain()
    ensures ToRupeesSlash(Some("1234.50")) == RupeesSlash(1234) == [Rupee] + " 1234 /-"
  {
    Renders1234();
    Splits1234();
    RupeesSlashOfDecimal("1234", "50");
  }

  lemma CommaDropped()
    ensures ReplaceAll("1,234.50", ",", "") == "1234.50"
  {
    DropOneComma("1", "234.50");
    assert "1" + "," + "234.50" == "1,234.50";
  }

  /** Removing the only comma of a string. */
  lemma DropOneComma(a: string, b: string)
    requires ',' !in a && ',' !in b
    ensures ReplaceAll(a + "," + b, ",", "") == a + b
  {
    CommaFreeHead(a, b);
    LeadingCommaDropped(b);
  }

  lemma CommaFreeHead(a: string, b: string)
    requires ',' !in a
    ensures ReplaceAll(a + "," + b, ",", "") == a + ReplaceAll("," + b, ",", "")
  {
    var t := "," + b;
    assert a + "," + b == a + t;
    ReplaceAllCleanPrefix(a, t, ",", "");
  }

  lemma LeadingCommaDropped(b: string)
    requires ',' !in b
    ensures ReplaceAll("," + b, ",", "") == b
  {
    var t := "," + b;
    ReplaceAllMatch(t, ",", "");
    assert t[1..] == b;
    NoCommaIn(b);
  }

  lemma NoSuffixIn(s: string)
    requires '/' !in s
    ensures ReplaceAll(s, "/-", "") == s
  {
    AbsentCharNotContained(s, "/-");
    ReplaceAllAbsent(s, "/-", "");
  }

  /** The sign and the separator are removed before the search. */
  lemma CleanSignAndComma()
    ensures CleanForSlash([Rupee] + "1,234.50") == "1234.50"
  {
    DropLeadingRupee("1,234.50");
    NoSuffixIn("1,234.50");
    CommaDropped();
  }

  lemma NoRupeeIn(s: string)
    requires Rupee !in s
    ensures ReplaceAll(s, [Rupee], "") == s
  {
    AbsentCharNotContained(s, [Rupee]);
    ReplaceAllAbsent(s, [Rupee], "");
  }

  lemma NoCommaIn(s: string)
    requires ',' !in s
    ensures ReplaceAll(s, ",", "") == s
  {
    AbsentCharNotContained(s, ",");
    ReplaceAllAbsent(s, ",", "");
  }

  /** The old suffix is removed before the search. */
  lemma CleanSuffix()
    ensures CleanForSlash("1234.50/-") == "1234.50"
  {
    NoRupeeIn("1234.50/-");
    DropTrailingSlashDash("1234.50");
    assert "1234.50" + "/-" == "1234.50/-";
    NoCommaIn("1234.50");
  }

  /** `"₹1,234.50"` and `"1234.50/-"` render like `"1234.50"`, as `"₹ 1234 /-"`. */
  lemma RupeesSlashDecorated()
    ensures ToRupeesSlash(Some([Rupee] + "1,234.50")) == RupeesSlash(1234)
    ensures ToRupeesSlash(Some("1234.50/-")) == RupeesSlash(1234)
  {
    Renders1234();
    Splits1234();
    CleanNumeral("1234.50");
    DecimalParses("1234", "50");
    CleanSignAndComma();
    CleanSuffix();
    RupeesSlashOf([Rupee] + "1,234.50", Number("1234", "50"));
    RupeesSlashOf("1234.50/-", Number("1234", "50"));
  }

  /** A payable total of `"5432.90"` renders as `"₹ 5432 /-"`. */
  lemma RupeesSlashTotalExample()
    ensures ToRupeesSlash(Some("5432.90")) == [Rupee] + " 5432 /-"
  {
    Renders5432();
    Splits5432();
    RupeesSlashOfDecimal("5432", "90");
  }
}
