/**
 * The Python string built-ins both scripts rely on, over `string` = `seq<char>`:
 * `str.isspace`/`str.strip`, `sub in s`, `s.startswith`, `s.replace` (all and first
 * occurrence), `s.find`/`s.rfind` for one character, ASCII digits, and decimal
 * rendering and parsing of natural numbers.
 */
module PyStr {

  /** Python's `str.isspace()` for one character (the Unicode whitespace set). */
  predicate IsSpace(c: char)
  {
    c == ' ' || ('\t' <= c <= '\r') || ('\U{1C}' <= c <= '\U{1F}') || c == '\U{85}' || c == '\U{A0}'
    || c == '\U{1680}' || ('\U{2000}' <= c <= '\U{200A}') || c == '\U{2028}' || c == '\U{2029}'
    || c == '\U{202F}' || c == '\U{205F}' || c == '\U{3000}'
  }

  /** Every character of `s` is whitespace (`s.strip() == ""`). */
  predicate AllSpace(s: string)
  {
    forall i :: 0 <= i < |s| ==> IsSpace(s[i])
  }

  /** Python's `s.lstrip()`. */
  function StripLeft(s: string): (r: string)
    ensures |r| <= |s|
    ensures r == [] || !IsSpace(r[0])
  {
    if |s| > 0 && IsSpace(s[0]) then StripLeft(s[1..]) else s
  }

  /** `s.lstrip()` is a suffix of `s`, and what it drops is whitespace. */
  lemma {:induction false} StripLeftSplit(s: string)
    ensures var r := StripLeft(s); r == s[|s| - |r|..] && AllSpace(s[..|s| - |r|])
  {
    if |s| > 0 && IsSpace(s[0]) {
      var t := s[1..];
      StripLeftSplit(t);
      var r := StripLeft(t);
      assert t[|t| - |r|..] == s[|s| - |r|..];
      assert s[..|s| - |r|] == [s[0]] + t[..|t| - |r|];
      AllSpaceSplit([s[0]], t[..|t| - |r|]);
    } else {
      assert s[..0] == [];
    }
  }

  /** Python's `s.rstrip()`. */
  function StripRight(s: string): (r: string)
    ensures |r| <= |s|
    ensures r == [] || !IsSpace(r[|r| - 1])
  {
    if |s| > 0 && IsSpace(s[|s| - 1]) then StripRight(s[..|s| - 1]) else s
  }

  /** `s.rstrip()` is a prefix of `s`, and what it drops is whitespace. */
  lemma {:induction false} StripRightSplit(s: string)
    ensures var r := StripRight(s); r == s[..|r|] && AllSpace(s[|r|..])
  {
    if |s| > 0 && IsSpace(s[|s| - 1]) {
      var t := s[..|s| - 1];
      StripRightSplit(t);
      var r := StripRight(t);
      assert t[..|r|] == s[..|r|];
      assert s[|r|..] == t[|r|..] + [s[|s| - 1]];
      AllSpaceSplit(t[|r|..], [s[|s| - 1]]);
    } else {
      assert s[|s|..] == [];
    }
  }

  /** Python's `s.strip()` with no argument. */
  function Strip(s: string): (r: string)
    ensures r == [] <==> AllSpace(s)
    ensures r == [] || (!IsSpace(r[0]) && !IsSpace(r[|r| - 1]))
  {
    StripBothEnds(s);
    StripRight(StripLeft(s))
  }

  lemma StripBothEnds(s: string)
    ensures var r := StripRight(StripLeft(s));
      && (r == [] <==> AllSpace(s))
      && (r == [] || (!IsSpace(r[0]) && !IsSpace(r[|r| - 1])))
  {
    var l := StripLeft(s);
    var r := StripRight(l);
    StripLeftSplit(s);
    StripRightSplit(l);
    var pre := s[..|s| - |l|];
    var suf := l[|r|..];
    assert s == pre + l;
    assert l == r + suf;
    TrimmedCore(s, pre, l, r, suf);
  }

  /** `s == pre + r + suf` with whitespace-only ends and `r` trimmed: `r` empty iff `s` blank. */
  lemma TrimmedCore(s: string, pre: string, l: string, r: string, suf: string)
    requires s == pre + l
    requires AllSpace(pre) && AllSpace(suf) && l == r + suf
    requires l == [] || !IsSpace(l[0])
    requires r == [] || !IsSpace(r[|r| - 1])
    ensures r == [] <==> AllSpace(s)
    ensures r == [] || (!IsSpace(r[0]) && !IsSpace(r[|r| - 1]))
  {
    AllSpaceSplit(pre, l);
    AllSpaceSplit(r, suf);
    if r != [] {
      assert r[0] == l[0];
    }
    if l != [] {
      assert !AllSpace(l);
    }
  }

  lemma AllSpaceSplit(a: string, b: string)
    ensures AllSpace(a + b) <==> AllSpace(a) && AllSpace(b)
  {
    if AllSpace(a + b) {
      forall i | 0 <= i < |a| ensures IsSpace(a[i]) {
        assert (a + b)[i] == a[i];
      }
      forall i | 0 <= i < |b| ensures IsSpace(b[i]) {
        assert (a + b)[|a| + i] == b[i];
      }
    }
    if AllSpace(a) && AllSpace(b) {
      forall i | 0 <= i < |a + b| ensures IsSpace((a + b)[i]) {
        if i < |a| {
          assert (a + b)[i] == a[i];
        } else {
          assert (a + b)[i] == b[i - |a|];
        }
      }
    }
  }

  /** A window of `s` equal to `t` makes `t` contained in `s`. */
  lemma {:induction false} ContainsAt(s: string, i: nat, t: string)
    requires i + |t| <= |s| && s[i..i + |t|] == t
    ensures Contains(s, t)
    decreases i
  {
    if i == 0 {
      assert StartsWith(s, t);
    } else {
      var u := s[1..];
      assert forall k :: 0 <= k < |t| ==> u[i - 1 + k] == s[i + k] == t[k];
      assert u[i - 1..i - 1 + |t|] == t;
      ContainsAt(u, i - 1, t);
    }
  }

  /** Python's `s.startswith(t)`. */
  predicate StartsWith(s: string, t: string)
  {
    |t| <= |s| && s[..|t|] == t
  }

  /** Python's `t in s`: some window of `s` equals `t`. */
  predicate Contains(s: string, t: string)
    decreases |s|
  {
    StartsWith(s, t) || (|s| > 0 && Contains(s[1..], t))
  }

  /** `t in a + b` whenever `t in a` or `t in b`. */
  lemma {:induction false} ContainsOfConcat(a: string, b: string, t: string)
    ensures (Contains(a, t) || Contains(b, t)) ==> Contains(a + b, t)
    decreases |a|
  {
    if a == [] {
      assert a + b == b;
    } else if StartsWith(a, t) {
      assert (a + b)[..|t|] == a[..|t|];
    } else {
      ContainsOfConcat(a[1..], b, t);
      assert (a + b)[1..] == a[1..] + b;
    }
  }

  /** The stripped text occurs inside the original. */
  lemma StripInside(s: string)
    ensures Contains(s, Strip(s))
  {
    var l := StripLeft(s);
    var r := StripRight(l);
    StripLeftSplit(s);
    StripRightSplit(l);
    PrefixOfSuffix(s, l, r);
  }

  /** A prefix of a suffix of `s` is contained in `s`. */
  lemma PrefixOfSuffix(s: string, l: string, r: string)
    requires |l| <= |s| && l == s[|s| - |l|..]
    requires |r| <= |l| && r == l[..|r|]
    ensures Contains(s, r)
  {
    var i := |s| - |l|;
    PrefixOfSuffixWindow(s, l, r);
    ContainsAt(s, i, r);
  }

  /** That prefix of a suffix is the window of `s` where the suffix starts. */
  lemma PrefixOfSuffixWindow(s: string, l: string, r: string)
    requires |l| <= |s| && l == s[|s| - |l|..]
    requires |r| <= |l| && r == l[..|r|]
    ensures s[|s| - |l|..|s| - |l| + |r|] == r
  {
    var i := |s| - |l|;
    var w := s[i..i + |r|];
    assert forall k :: 0 <= k < |r| ==> w[k] == s[i + k] == l[k] == r[k];
  }

  /** A string with no space at either end is its own strip. */
  lemma StripTrimmed(s: string)
    requires s == [] || (!IsSpace(s[0]) && !IsSpace(s[|s| - 1]))
    ensures Strip(s) == s
  {
    assert StripLeft(s) == s;
    assert StripRight(s) == s;
  }

  /** Python's `s.replace(old, new)`: every non-overlapping occurrence, scanning left to right. */
  function ReplaceAll(s: string, pat: string, rep: string): string
    decreases |s|
  {
    if pat == [] then InsertAround(s, rep)
    else if StartsWith(s, pat) then rep + ReplaceAll(s[|pat|..], pat, rep)
    else if s == [] then []
    else [s[0]] + ReplaceAll(s[1..], pat, rep)
  }

  /** What `s.replace("", rep)` does: `rep` before every character and at the end. */
  function InsertAround(s: string, rep: string): string
  {
    if s == [] then rep else rep + [s[0]] + InsertAround(s[1..], rep)
  }

  /** One step of `replace` where an occurrence starts at the front. */
  lemma ReplaceAllMatch(s: string, pat: string, rep: string)
    requires pat != [] && StartsWith(s, pat)
    ensures ReplaceAll(s, pat, rep) == rep + ReplaceAll(s[|pat|..], pat, rep)
  {
  }

  /** One step of `replace` where no occurrence starts at the front. */
  lemma ReplaceAllStep(s: string, pat: string, rep: string)
    requires pat != [] && s != [] && !StartsWith(s, pat)
    ensures ReplaceAll(s, pat, rep) == [s[0]] + ReplaceAll(s[1..], pat, rep)
  {
  }

  /** One step of `replace` where the front character cannot begin the pattern. */
  lemma ReplaceAllSkip(s: string, pat: string, rep: string)
    requires pat != [] && s != [] && s[0] != pat[0]
    ensures ReplaceAll(s, pat, rep) == [s[0]] + ReplaceAll(s[1..], pat, rep)
  {
    assert !StartsWith(s, pat) by {
      if |pat| <= |s| {
        assert s[..|pat|][0] == s[0];
      }
    }
    ReplaceAllStep(s, pat, rep);
  }

  /** Python's `s.replace(old, new, 1)`. */
  function ReplaceFirst(s: string, pat: string, rep: string): (r: string)
    ensures StartsWith(s, pat) ==> r == rep + s[|pat|..]
    ensures !Contains(s, pat) ==> r == s
    decreases |s|
  {
    if StartsWith(s, pat) then rep + s[|pat|..]
    else if s == [] then []
    else [s[0]] + ReplaceFirst(s[1..], pat, rep)
  }

  /** A string without `pat` is left alone by `replace`. */
  lemma {:induction false} ReplaceAllAbsent(s: string, pat: string, rep: string)
    requires !Contains(s, pat)
    ensures ReplaceAll(s, pat, rep) == s
    decreases |s|
  {
    if s != [] {
      assert !Contains(s[1..], pat);
      ReplaceAllAbsent(s[1..], pat, rep);
    }
  }

  /** No window of `a + b` that starts inside `a` and ends inside `b` equals `t`. */
  predicate NoStraddle(a: string, b: string, t: string)
  {
    forall j :: 0 <= j < |a| < j + |t| <= |a| + |b| ==> !OccursAt(a + b, t, j)
  }

  /** `t` occurs in `s` starting at index `j`. */
  predicate OccursAt(s: string, t: string, j: nat)
  {
    j + |t| <= |s| && s[j..j + |t|] == t
  }

  /**
   * Replacing in a concatenation is replacing in each part, provided no occurrence
   * of the pattern crosses the seam.
   */
  lemma {:induction false} ReplaceAllConcat(a: string, b: string, pat: string, rep: string)
    requires pat != []
    requires NoStraddle(a, b, pat)
    ensures ReplaceAll(a + b, pat, rep) == ReplaceAll(a, pat, rep) + ReplaceAll(b, pat, rep)
    decreases |a|, 1
  {
    if a == [] {
      assert a + b == b;
    } else if StartsWith(a + b, pat) {
      ReplaceAllConcatMatch(a, b, pat, rep);
    } else {
      ReplaceAllConcatSkip(a, b, pat, rep);
    }
  }

  /** `ReplaceAllConcat` when an occurrence starts at the front: it lies wholly inside `a`. */
  lemma {:induction false} ReplaceAllConcatMatch(a: string, b: string, pat: string, rep: string)
    requires pat != [] && a != [] && StartsWith(a + b, pat)
    requires NoStraddle(a, b, pat)
    ensures ReplaceAll(a + b, pat, rep) == ReplaceAll(a, pat, rep) + ReplaceAll(b, pat, rep)
    decreases |a|, 0
  {
    var s := a + b;
    MatchInsideLeft(a, b, pat);
    var a' := a[|pat|..];
    NoStraddleShift(a, b, pat, |pat|);
    calc {
      ReplaceAll(s, pat, rep);
      { ReplaceAllMatch(s, pat, rep); assert s[|pat|..] == a' + b; }
      rep + ReplaceAll(a' + b, pat, rep);
      { ReplaceAllConcat(a', b, pat, rep); }
      rep + (ReplaceAll(a', pat, rep) + ReplaceAll(b, pat, rep));
      { ReplaceAllMatch(a, pat, rep); }
      ReplaceAll(a, pat, rep) + ReplaceAll(b, pat, rep);
    }
  }

  /** An occurrence at the front of `a + b` that does not straddle the seam lies inside `a`. */
  lemma MatchInsideLeft(a: string, b: string, pat: string)
    requires pat != [] && a != [] && StartsWith(a + b, pat)
    requires NoStraddle(a, b, pat)
    ensures |pat| <= |a| && StartsWith(a, pat)
  {
    var s := a + b;
    assert OccursAt(s, pat, 0);
    assert |pat| <= |a|;
    assert a[..|pat|] == s[..|pat|];
  }

  /** `ReplaceAllConcat` when no occurrence starts at the front: the first character passes. */
  lemma {:induction false} ReplaceAllConcatSkip(a: string, b: string, pat: string, rep: string)
    requires pat != [] && a != [] && !StartsWith(a + b, pat)
    requires NoStraddle(a, b, pat)
    ensures ReplaceAll(a + b, pat, rep) == ReplaceAll(a, pat, rep) + ReplaceAll(b, pat, rep)
    decreases |a|, 0
  {
    var s := a + b;
    var a' := a[1..];
    assert |pat| <= |a| ==> s[..|pat|] == a[..|pat|];
    assert !StartsWith(a, pat);
    NoStraddleShift(a, b, pat, 1);
    calc {
      ReplaceAll(s, pat, rep);
      { ReplaceAllStep(s, pat, rep); assert s[1..] == a' + b; }
      [a[0]] + ReplaceAll(a' + b, pat, rep);
      { ReplaceAllConcat(a', b, pat, rep); }
      [a[0]] + (ReplaceAll(a', pat, rep) + ReplaceAll(b, pat, rep));
      { ReplaceAllStep(a, pat, rep); }
      ReplaceAll(a, pat, rep) + ReplaceAll(b, pat, rep);
    }
  }

  /** Dropping a prefix of `a` keeps the seam free of the pattern. */
  lemma NoStraddleShift(a: string, b: string, pat: string, k: nat)
    requires k <= |a| && NoStraddle(a, b, pat)
    ensures NoStraddle(a[k..], b, pat)
  {
    var a' := a[k..];
    var t := a + b;
    var u := a' + b;
    assert forall m :: 0 <= m < |u| ==> u[m] == t[k + m];
    forall j | 0 <= j < |a'| < j + |pat| <= |a'| + |b|
      ensures !OccursAt(u, pat, j)
    {
      var w := u[j..j + |pat|];
      var w' := t[j + k..j + k + |pat|];
      assert forall m :: 0 <= m < |pat| ==> w[m] == u[j + m] == t[j + k + m] == w'[m];
      assert w == w';
      assert !OccursAt(t, pat, j + k);
    }
  }

  /** When the first character of `pat` never occurs in `a`, `a` passes through untouched. */
  lemma {:induction false} ReplaceAllCleanPrefix(a: string, b: string, pat: string, rep: string)
    requires pat != [] && pat[0] !in a
    ensures ReplaceAll(a + b, pat, rep) == a + ReplaceAll(b, pat, rep)
    decreases |a|
  {
    if a == [] {
      assert a + b == b;
    } else {
      var a' := a[1..];
      NotInTail(a, pat[0]);
      SkipFront(a, b, pat, rep);
      ReplaceAllCleanPrefix(a', b, pat, rep);
      var x := ReplaceAll(b, pat, rep);
      assert [a[0]] + (a' + x) == ([a[0]] + a') + x;
      assert [a[0]] + a' == a;
    }
  }

  /** The first character of `a` cannot begin `pat`, so `replace` passes it through. */
  lemma SkipFront(a: string, b: string, pat: string, rep: string)
    requires pat != [] && a != [] && a[0] != pat[0]
    ensures ReplaceAll(a + b, pat, rep) == [a[0]] + ReplaceAll(a[1..] + b, pat, rep)
  {
    var s := a + b;
    assert s[0] == a[0] && s[1..] == a[1..] + b;
    ReplaceAllSkip(s, pat, rep);
  }

  lemma NotInTail(a: string, c: char)
    requires a != [] && c !in a
    ensures a[0] != c && c !in a[1..]
  {
    assert a == [a[0]] + a[1..];
  }

  /** A character absent from `s` is not contained in it. */
  lemma {:induction false} AbsentCharNotContained(s: string, t: string)
    requires t != [] && t[0] !in s
    ensures !Contains(s, t)
    decreases |s|
  {
    if s != [] {
      AbsentCharNotContained(s[1..], t);
    }
  }

  /** Python's `s.find(c)` for a one-character needle: first index, or -1. */
  function Find(s: string, c: char): (r: int)
    ensures r == -1 <==> c !in s
    ensures r != -1 ==> 0 <= r < |s| && s[r] == c && c !in s[..r]
  {
    if s == [] then -1
    else if s[0] == c then 0
    else
      var k := Find(s[1..], c);
      if k == -1 then -1
      else
        assert s[..k + 1] == [s[0]] + s[1..][..k];
        k + 1
  }

  /** Python's `s.rfind(c)` for a one-character needle: last index, or -1. */
  function RFind(s: string, c: char): (r: int)
    ensures r == -1 <==> c !in s
    ensures r != -1 ==> 0 <= r < |s| && s[r] == c && c !in s[r + 1..]
  {
    if s == [] then -1
    else if s[|s| - 1] == c then |s| - 1
    else
      var k := RFind(s[..|s| - 1], c);
      assert k != -1 ==> s[k + 1..] == s[..|s| - 1][k + 1..] + [s[|s| - 1]];
      assert k == -1 ==> s == s[..|s| - 1] + [s[|s| - 1]];
      k
  }

  /** ASCII decimal digit (what `\d` matches in this model). */
  predicate IsDigit(c: char)
  {
    '0' <= c <= '9'
  }

  predicate AllDigits(s: string)
  {
    forall i :: 0 <= i < |s| ==> IsDigit(s[i])
  }

  function DigitOf(d: nat): (c: char)
    requires d < 10
    ensures IsDigit(c)
  {
    ('0' as int + d) as char
  }

  /** Value of a string of decimal digits, most significant first. */
  function DigitsValue(s: string): nat
    requires AllDigits(s)
  {
    if s == [] then 0 else DigitsValue(s[..|s| - 1]) * 10 + (s[|s| - 1] as int - '0' as int)
  }

  /** Python's `str(n)` for a natural number: its shortest decimal rendering. */
  function NatToString(n: nat): (r: string)
    ensures r != [] && AllDigits(r)
    ensures DigitsValue(r) == n
    ensures r[0] == '0' ==> n == 0
  {
    if n < 10 then [DigitOf(n)]
    else
      var r := NatToString(n / 10) + [DigitOf(n % 10)];
      assert r[..|r| - 1] == NatToString(n / 10);
      r
  }

  /** Distinct numbers render differently. */
  lemma NatToStringInjective(m: nat, n: nat)
    requires NatToString(m) == NatToString(n)
    ensures m == n
  {
  }
}
