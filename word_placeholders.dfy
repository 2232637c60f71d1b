/**
 * The placeholder stage of the Word automation script: `build_placeholder_map`, which
 * turns the values file into a `{{KEY}} -> text` map, the replacement loop of `main`,
 * which hands the map to Word's Find/Replace longest token first, and the three steps of
 * `main` between opening the template and saving it.
 */
module WordPlaceholders {
  import opened Wrappers
  import opened PyStr
  import opened PyDict
  import opened Placeholder
  import opened WordDocument
  import opened WordDeletion

  /** `re.fullmatch(r"QTY_MED_\d+", k)`. */
  predicate IsQtyKey(k: string)
  {
    StartsWith(k, "QTY_MED_") && |k| > 8 && AllDigits(k[8..])
  }

  /** The quantity label, leading comma and en dash included. */
  const QtyLabel: string := ", Qty \U{2013} "

  /** `str(v)` after `None` became `""`. */
  function OrEmpty(v: Option<string>): string
  {
    if v.None? then "" else v.value
  }

  /** The text placed for key `k` holding `v`. */
  function PlaceholderValue(k: string, v: Option<string>): string
  {
    var s := OrEmpty(v);
    if IsQtyKey(k) then (if Strip(s) != [] then QtyLabel + Strip(s) else "") else s
  }

  /**
   * A quantity key gets the label and its stripped value, or nothing when its value is
   * missing or only whitespace; every other key gets its value unchanged, `null` as `""`.
   */
  lemma PlaceholderValueCases(k: string, v: Option<string>)
    ensures IsQtyKey(k) && AllSpace(OrEmpty(v)) ==> PlaceholderValue(k, v) == ""
    ensures IsQtyKey(k) && !AllSpace(OrEmpty(v)) ==>
      PlaceholderValue(k, v) == QtyLabel + Strip(OrEmpty(v)) && !IsSpace(PlaceholderValue(k, v)[|PlaceholderValue(k, v)| - 1])
    ensures !IsQtyKey(k) ==> PlaceholderValue(k, v) == OrEmpty(v) && (v.None? ==> PlaceholderValue(k, v) == "")
  {
  }

  /** The entries `build_placeholder_map` assigns, one per item of `values`, in order. */
  function Entries(values: seq<(string, Option<string>)>): (r: seq<(string, string)>)
    ensures |r| == |values|
    ensures forall i :: 0 <= i < |values| ==> r[i] == (Token(values[i].0), PlaceholderValue(values[i].0, values[i].1))
  {
    if values == [] then []
    else
      var (k, v) := values[|values| - 1];
      Entries(values[..|values| - 1]) + [(Token(k), PlaceholderValue(k, v))]
  }

  /** A dict built by assigning the entries one after the other. */
  function AssignEach(entries: seq<(string, string)>): Dict<string>
  {
    if entries == [] then []
    else
      var (k, v) := entries[|entries| - 1];
      Set(AssignEach(entries[..|entries| - 1]), k, v)
  }

  /** What `build_placeholder_map(values)` returns. */
  function PlaceholderMap(values: seq<(string, Option<string>)>): Dict<string>
  {
    AssignEach(Entries(values))
  }

  /** `build_placeholder_map(values)`. */
  method BuildPlaceholderMap(values: Values) returns (m: Dict<string>)
    ensures m == PlaceholderMap(values)
  {
    m := [];
    for i := 0 to |values|
      invariant m == AssignEach(Entries(values[..i]))
    {
      assert values[..i + 1][..i] == values[..i];
      var (k, v) := values[i];
      ghost var e := Entries(values[..i + 1]);
      assert e[..i] == Entries(values[..i]) && e[i] == (Token(k), PlaceholderValue(k, v));
      m := Set(m, Token(k), PlaceholderValue(k, v));
    }
    assert values[..|values|] == values;
  }

  /** Assigning entries with distinct keys into an empty dict keeps all of them, in order. */
  lemma {:induction false} AssignEachDistinct(entries: seq<(string, string)>)
    requires DistinctKeys(entries)
    ensures AssignEach(entries) == entries
  {
    if entries != [] {
      var n := |entries| - 1;
      var init := entries[..n];
      DistinctInit(entries);
      AssignEachDistinct(init);
      var (k, v) := entries[n];
      assert AssignEach(entries) == Set(AssignEach(init), k, v);
      SetFresh(init, k, v);
      assert init + [(k, v)] == entries;
    }
  }

  /** Dropping the last entry keeps the keys distinct, and the last key is new to the rest. */
  lemma DistinctInit(entries: seq<(string, string)>)
    requires entries != [] && DistinctKeys(entries)
    ensures var n := |entries| - 1;
      && DistinctKeys(entries[..n])
      && forall i :: 0 <= i < n ==> entries[..n][i].0 != entries[n].0
  {
    var n := |entries| - 1;
    assert forall i :: 0 <= i < n ==> entries[..n][i] == entries[i];
  }

  /** Assigning a key the dict does not hold appends it. */
  lemma SetFresh(d: Dict<string>, k: string, v: string)
    requires forall i :: 0 <= i < |d| ==> d[i].0 != k
    ensures Set(d, k, v) == d + [(k, v)]
  {
    assert !HasKey(d, k);
  }

  /**
   * The map has exactly one entry per input key, in the input's order: the key's token
   * and the value placed for it.
   */
  lemma PlaceholderMapEntries(values: seq<(string, Option<string>)>)
    requires DistinctKeys(values)
    ensures var m := PlaceholderMap(values);
      && |m| == |values|
      && forall i :: 0 <= i < |values| ==> m[i] == (Token(values[i].0), PlaceholderValue(values[i].0, values[i].1))
  {
    var e := Entries(values);
    forall i, j | 0 <= i < j < |e| ensures e[i].0 != e[j].0 {
      TokenInjective(values[i].0, values[j].0);
    }
    AssignEachDistinct(e);
  }

  /** Looking a token up in the map finds the placed value of its key, and only keys have tokens. */
  lemma PlaceholderMapGet(values: Values, k: string)
    ensures Get(PlaceholderMap(values), Token(k)) ==
      match Get(values, k) case Some(v) => Some(PlaceholderValue(k, v)) case None => None
  {
    var m := PlaceholderMap(values);
    PlaceholderMapEntries(values);
    var i := IndexOf(values, k);
    if i == -1 {
      forall j | 0 <= j < |m| ensures m[j].0 != Token(k) {
        TokenInjective(values[j].0, k);
      }
    } else {
      GetAt(values, i);
      GetAt(m, i);
    }
  }

  /** `ph` is inserted in front of the first token shorter than it. */
  function InsertByLength(ph: string, s: seq<string>): seq<string>
  {
    if s == [] then [ph]
    else if |s[0]| < |ph| then [ph] + s
    else [s[0]] + InsertByLength(ph, s[1..])
  }

  /** `sorted(s, key=len, reverse=True)`: Python's sort is stable, also when reversed. */
  function LongestFirst(s: seq<string>): seq<string>
  {
    if s == [] then [] else InsertByLength(s[|s| - 1], LongestFirst(s[..|s| - 1]))
  }

  predicate NonIncreasingLength(s: seq<string>)
  {
    forall i, j :: 0 <= i < j < |s| ==> |s[i]| >= |s[j]|
  }

  /** The elements of `s` of length `n`, in order. */
  function OfLength(s: seq<string>, n: nat): seq<string>
  {
    if s == [] then [] else (if |s[0]| == n then [s[0]] else []) + OfLength(s[1..], n)
  }

  lemma {:induction false} OfLengthConcat(a: seq<string>, b: seq<string>, n: nat)
    ensures OfLength(a + b, n) == OfLength(a, n) + OfLength(b, n)
  {
    if a == [] {
      assert a + b == b;
    } else {
      assert (a + b)[0] == a[0] && (a + b)[1..] == a[1..] + b;
      OfLengthConcat(a[1..], b, n);
    }
  }

  lemma {:induction false} OfLengthShorter(s: seq<string>, n: nat)
    requires forall i :: 0 <= i < |s| ==> |s[i]| < n
    ensures OfLength(s, n) == []
  {
    if s != [] {
      OfLengthShorter(s[1..], n);
    }
  }

  lemma {:induction false} InsertByLengthMultiset(ph: string, s: seq<string>)
    ensures multiset(InsertByLength(ph, s)) == multiset(s) + multiset{ph}
  {
    if s != [] && |s[0]| >= |ph| {
      InsertByLengthMultiset(ph, s[1..]);
      assert s == [s[0]] + s[1..];
    }
  }

  lemma {:induction false} InsertByLengthSorted(ph: string, s: seq<string>)
    requires NonIncreasingLength(s)
    ensures NonIncreasingLength(InsertByLength(ph, s))
    ensures forall j :: 0 <= j < |InsertByLength(ph, s)| ==>
      |InsertByLength(ph, s)[j]| <= if s == [] || |s[0]| < |ph| then |ph| else |s[0]|
  {
    if s != [] && |s[0]| >= |ph| {
      var t := InsertByLength(ph, s[1..]);
      InsertByLengthSorted(ph, s[1..]);
      assert forall j :: 1 <= j < |s| ==> |s[j]| <= |s[0]|;
      assert forall j :: 0 <= j < |t| ==> |t[j]| <= |s[0]|;
      assert InsertByLength(ph, s) == [s[0]] + t;
    }
  }

  lemma {:induction false} InsertByLengthStable(ph: string, s: seq<string>, n: nat)
    requires NonIncreasingLength(s)
    ensures OfLength(InsertByLength(ph, s), n) == OfLength(s, n) + if |ph| == n then [ph] else []
  {
    if s == [] || |s[0]| < |ph| {
      InsertedInFront(ph, s, n);
      assert InsertByLength(ph, s) == [ph] + s;
    } else {
      InsertByLengthStable(ph, s[1..], n);
      InsertedBehind(ph, s, n);
    }
  }

  /** Inserted before everything shorter: no element of `s` has the inserted length. */
  lemma InsertedInFront(ph: string, s: seq<string>, n: nat)
    requires NonIncreasingLength(s) && (s == [] || |s[0]| < |ph|)
    ensures OfLength([ph] + s, n) == OfLength(s, n) + if |ph| == n then [ph] else []
  {
    var tail := if |ph| == n then [ph] else [];
    assert OfLength([ph], n) == tail + OfLength([], n);
    if |ph| == n {
      OfLengthShorter(s, n);
    }
    OfLengthConcat([ph], s, n);
  }

  /** Inserted behind the head: the head's contribution comes first on both sides. */
  lemma InsertedBehind(ph: string, s: seq<string>, n: nat)
    requires s != [] && |s[0]| >= |ph|
    requires OfLength(InsertByLength(ph, s[1..]), n) == OfLength(s[1..], n) + if |ph| == n then [ph] else []
    ensures OfLength(InsertByLength(ph, s), n) == OfLength(s, n) + if |ph| == n then [ph] else []
  {
    var t := InsertByLength(ph, s[1..]);
    var u := [s[0]] + t;
    assert u[1..] == t;
    var h := if |s[0]| == n then [s[0]] else [];
    var tail := if |ph| == n then [ph] else [];
    assert OfLength(u, n) == h + (OfLength(s[1..], n) + tail);
    assert h + (OfLength(s[1..], n) + tail) == (h + OfLength(s[1..], n)) + tail;
  }

  /**
   * The replacement order: non-increasing token length, the same tokens as the map's keys
   * (so each entry is processed once), and tokens of equal length in the map's order.
   */
  lemma {:induction false} LongestFirstProperties(s: seq<string>, n: nat)
    ensures NonIncreasingLength(LongestFirst(s))
    ensures multiset(LongestFirst(s)) == multiset(s)
    ensures OfLength(LongestFirst(s), n) == OfLength(s, n)
  {
    if s != [] {
      var init := s[..|s| - 1];
      var last := s[|s| - 1];
      LongestFirstProperties(init, n);
      InsertByLengthMultiset(last, LongestFirst(init));
      InsertByLengthSorted(last, LongestFirst(init));
      InsertByLengthStable(last, LongestFirst(init), n);
      assert s == init + [last];
      OfLengthConcat(init, [last], n);
      assert OfLength([last], n) == (if |last| == n then [last] else []) + OfLength([], n);
    }
  }

  /** A sequence without repetitions holds each member once. */
  lemma {:induction false} DistinctCounts(s: seq<string>, x: string)
    requires forall i, j :: 0 <= i < j < |s| ==> s[i] != s[j]
    ensures multiset(s)[x] == if x in s then 1 else 0
  {
    if s != [] {
      var init := s[..|s| - 1];
      DistinctCounts(init, x);
      assert s == init + [s[|s| - 1]];
      assert s[|s| - 1] !in init;
    }
  }

  /** Each map entry is handed to Find/Replace exactly once. */
  lemma OrderVisitsEachEntryOnce(m: Dict<string>, ph: string)
    ensures multiset(LongestFirst(Keys(m)))[ph] == if HasKey(m, ph) then 1 else 0
  {
    LongestFirstProperties(Keys(m), 0);
    DistinctCounts(Keys(m), ph);
  }

  /** The document after the replacements for the tokens of `order`, in that order. */
  function ApplyAll(ps: seq<WordParagraph>, order: seq<string>, m: Dict<string>): seq<WordParagraph>
  {
    if order == [] then ps
    else
      var ph := order[|order| - 1];
      ReplacedTexts(ApplyAll(ps, order[..|order| - 1], m), ph, GetOr(m, ph, ""))
  }

  /** The same replacements applied to one text. */
  function ReplaceTokens(s: string, order: seq<string>, m: Dict<string>): string
  {
    if order == [] then s
    else
      var ph := order[|order| - 1];
      ReplaceAll(ReplaceTokens(s, order[..|order| - 1], m), ph, GetOr(m, ph, ""))
  }

  /**
   * Replacement works paragraph by paragraph: no paragraph is added, removed or reordered,
   * none changes its editability, and each text gets all the replacements in order.
   */
  lemma {:induction false} ApplyAllPerParagraph(ps: seq<WordParagraph>, order: seq<string>, m: Dict<string>)
    ensures var qs := ApplyAll(ps, order, m);
      |qs| == |ps| && forall i :: 0 <= i < |ps| ==> qs[i] == ps[i].(text := ReplaceTokens(ps[i].text, order, m))
  {
    if order != [] {
      ApplyAllPerParagraph(ps, order[..|order| - 1], m);
    }
  }

  /** The replacement loop of `main`. */
  method ApplyPlaceholders(doc: Document, m: Dict<string>)
    modifies doc
    ensures doc.paragraphs == ApplyAll(old(doc.paragraphs), LongestFirst(Keys(m)), m)
  {
    var order := LongestFirst(Keys(m));
    for i := 0 to |order|
      invariant doc.paragraphs == ApplyAll(old(doc.paragraphs), order[..i], m)
    {
      assert order[..i + 1][..i] == order[..i];
      var ph := order[i];
      OrderHoldsKeys(m, i);
      var rep := Get(m, ph).value;
      doc.FindReplace(ph, rep);
    }
    assert order[..|order|] == order;
  }

  /** `placeholder_map[ph]` cannot fail: every token of the order is a key of the map. */
  lemma OrderHoldsKeys(m: Dict<string>, i: nat)
    requires i < |LongestFirst(Keys(m))|
    ensures var ph := LongestFirst(Keys(m))[i]; HasKey(m, ph) && Get(m, ph) == Some(GetOr(m, ph, ""))
  {
    var order := LongestFirst(Keys(m));
    LongestFirstProperties(Keys(m), 0);
    assert order[i] in multiset(Keys(m));
    var j :| 0 <= j < |Keys(m)| && Keys(m)[j] == order[i];
  }

  /**
   * Steps 1 to 3 of `main` on an opened template: delete the empty medicine paragraphs,
   * build the placeholder map, and replace the placeholders longest first.
   */
  method FillTemplate(doc: Document, values: Values)
    modifies doc
    ensures var m := PlaceholderMap(values);
      doc.paragraphs == ApplyAll(Survivors(old(doc.paragraphs), EmptyTokens(values)), LongestFirst(Keys(m)), m)
  {
    DeleteEmptyMedicineParagraphs(doc, values);
    var m := BuildPlaceholderMap(values);
    ApplyPlaceholders(doc, m);
  }
}
