/**
 * `delete_empty_medicine_paragraphs` of the Word automation script. Medicine slots 3 to 5
 * whose `MED_n` value is blank lose every paragraph that mentions one of the slot's four
 * tokens, and a blank `AMT_n` dooms the paragraphs mentioning `{{AMT_n}}`. Slots 1 and 2
 * are never deleted. A deletion Word refuses is skipped.
 */
module WordDeletion {
  import opened Wrappers
  import opened PyStr
  import opened PyDict
  import opened Placeholder
  import opened WordDocument

  /** The values file: each field a JSON string or `null`. */
  type Values = Dict<Option<string>>

  /** A single decimal digit, as `f"{n}"` prints it. */
  type Digit = n: nat | n < 10

  /** `values.get(k) or ""`. */
  function ValueOrEmpty(values: Values, k: string): string
  {
    var x: Option<Option<string>> := Get(values, k);
    if x.Some? && x.value.Some? then x.value.value else ""
  }

  /** The field is missing, `null`, or only whitespace. */
  predicate Blank(values: Values, k: string)
  {
    AllSpace(ValueOrEmpty(values, k))
  }

  /** `Blank` is the script's test `not (values.get(k) or "").strip()`. */
  lemma BlankIsEmptyStrip(values: Values, k: string)
    ensures Blank(values, k) <==> Strip(ValueOrEmpty(values, k)) == []
  {
  }

  /** The slots the deletion looks at, `(3, 4, 5)`. */
  const Slots: seq<Digit> := [3, 4, 5]

  function MedKey(n: Digit): string { "MED_" + [DigitOf(n)] }
  function FormKey(n: Digit): string { "FORM_MED_" + [DigitOf(n)] }
  function QtyKey(n: Digit): string { "QTY_MED_" + [DigitOf(n)] }
  function AmtKey(n: Digit): string { "AMT_" + [DigitOf(n)] }

  /** The four tokens of slot `n`, in the order the script lists them. */
  function SlotTokens(n: Digit): seq<string>
  {
    [Token(MedKey(n)), Token(FormKey(n)), Token(QtyKey(n)), Token(AmtKey(n))]
  }

  /** `empty_med_ns`: the slots of `ns` whose medicine name is blank, in order. */
  function BlankMedSlots(values: Values, ns: seq<Digit>): seq<Digit>
  {
    if ns == [] then []
    else
      var n := ns[|ns| - 1];
      BlankMedSlots(values, ns[..|ns| - 1]) + if Blank(values, MedKey(n)) then [n] else []
  }

  /** The four tokens of every slot of `ns`, slot after slot. */
  function MedTokens(ns: seq<Digit>): seq<string>
  {
    if ns == [] then [] else MedTokens(ns[..|ns| - 1]) + SlotTokens(ns[|ns| - 1])
  }

  /** `{{AMT_n}}` for every slot of `ns` whose amount is blank. */
  function AmtTokens(values: Values, ns: seq<Digit>): seq<string>
  {
    if ns == [] then []
    else
      var n := ns[|ns| - 1];
      AmtTokens(values, ns[..|ns| - 1]) + if Blank(values, AmtKey(n)) then [Token(AmtKey(n))] else []
  }

  /** `empty_tokens` as the script builds it. */
  function EmptyTokens(values: Values): seq<string>
  {
    MedTokens(BlankMedSlots(values, Slots)) + AmtTokens(values, Slots)
  }

  /** The two loops that accumulate `empty_tokens`. */
  method CollectEmptyTokens(values: Values) returns (toks: seq<string>)
    ensures toks == EmptyTokens(values)
  {
    var medTokens := CollectMedTokens(BlankMedSlots(values, Slots));
    var amtTokens := CollectAmtTokens(values, Slots);
    toks := medTokens + amtTokens;
  }

  /** The first loop: the four tokens of every slot in `emptyMedNs`. */
  method CollectMedTokens(emptyMedNs: seq<Digit>) returns (toks: seq<string>)
    ensures toks == MedTokens(emptyMedNs)
  {
    toks := [];
    for i := 0 to |emptyMedNs|
      invariant toks == MedTokens(emptyMedNs[..i])
    {
      MedTokensStep(emptyMedNs, i);
      toks := toks + SlotTokens(emptyMedNs[i]);
    }
    assert emptyMedNs[..|emptyMedNs|] == emptyMedNs;
  }

  /** The second loop: `{{AMT_n}}` of every slot of `ns` whose amount is blank. */
  method CollectAmtTokens(values: Values, ns: seq<Digit>) returns (toks: seq<string>)
    ensures toks == AmtTokens(values, ns)
  {
    toks := [];
    for i := 0 to |ns|
      invariant toks == AmtTokens(values, ns[..i])
    {
      AmtTokensStep(values, ns, i);
      var n := ns[i];
      if Blank(values, AmtKey(n)) {
        toks := toks + [Token(AmtKey(n))];
      }
    }
    assert ns[..|ns|] == ns;
  }

  lemma MedTokensStep(ns: seq<Digit>, i: nat)
    requires i < |ns|
    ensures MedTokens(ns[..i + 1]) == MedTokens(ns[..i]) + SlotTokens(ns[i])
  {
    assert ns[..i + 1][..i] == ns[..i];
  }

  lemma AmtTokensStep(values: Values, ns: seq<Digit>, i: nat)
    requires i < |ns|
    ensures AmtTokens(values, ns[..i + 1]) ==
      AmtTokens(values, ns[..i]) + if Blank(values, AmtKey(ns[i])) then [Token(AmtKey(ns[i]))] else []
  {
    assert ns[..i + 1][..i] == ns[..i];
  }

  lemma {:induction false} BlankMedSlotsMembers(values: Values, ns: seq<Digit>, n: Digit)
    ensures n in BlankMedSlots(values, ns) <==> n in ns && Blank(values, MedKey(n))
  {
    if ns != [] {
      BlankMedSlotsMembers(values, ns[..|ns| - 1], n);
      assert ns == ns[..|ns| - 1] + [ns[|ns| - 1]];
    }
  }

  lemma {:induction false} MedTokensMembers(ns: seq<Digit>, tok: string)
    ensures tok in MedTokens(ns) <==> exists n :: n in ns && tok in SlotTokens(n)
  {
    if ns != [] {
      var init := ns[..|ns| - 1];
      MedTokensMembers(init, tok);
      assert ns == init + [ns[|ns| - 1]];
    }
  }

  lemma {:induction false} AmtTokensMembers(values: Values, ns: seq<Digit>, tok: string)
    ensures tok in AmtTokens(values, ns) <==>
      exists n :: n in ns && Blank(values, AmtKey(n)) && tok == Token(AmtKey(n))
  {
    if ns != [] {
      var init := ns[..|ns| - 1];
      AmtTokensMembers(values, init, tok);
      assert ns == init + [ns[|ns| - 1]];
    }
  }

  /** Why slot `n` dooms `tok`: its medicine is blank, or its amount is. */
  predicate SlotDooms(values: Values, n: Digit, tok: string)
  {
    (Blank(values, MedKey(n)) && tok in SlotTokens(n)) || (Blank(values, AmtKey(n)) && tok == Token(AmtKey(n)))
  }

  /** Over any list of slots, a token is collected exactly when one of the slots dooms it. */
  lemma TokensForMembers(values: Values, ns: seq<Digit>, tok: string)
    ensures tok in MedTokens(BlankMedSlots(values, ns)) + AmtTokens(values, ns) <==>
      exists n :: n in ns && SlotDooms(values, n, tok)
  {
    var med := BlankMedSlots(values, ns);
    MedTokensMembers(med, tok);
    AmtTokensMembers(values, ns, tok);
    if tok in MedTokens(med) {
      var n: Digit :| n in med && tok in SlotTokens(n);
      BlankMedSlotsMembers(values, ns, n);
      assert SlotDooms(values, n, tok);
    }
    forall n: Digit | n in ns && SlotDooms(values, n, tok)
      ensures tok in MedTokens(med) + AmtTokens(values, ns)
    {
      BlankMedSlotsMembers(values, ns, n);
    }
  }

  /**
   * A token is collected exactly when one of slots 3, 4 and 5 dooms it: all four tokens
   * of a slot with a blank medicine, and `{{AMT_n}}` of a slot with a blank amount.
   */
  lemma EmptyTokensMembers(values: Values, tok: string)
    ensures tok in EmptyTokens(values) <==> SlotDooms(values, 3, tok) || SlotDooms(values, 4, tok) || SlotDooms(values, 5, tok)
  {
    TokensForMembers(values, Slots, tok);
    assert forall n: Digit :: n in Slots <==> n == 3 || n == 4 || n == 5;
  }

  /** The first letter of a slot key names its field; its last character, the slot. */
  lemma SlotKeyShape(n: Digit)
    ensures MedKey(n)[0] == 'M' && FormKey(n)[0] == 'F' && QtyKey(n)[0] == 'Q' && AmtKey(n)[0] == 'A'
    ensures MedKey(n)[|MedKey(n)| - 1] == DigitOf(n) && FormKey(n)[|FormKey(n)| - 1] == DigitOf(n)
    ensures QtyKey(n)[|QtyKey(n)| - 1] == DigitOf(n) && AmtKey(n)[|AmtKey(n)| - 1] == DigitOf(n)
  {
  }

  /** Tokens of different slots differ. */
  lemma SlotTokensDisjoint(n: Digit, m: Digit, tok: string)
    requires n != m && tok in SlotTokens(n)
    ensures tok !in SlotTokens(m)
  {
    SlotKeyShape(n);
    SlotKeyShape(m);
    var a := [MedKey(n), FormKey(n), QtyKey(n), AmtKey(n)];
    var b := [MedKey(m), FormKey(m), QtyKey(m), AmtKey(m)];
    assert forall i :: 0 <= i < 4 ==> a[i] != [] && a[i][|a[i]| - 1] == DigitOf(n);
    assert forall j :: 0 <= j < 4 ==> b[j] != [] && b[j][|b[j]| - 1] == DigitOf(m);
    forall i, j | 0 <= i < 4 && 0 <= j < 4 ensures Token(a[i]) != Token(b[j]) {
      TokenInjective(a[i], b[j]);
    }
    assert SlotTokens(n) == [Token(a[0]), Token(a[1]), Token(a[2]), Token(a[3])];
    assert SlotTokens(m) == [Token(b[0]), Token(b[1]), Token(b[2]), Token(b[3])];
  }

  /** The deletion never collects a token of medicine slot 1 or 2. */
  lemma NoLowSlotTokens(values: Values, n: Digit, tok: string)
    requires n == 1 || n == 2
    requires tok in SlotTokens(n)
    ensures tok !in EmptyTokens(values)
  {
    EmptyTokensMembers(values, tok);
    SlotTokensDisjoint(n, 3, tok);
    SlotTokensDisjoint(n, 4, tok);
    SlotTokensDisjoint(n, 5, tok);
    assert Token(AmtKey(3)) in SlotTokens(3) && Token(AmtKey(4)) in SlotTokens(4) && Token(AmtKey(5)) in SlotTokens(5);
  }

  /** `any(tok in txt for tok in empty_tokens)`. */
  function AnyIn(txt: string, toks: seq<string>): (b: bool)
    ensures b <==> exists i :: 0 <= i < |toks| && Contains(txt, toks[i])
  {
    if toks == [] then false
    else AnyIn(txt, toks[..|toks| - 1]) || Contains(txt, toks[|toks| - 1])
  }

  /** True when the paragraph mentions one of the tokens. */
  predicate Doomed(p: WordParagraph, toks: seq<string>)
  {
    AnyIn(p.text, toks)
  }

  /** The paragraphs left after trying to delete every doomed one. */
  function Survivors(ps: seq<WordParagraph>, toks: seq<string>): seq<WordParagraph>
  {
    if ps == [] then []
    else
      var p := ps[|ps| - 1];
      Survivors(ps[..|ps| - 1], toks) + if Doomed(p, toks) && p.editable then [] else [p]
  }

  /** `delete_empty_medicine_paragraphs(doc, values)`. */
  method DeleteEmptyMedicineParagraphs(doc: Document, values: Values)
    modifies doc
    ensures EmptyTokens(values) == [] ==> doc.paragraphs == old(doc.paragraphs)
    ensures doc.paragraphs == Survivors(old(doc.paragraphs), EmptyTokens(values))
  {
    var toks := CollectEmptyTokens(values);
    if toks == [] {
      SurvivorsUntouched(doc.paragraphs, toks);
      return;
    }
    DeleteDoomed(doc, toks);
  }

  /** The deletion loop: every paragraph mentioning a token is offered to `safe_delete_paragraph`. */
  method DeleteDoomed(doc: Document, toks: seq<string>)
    modifies doc
    ensures doc.paragraphs == Survivors(old(doc.paragraphs), toks)
  {
    var snapshot := doc.paragraphs;
    var j := 0;
    for i := 0 to |snapshot|
      invariant doc.paragraphs == Survivors(snapshot[..i], toks) + snapshot[i..]
      invariant j == |Survivors(snapshot[..i], toks)|
    {
      j := VisitParagraph(doc, snapshot, i, j, toks);
    }
    assert snapshot[..|snapshot|] == snapshot;
  }

  /**
   * One turn of the deletion loop: paragraph `i` of the original story, now at index `j`,
   * is deleted when it mentions a token and Word allows it.
   */
  method VisitParagraph(doc: Document, snapshot: seq<WordParagraph>, i: nat, j: nat, toks: seq<string>)
    returns (j': nat)
    requires i < |snapshot|
    requires doc.paragraphs == Survivors(snapshot[..i], toks) + snapshot[i..]
    requires j == |Survivors(snapshot[..i], toks)|
    modifies doc
    ensures doc.paragraphs == Survivors(snapshot[..i + 1], toks) + snapshot[i + 1..]
    ensures j' == |Survivors(snapshot[..i + 1], toks)|
  {
    SurvivorsStep(snapshot, i, toks);
    ghost var kept := Survivors(snapshot[..i], toks);
    var txt := doc.paragraphs[j].text;
    j' := j + 1;
    if AnyIn(txt, toks) {
      var deleted := doc.SafeDeleteParagraph(j);
      if deleted {
        j' := j;
      }
    }
  }

  lemma SurvivorsStep(snapshot: seq<WordParagraph>, i: nat, toks: seq<string>)
    requires i < |snapshot|
    ensures var p := snapshot[i]; var kept := Survivors(snapshot[..i], toks);
      && Survivors(snapshot[..i + 1], toks) == kept + (if Doomed(p, toks) && p.editable then [] else [p])
      && (kept + snapshot[i..])[..|kept|] == kept
      && (kept + snapshot[i..])[|kept|] == p
      && (kept + snapshot[i..])[|kept| + 1..] == snapshot[i + 1..]
      && kept + [p] + snapshot[i + 1..] == kept + snapshot[i..]
  {
    assert snapshot[..i + 1][..i] == snapshot[..i];
  }

  /** With no paragraph mentioning a token, nothing is deleted. */
  lemma {:induction false} SurvivorsUntouched(ps: seq<WordParagraph>, toks: seq<string>)
    requires forall i :: 0 <= i < |ps| ==> !Doomed(ps[i], toks)
    ensures Survivors(ps, toks) == ps
  {
    if ps != [] {
      var init := ps[..|ps| - 1];
      assert forall i :: 0 <= i < |init| ==> init[i] == ps[i];
      SurvivorsUntouched(init, toks);
    }
  }

  /** Deletion is decided paragraph by paragraph: the survivors of a concatenation. */
  lemma {:induction false} SurvivorsConcat(a: seq<WordParagraph>, b: seq<WordParagraph>, toks: seq<string>)
    ensures Survivors(a + b, toks) == Survivors(a, toks) + Survivors(b, toks)
  {
    if b != [] {
      var last := b[|b| - 1];
      assert (a + b)[..|a + b| - 1] == a + b[..|b| - 1];
      SurvivorsConcat(a, b[..|b| - 1], toks);
    } else {
      assert a + b == a;
    }
  }

  /**
   * The survivors are the paragraphs the deletion leaves: every one that mentions no token,
   * and among those that do, exactly the ones whose deletion Word refused.
   */
  lemma {:induction false} SurvivorsMembers(ps: seq<WordParagraph>, toks: seq<string>, p: WordParagraph)
    ensures p in Survivors(ps, toks) <==> p in ps && !(Doomed(p, toks) && p.editable)
  {
    if ps != [] {
      var init := ps[..|ps| - 1];
      SurvivorsMembers(init, toks, p);
      assert ps == init + [ps[|ps| - 1]];
    }
  }
}
