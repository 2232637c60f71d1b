/**
 * Run-level template filling of the extractor script: `replace_para`, which puts field
 * values into the `{{KEY}}` tokens of one paragraph, `fix_certified_statements`, which
 * rewrites a leading `(1)`/`(2)` of a body paragraph, and `fill_docx`, which applies the
 * first to every body and table-cell paragraph and then the second to the body.
 *
 * A paragraph is a sequence of runs, each with its own formatting, and a left indent.
 * Its text is the concatenation of the run texts, as python-docx's `Paragraph.text` is.
 */
module VisionDocx {
  import opened Wrappers
  import opened PyStr
  import opened PyDict
  import opened Placeholder

  /** An RGB colour `0xRRGGBB`. */
  type Rgb = c: nat | c < 0x100_0000

  /** A run; `None` means the property is inherited from the style. */
  datatype Run = Run(text: string, bold: Option<bool>, underline: Option<bool>, color: Option<Rgb>)

  /** A paragraph; the indent is in EMU (914400 per inch). */
  datatype Paragraph = Paragraph(runs: seq<Run>, leftIndent: Option<int>)

  /** The rows of a table, each a sequence of cells, each a sequence of paragraphs. */
  type Table = seq<seq<seq<Paragraph>>>

  /** `Inches(0.5)` in EMU. */
  const HalfInch: int := 457200

  /** The only keys whose stand-alone token is rendered bold and underlined. */
  const BoldUnderlineKeys: set<string> :=
    {"PATIENT_NAME", "ECHS_CARD_NO", "SERVICE_NO", "TOTAL_AMOUNT", "AMOUNT_WORDS"}

  /** The text of a sequence of runs. */
  function Text(rs: seq<Run>): string
  {
    if rs == [] then [] else Text(rs[..|rs| - 1]) + rs[|rs| - 1].text
  }

  /** The run `add_run(v)` with bold and underline set and the colour cleared. */
  function Emphasised(v: string): Run
  {
    Run(v, Some(true), Some(true), None)
  }

  /** The run the `p.text` setter leaves behind: the text and no formatting of its own. */
  function PlainRun(t: string): Run
  {
    Run(t, None, None, None)
  }

  /** Every run with each occurrence of `tok` in its text replaced by `v`. */
  function ReplaceInRuns(rs: seq<Run>, tok: string, v: string): (r: seq<Run>)
    ensures |r| == |rs|
    ensures forall i :: 0 <= i < |rs| ==> r[i] == rs[i].(text := ReplaceAll(rs[i].text, tok, v))
  {
    if rs == [] then []
    else ReplaceInRuns(rs[..|rs| - 1], tok, v) + [rs[|rs| - 1].(text := ReplaceAll(rs[|rs| - 1].text, tok, v))]
  }

  /** One turn of the loop over `data.items()` in `replace_para`. */
  function ReplaceKey(p: Paragraph, k: string, v: string): Paragraph
  {
    var ph := Token(k);
    if !Contains(Text(p.runs), ph) then p
    else if Strip(Text(p.runs)) == ph && k in BoldUnderlineKeys then Paragraph([Emphasised(v)], p.leftIndent)
    else Paragraph(ReplaceInRuns(p.runs, ph, v), p.leftIndent)
  }

  /** What `replace_para(p, data)` leaves in `p`: the keys taken in `data`'s order. */
  function ReplacedPara(p: Paragraph, data: seq<(string, string)>): Paragraph
  {
    if data == [] then p
    else ReplaceKey(ReplacedPara(p, data[..|data| - 1]), data[|data| - 1].0, data[|data| - 1].1)
  }

  /** `for r in p.runs: r.text = r.text.replace(ph, v)`. */
  method ReplaceRunTexts(rs: seq<Run>, ph: string, v: string) returns (out: seq<Run>)
    ensures out == ReplaceInRuns(rs, ph, v)
  {
    out := rs;
    for j := 0 to |rs|
      invariant |out| == |rs|
      invariant out == ReplaceInRuns(rs[..j], ph, v) + rs[j..]
    {
      assert rs[..j + 1][..j] == rs[..j];
      out := out[j := out[j].(text := ReplaceAll(out[j].text, ph, v))];
    }
    assert rs[..|rs|] == rs;
  }

  /** `replace_para(p, data)`. */
  method ReplacePara(p: Paragraph, data: seq<(string, string)>) returns (q: Paragraph)
    ensures q == ReplacedPara(p, data)
  {
    q := p;
    for i := 0 to |data|
      invariant q == ReplacedPara(p, data[..i])
    {
      assert data[..i + 1][..i] == data[..i];
      ghost var before := q;
      var (k, v) := data[i];
      var ph := Token(k);
      if Contains(Text(q.runs), ph) {
        if Strip(Text(q.runs)) == ph && k in BoldUnderlineKeys {
          q := Paragraph([Emphasised(v)], q.leftIndent);
        } else {
          var runs := ReplaceRunTexts(q.runs, ph, v);
          q := q.(runs := runs);
        }
      }
      assert q == ReplaceKey(before, k, v);
    }
    assert data[..|data|] == data;
  }

  /** A token that occurs in no part of a run sequence occurs in no run. */
  lemma {:induction false} AbsentFromRuns(rs: seq<Run>, t: string)
    requires !Contains(Text(rs), t)
    ensures forall i :: 0 <= i < |rs| ==> !Contains(rs[i].text, t)
  {
    if rs != [] {
      var init := rs[..|rs| - 1];
      ContainsOfConcat(Text(init), rs[|rs| - 1].text, t);
      AbsentFromRuns(init, t);
      assert forall i :: 0 <= i < |init| ==> init[i] == rs[i];
    }
  }

  /**
   * Outside the emphasis path a key step is the per-run replacement, whether or not the
   * token occurs: skipping a paragraph without the token changes nothing. The run count,
   * every run's formatting and the indent are kept.
   */
  lemma ReplaceKeyPerRun(p: Paragraph, k: string, v: string)
    requires !(Strip(Text(p.runs)) == Token(k) && k in BoldUnderlineKeys)
    ensures ReplaceKey(p, k, v) == Paragraph(ReplaceInRuns(p.runs, Token(k), v), p.leftIndent)
  {
    var ph := Token(k);
    if !Contains(Text(p.runs), ph) {
      AbsentFromRuns(p.runs, ph);
      forall i | 0 <= i < |p.runs| ensures ReplaceAll(p.runs[i].text, ph, v) == p.runs[i].text {
        ReplaceAllAbsent(p.runs[i].text, ph, v);
      }
      assert ReplaceInRuns(p.runs, ph, v) == p.runs;
    }
  }

  /** No occurrence of `tok` spans the boundary before any run. */
  predicate Unsplit(rs: seq<Run>, tok: string)
  {
    forall n :: 0 < n < |rs| ==> NoStraddle(Text(rs[..n]), rs[n].text, tok)
  }

  /**
   * When no token is split across runs, replacing it run by run has the same effect on
   * the paragraph text as replacing it in the whole text.
   */
  lemma UnsplitInit(rs: seq<Run>, tok: string)
    requires rs != [] && Unsplit(rs, tok)
    ensures Unsplit(rs[..|rs| - 1], tok)
    ensures NoStraddle(Text(rs[..|rs| - 1]), rs[|rs| - 1].text, tok)
  {
    var init := rs[..|rs| - 1];
    forall m | 0 < m < |init| ensures NoStraddle(Text(init[..m]), init[m].text, tok) {
      assert init[..m] == rs[..m] && init[m] == rs[m];
    }
    if |rs| == 1 {
      assert Text(init) == [];
    }
  }

  lemma {:induction false} ReplaceInRunsText(rs: seq<Run>, tok: string, v: string)
    requires tok != [] && Unsplit(rs, tok)
    ensures Text(ReplaceInRuns(rs, tok, v)) == ReplaceAll(Text(rs), tok, v)
  {
    if rs != [] {
      var n := |rs| - 1;
      var init := rs[..n];
      UnsplitInit(rs, tok);
      ReplaceInRunsText(init, tok, v);
      var out := ReplaceInRuns(rs, tok, v);
      assert out[..n] == ReplaceInRuns(init, tok, v);
      assert Text(out) == Text(out[..n]) + out[n].text;
      assert Text(rs) == Text(init) + rs[n].text;
      ReplaceAllConcat(Text(init), rs[n].text, tok, v);
    }
  }

  /** Outside the emphasis path, with the token unsplit, the paragraph text is replaced. */
  lemma ReplaceKeyText(p: Paragraph, k: string, v: string)
    requires !(Strip(Text(p.runs)) == Token(k) && k in BoldUnderlineKeys)
    requires Unsplit(p.runs, Token(k))
    ensures Text(ReplaceKey(p, k, v).runs) == ReplaceAll(Text(p.runs), Token(k), v)
  {
    ReplaceKeyPerRun(p, k, v);
    ReplaceInRunsText(p.runs, Token(k), v);
  }

  /** A paragraph holding none of the tokens is returned untouched. */
  lemma {:induction false} ReplacedParaUntouched(p: Paragraph, data: seq<(string, string)>)
    requires forall i :: 0 <= i < |data| ==> !Contains(Text(p.runs), Token(data[i].0))
    ensures ReplacedPara(p, data) == p
  {
    if data != [] {
      var init := data[..|data| - 1];
      assert forall i :: 0 <= i < |init| ==> init[i] == data[i];
      ReplacedParaUntouched(p, init);
    }
  }

  /**
   * The emphasis path: a paragraph whose trimmed text is exactly the token of a key in
   * `BoldUnderlineKeys` becomes one bold, underlined, uncoloured run holding the value,
   * with the indent kept. The other keys must not occur in the paragraph, and the later
   * ones not in the value, for the result to be that run and nothing else.
   */
  lemma {:induction false} EmphasisPath(p: Paragraph, data: seq<(string, string)>, i: nat)
    requires i < |data| && data[i].0 in BoldUnderlineKeys && Strip(Text(p.runs)) == Token(data[i].0)
    requires forall j :: 0 <= j < |data| && j != i ==> !Contains(Text(p.runs), Token(data[j].0))
    requires forall j :: i < j < |data| ==> !Contains(data[i].1, Token(data[j].0))
    ensures ReplacedPara(p, data) == Paragraph([Emphasised(data[i].1)], p.leftIndent)
  {
    var n := |data| - 1;
    var init := data[..n];
    assert forall j :: 0 <= j < |init| ==> init[j] == data[j];
    if n == i {
      ReplacedParaUntouched(p, init);
      StripInside(Text(p.runs));
    } else {
      EmphasisPath(p, init, i);
      var e := Paragraph([Emphasised(data[i].1)], p.leftIndent);
      assert [Emphasised(data[i].1)][..0] == [];
      assert Text(e.runs) == data[i].1;
    }
  }

  /** Every occurrence of every token replaced in `s`, the keys taken in order. */
  function ReplaceAllKeys(s: string, data: seq<(string, string)>): string
  {
    if data == [] then s
    else ReplaceAll(ReplaceAllKeys(s, data[..|data| - 1]), Token(data[|data| - 1].0), data[|data| - 1].1)
  }

  /**
   * The formatting-preserving path for a whole `replace_para`: when no key is one of the
   * emphasised keys, the runs, their formatting and the indent are kept, and each run's
   * text has every token replaced, key after key.
   */
  lemma {:induction false} ReplacedParaKeepsRuns(p: Paragraph, data: seq<(string, string)>)
    requires forall i :: 0 <= i < |data| ==> data[i].0 !in BoldUnderlineKeys
    ensures var q := ReplacedPara(p, data);
      && |q.runs| == |p.runs| && q.leftIndent == p.leftIndent
      && forall i :: 0 <= i < |p.runs| ==> q.runs[i] == p.runs[i].(text := ReplaceAllKeys(p.runs[i].text, data))
  {
    if data != [] {
      var init := data[..|data| - 1];
      assert forall i :: 0 <= i < |init| ==> init[i] == data[i];
      ReplacedParaKeepsRuns(p, init);
      ReplaceKeyPerRun(ReplacedPara(p, init), data[|data| - 1].0, data[|data| - 1].1);
    }
  }

  /** The `mapping` of `fix_certified_statements`, in its order. */
  const CertifiedMapping: seq<(string, string)> := [("(1)", "(a)"), ("(2)", "(b)")]

  /** The inner loop of `fix_certified_statements` over the first entries of the mapping. */
  function ApplyMapping(p: Paragraph, text: string, m: seq<(string, string)>): Paragraph
  {
    if m == [] then p
    else
      var q := ApplyMapping(p, text, m[..|m| - 1]);
      var (pat, rep) := m[|m| - 1];
      if StartsWith(text, pat) then Paragraph([PlainRun(ReplaceFirst(text, pat, rep))], Some(HalfInch)) else q
  }

  /** A body paragraph after `fix_certified_statements`. */
  function CertifiedFixed(p: Paragraph): Paragraph
  {
    ApplyMapping(p, Strip(Text(p.runs)), CertifiedMapping)
  }

  lemma FirstMarker(p: Paragraph, text: string)
    ensures ApplyMapping(p, text, CertifiedMapping[..1]) ==
      if StartsWith(text, "(1)") then Paragraph([PlainRun("(a)" + text[3..])], Some(HalfInch)) else p
  {
    var m := CertifiedMapping[..1];
    assert m == [("(1)", "(a)")] && m[..0] == [];
    assert |"(1)"| == 3;
  }

  lemma MarkersExclusive(text: string)
    ensures !(StartsWith(text, "(1)") && StartsWith(text, "(2)"))
  {
    if StartsWith(text, "(1)") {
      assert text[1] == "(1)"[1] == '1';
    }
  }

  /** The mapping applied to an already-stripped `text`. */
  lemma ApplyCertified(p: Paragraph, text: string)
    ensures var q := ApplyMapping(p, text, CertifiedMapping);
      && (StartsWith(text, "(1)") ==> q == Paragraph([PlainRun("(a)" + text[3..])], Some(HalfInch)))
      && (StartsWith(text, "(2)") ==> q == Paragraph([PlainRun("(b)" + text[3..])], Some(HalfInch)))
      && (!StartsWith(text, "(1)") && !StartsWith(text, "(2)") ==> q == p)
  {
    FirstMarker(p, text);
    MarkersExclusive(text);
    assert CertifiedMapping[..|CertifiedMapping| - 1] == CertifiedMapping[..1];
    assert CertifiedMapping[|CertifiedMapping| - 1] == ("(2)", "(b)");
    assert |"(2)"| == 3;
  }

  /**
   * A paragraph whose trimmed text starts `(1)` or `(2)` becomes one plain run with that
   * marker turned into `(a)` or `(b)`, the surrounding spaces dropped, indented half an
   * inch; any other paragraph is left alone.
   */
  lemma CertifiedFixedCases(p: Paragraph)
    ensures var text := Strip(Text(p.runs)); var q := CertifiedFixed(p);
      && (StartsWith(text, "(1)") ==> q == Paragraph([PlainRun("(a)" + text[3..])], Some(HalfInch)))
      && (StartsWith(text, "(2)") ==> q == Paragraph([PlainRun("(b)" + text[3..])], Some(HalfInch)))
      && (!StartsWith(text, "(1)") && !StartsWith(text, "(2)") ==> q == p)
  {
    ApplyCertified(p, Strip(Text(p.runs)));
  }

  lemma OneRunText(t: string)
    ensures Text([PlainRun(t)]) == t
  {
    assert [PlainRun(t)][..0] == [];
  }

  /** The text of a relabelled paragraph is already stripped and starts with no marker. */
  lemma RelabelledSettles(text: string, u: string)
    requires |text| >= 3 && !IsSpace(text[|text| - 1])
    requires u == "(a)" + text[3..] || u == "(b)" + text[3..]
    ensures Strip(Text([PlainRun(u)])) == u
    ensures !StartsWith(u, "(1)") && !StartsWith(u, "(2)")
  {
    OneRunText(u);
    RelabelShape(text, u);
    assert !IsSpace(u[0]) && !IsSpace(u[|u| - 1]);
    StripTrimmed(u);
    NoMarker(u);
  }

  /** A relabelled text starts `(a` or `(b` and ends as `text` does, or with the `)`. */
  lemma RelabelShape(text: string, u: string)
    requires |text| >= 3
    requires u == "(a)" + text[3..] || u == "(b)" + text[3..]
    ensures |u| >= 3 && u[0] == '(' && (u[1] == 'a' || u[1] == 'b')
    ensures u[|u| - 1] == ')' || u[|u| - 1] == text[|text| - 1]
  {
    var rest := text[3..];
    assert |u| == 3 + |rest|;
    if |rest| > 0 {
      assert u[|u| - 1] == rest[|rest| - 1] == text[|text| - 1];
    }
  }

  lemma NoMarker(u: string)
    requires |u| >= 3 && (u[1] == 'a' || u[1] == 'b')
    ensures !StartsWith(u, "(1)") && !StartsWith(u, "(2)")
  {
    assert u[..3][1] == u[1];
  }

  /** Fixing the certified statements twice is the same as fixing them once. */
  lemma CertifiedFixedIdempotent(p: Paragraph)
    ensures CertifiedFixed(CertifiedFixed(p)) == CertifiedFixed(p)
  {
    var text := Strip(Text(p.runs));
    CertifiedFixedCases(p);
    var q := CertifiedFixed(p);
    if StartsWith(text, "(1)") || StartsWith(text, "(2)") {
      RelabelledSettles(text, q.runs[0].text);
      assert q.runs == [PlainRun(q.runs[0].text)];
      CertifiedFixedCases(q);
    }
  }

  /** `qs` is `ps` with `replace_para` applied to each paragraph. */
  predicate CellFilled(qs: seq<Paragraph>, ps: seq<Paragraph>, data: seq<(string, string)>)
  {
    |qs| == |ps| && forall i :: 0 <= i < |ps| ==> qs[i] == ReplacedPara(ps[i], data)
  }

  predicate RowFilled(qs: seq<seq<Paragraph>>, ps: seq<seq<Paragraph>>, data: seq<(string, string)>)
  {
    |qs| == |ps| && forall c :: 0 <= c < |ps| ==> CellFilled(qs[c], ps[c], data)
  }

  predicate TableFilled(qs: Table, ps: Table, data: seq<(string, string)>)
  {
    |qs| == |ps| && forall r :: 0 <= r < |ps| ==> RowFilled(qs[r], ps[r], data)
  }

  /** `for p in c.paragraphs: replace_para(p, data)`. */
  method FillCell(ps: seq<Paragraph>, data: seq<(string, string)>) returns (qs: seq<Paragraph>)
    ensures CellFilled(qs, ps, data)
  {
    qs := [];
    for i := 0 to |ps|
      invariant CellFilled(qs, ps[..i], data)
    {
      var q := ReplacePara(ps[i], data);
      CellFilledStep(qs, ps, i, q, data);
      qs := qs + [q];
    }
    assert ps[..|ps|] == ps;
  }

  /** One more filled paragraph extends a filled prefix of the cell. */
  lemma CellFilledStep(qs: seq<Paragraph>, ps: seq<Paragraph>, i: nat, q: Paragraph, data: seq<(string, string)>)
    requires i < |ps| && CellFilled(qs, ps[..i], data) && q == ReplacedPara(ps[i], data)
    ensures CellFilled(qs + [q], ps[..i + 1], data)
  {
    var qs', ps' := qs + [q], ps[..i + 1];
    forall j | 0 <= j < |ps'| ensures qs'[j] == ReplacedPara(ps'[j], data) {
      if j < i {
        assert qs'[j] == qs[j] && ps'[j] == ps[..i][j];
      }
    }
  }

  /** `for c in r.cells: ...`. */
  method FillRow(cells: seq<seq<Paragraph>>, data: seq<(string, string)>) returns (out: seq<seq<Paragraph>>)
    ensures RowFilled(out, cells, data)
  {
    out := [];
    for c := 0 to |cells|
      invariant RowFilled(out, cells[..c], data)
    {
      var cell := FillCell(cells[c], data);
      out := out + [cell];
    }
    assert cells[..|cells|] == cells;
  }

  /** `for r in t.rows: ...`. */
  method FillTable(rows: Table, data: seq<(string, string)>) returns (out: Table)
    ensures TableFilled(out, rows, data)
  {
    out := [];
    for r := 0 to |rows|
      invariant TableFilled(out, rows[..r], data)
    {
      var row := FillRow(rows[r], data);
      out := out + [row];
    }
    assert rows[..|rows|] == rows;
  }

  /** One turn of the outer loop of `fix_certified_statements`. */
  method FixParagraph(p: Paragraph) returns (q: Paragraph)
    ensures q == CertifiedFixed(p)
  {
    q := p;
    var text := Strip(Text(p.runs));
    for m := 0 to |CertifiedMapping|
      invariant q == ApplyMapping(p, text, CertifiedMapping[..m])
    {
      assert CertifiedMapping[..m + 1][..m] == CertifiedMapping[..m];
      var (pat, rep) := CertifiedMapping[m];
      if StartsWith(text, pat) {
        q := Paragraph([PlainRun(ReplaceFirst(text, pat, rep))], Some(HalfInch));
      }
    }
    assert CertifiedMapping[..|CertifiedMapping|] == CertifiedMapping;
  }

  /** An open document: its body paragraphs and its top-level tables. */
  class Document {
    var body: seq<Paragraph>
    var tables: seq<Table>

    constructor (body: seq<Paragraph>, tables: seq<Table>)
      ensures this.body == body && this.tables == tables
    {
      this.body := body;
      this.tables := tables;
    }

    /** `fix_certified_statements(doc)`: body paragraphs only, tables untouched. */
    method FixCertifiedStatements()
      modifies this
      ensures tables == old(tables)
      ensures |body| == |old(body)|
      ensures forall i :: 0 <= i < |body| ==> body[i] == CertifiedFixed(old(body)[i])
    {
      for i := 0 to |body|
        invariant tables == old(tables) && |body| == |old(body)|
        invariant forall j :: 0 <= j < i ==> body[j] == CertifiedFixed(old(body)[j])
        invariant forall j :: i <= j < |body| ==> body[j] == old(body)[j]
      {
        var p := FixParagraph(body[i]);
        body := body[i := p];
      }
    }

    /**
     * `fill_docx` without the file reads and writes: every body paragraph and every
     * table-cell paragraph gets `replace_para`, then the body gets the certified-statement
     * fix; the table paragraphs are not fixed.
     */
    method FillDocx(data: Dict<string>)
      modifies this
      ensures |body| == |old(body)|
      ensures forall i :: 0 <= i < |body| ==> body[i] == CertifiedFixed(ReplacedPara(old(body)[i], data))
      ensures |tables| == |old(tables)|
      ensures forall t :: 0 <= t < |tables| ==> TableFilled(tables[t], old(tables)[t], data)
    {
      for i := 0 to |body|
        invariant tables == old(tables) && |body| == |old(body)|
        invariant forall j :: 0 <= j < i ==> body[j] == ReplacedPara(old(body)[j], data)
        invariant forall j :: i <= j < |body| ==> body[j] == old(body)[j]
      {
        var q := ReplacePara(body[i], data);
        body := body[i := q];
      }
      ghost var filled := body;
      for t := 0 to |tables|
        invariant body == filled && |tables| == |old(tables)|
        invariant forall u :: 0 <= u < t ==> TableFilled(tables[u], old(tables)[u], data)
        invariant forall u :: t <= u < |tables| ==> tables[u] == old(tables)[u]
      {
        var table := FillTable(tables[t], data);
        tables := tables[t := table];
      }
      FixCertifiedStatements();
    }
  }
}
