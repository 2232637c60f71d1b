# ECHS claim form filling, modelled in Dafny

The repository fills an ECHS medical-claim form from extracted bill data. It has two
independent pipelines, and each is modelled as its own group of modules.

- `vision_claim_extractor.py` reads the extractor's reply (`extract_json`), then
  normalises the fields (`normalise`, with the money formatters `to_money_2dp` and
  `to_rupees_slash`). It fills a `.docx` template run by run: `replace_para` and
  `fill_docx` put the values in, with the keys of `BOLD_UNDERLINE_KEYS` rendered bold and
  underlined. `fix_certified_statements` then relabels `(1)`/`(2)` as `(a)`/`(b)`.
  Modules: `VisionMoney`, `VisionJson`, `VisionNormalise`, `VisionDocx`.
- `run_claim_word_com.py` drives Word. It first deletes the paragraphs of empty
  medicine slots 3 to 5 (`delete_empty_medicine_paragraphs`, through
  `safe_delete_paragraph`, a deletion Word may refuse). It then builds the `{{KEY}}`
  placeholder map (`build_placeholder_map`, which adds the `, Qty – ` label) and replaces
  the placeholders, longest token first. Modules: `WordDocument`, `WordDeletion`,
  `WordPlaceholders`.

Shared support modules:
- `PyStr` models the Python string operations used: `strip` over Python's whitespace
  set, `str.replace` for all occurrences and for the first, `in`, `find`/`rfind`, and
  decimal digits.
- `PyDict` models an insertion-ordered `dict` with distinct keys. Assigning a new key
  appends it; assigning an existing key overwrites it in place.
- `Placeholder` holds the `{{KEY}}` token.

Numbers are exact decimal digit strings. A python-docx paragraph is a sequence of runs
(text, bold, underline, colour) with a left indent. A Word document is the sequence of
its main-story paragraphs, each with its text and whether Word lets it be deleted.

What the code does, where it might be expected to do more:
- `normalise` only copies `DATE` into an empty `DATE_EXPENDITURE` and does not reformat
  dates (vision_claim_extractor.py:134-135);
- the five amount slots, the two totals, `DATE_EXPENDITURE` and `CURRENT_MONTH_YEAR` are
  the only keys `normalise` writes; no other key is guaranteed to be present afterwards;
- the `, Qty – ` label is added only by the Word script's `build_placeholder_map`
  (run_claim_word_com.py:108-112).

## Model

| member | source | states |
|---|---|---|
| `VisionMoney.FirstNumber` | vision_claim_extractor.py:61 | `re.search(r"\d+(\.\d+)?", s)`: none exactly when the text has no ASCII digit; otherwise, at the first digit (no digit before it), the greedy match: the whole digit run, and a fraction exactly when a dot and a digit follow it, itself the whole digit run after the dot |
| `VisionMoney.NumberAt` | vision_claim_extractor.py:61 | At a text starting with a digit, the match is greedy in the sense above |
| `VisionMoney.GreedyMatchUnique` | vision_claim_extractor.py:61 | The pattern matches in only one way at a given place |
| `VisionMoney.FirstNumberIs` | vision_claim_extractor.py:61 | Any greedy match at a place with no digit before it is what `re.search` returns, so the pattern alone determines the result |
| `VisionMoney.Money2dpValue` | vision_claim_extractor.py:57-62 | On any input, the result is the leftmost greedy match of the text without `₹` and `,`, rounded to two decimals |
| `VisionMoney.RupeesSlashValue` | vision_claim_extractor.py:65-70 | On any input, the result renders the integer part of the leftmost greedy match of the text without `₹`, `/-` and `,` |
| `VisionMoney.ToMoney2dp` | vision_claim_extractor.py:57-62 | `""` exactly when the input is missing, empty or has no digit after removing `₹` and `,`; otherwise digits, a `.` and exactly two digits |
| `VisionMoney.ToRupeesSlash` | vision_claim_extractor.py:65-70 | `""` exactly when the input is missing, empty or has no digit after removing `₹`, `/-` and `,`; otherwise `₹ `, a non-empty digit string and ` /-` |
| `VisionMoney.Money2dpExamples` | vision_claim_extractor.py:57-62 | `"192"` gives `"192.00"`; a missing and an empty input give `""` |
| `VisionMoney.Money2dpOfInteger` | vision_claim_extractor.py:57-62 | An integer numeral renders as its own value with two zero decimals |
| `VisionMoney.RupeesSlashOfDecimal` | vision_claim_extractor.py:65-70 | `w.f` renders as `₹ <value of w> /-`: the fraction is dropped, not rounded |
| `VisionMoney.RupeesSlashPlain` | vision_claim_extractor.py:65-70 | `"1234.50"` gives `"₹ 1234 /-"` |
| `VisionMoney.RupeesSlashDecorated` | vision_claim_extractor.py:68 | `"₹1,234.50"` and `"1234.50/-"` also give `"₹ 1234 /-"` |
| `VisionMoney.RupeesSlashTotalExample` | vision_claim_extractor.py:70 | `"5432.90"` gives `"₹ 5432 /-"`: truncated, not rounded up |
| `VisionMoney.FormatCentsReparses` | vision_claim_extractor.py:60-62 | A two-decimal rendering is read back as the same amount |
| `VisionMoney.Money2dpIdempotent` | vision_claim_extractor.py:57-62 | Applying `to_money_2dp` to its own output returns that output |
| `VisionMoney.RupeesSlashReparses` | vision_claim_extractor.py:68-70 | A `₹ N /-` rendering is read back as `N` |
| `VisionMoney.RupeesSlashIdempotent` | vision_claim_extractor.py:65-70 | Applying `to_rupees_slash` to its own output returns that output |
| `VisionMoney.PrefixedCentsReparses` | vision_claim_extractor.py:141 | A two-decimal rendering behind `₹ ` is read back as the same amount |
| `VisionMoney.SubtotalIdempotent` | vision_claim_extractor.py:141 | Formatting the subtotal text `₹ <to_money_2dp(x)>` again gives back `to_money_2dp(x)`, including `""` |
| `VisionJson.StripFences` | vision_claim_extractor.py:50 | Removing fence lines never lengthens the text, and text without a newline is unchanged |
| `VisionJson.StripFencesNoFence` | vision_claim_extractor.py:50 | Text without a triple backtick is unchanged |
| `VisionJson.OpeningFenceDropped` | vision_claim_extractor.py:50 | A leading `` ```json `` line is removed |
| `VisionJson.FencedReply` | vision_claim_extractor.py:50 | In a fenced reply, the opening fence line goes and the closing fence, having no newline after it, stays |
| `VisionJson.ExtractJson` | vision_claim_extractor.py:49-54 | Fails exactly when the fence-stripped text lacks a `{` or a `}` |
| `VisionJson.FirstBraceToLastBrace` | vision_claim_extractor.py:51-54 | Otherwise the slice runs from the first `{` to the last `}`, both included |
| `VisionJson.BracesReversed` | vision_claim_extractor.py:54 | When the last `}` comes before the first `{`, the slice is empty |
| `VisionNormalise.Normalise` | vision_claim_extractor.py:130-146 | The method, with its `range(1, 6)` loop, computes `Normalised` |
| `VisionNormalise.WithAmountsGet` | vision_claim_extractor.py:143-144 | After the loop up to `n`, `AMT_1..AMT_n` hold `to_money_2dp` of their input and every other field is as before |
| `VisionNormalise.NormalisedFields` | vision_claim_extractor.py:134-144 | `DATE_EXPENDITURE` is `DATE` (or `""`) only if it was empty or missing. `CURRENT_MONTH_YEAR` is the given month. `TOTAL_AMOUNT` is `to_rupees_slash` of the input and `TOTAL_WO_DISCOUNT` is `₹ ` plus `to_money_2dp`. `AMT_1..AMT_5` are all present, each `to_money_2dp` of its input |
| `VisionNormalise.MissingSubtotal` | vision_claim_extractor.py:141 | A missing subtotal becomes `"₹ "`, not `""` |
| `VisionNormalise.NormalisedKeepsOthers` | vision_claim_extractor.py:131 | Every field `normalise` does not assign keeps its input value, or stays missing |
| `VisionNormalise.NormalisedKeepsOrder` | vision_claim_extractor.py:131-146 | Input fields keep their positions; newly assigned fields come after them |
| `VisionNormalise.NormalisedIdempotent` | vision_claim_extractor.py:130-146 | Normalising the output again, with the same month, returns the same dict |
| `VisionDocx.ReplaceInRuns` | vision_claim_extractor.py:162-163 | Same number of runs, each run's formatting kept, and each run's text with every occurrence of the token replaced |
| `VisionDocx.ReplaceRunTexts` | vision_claim_extractor.py:162-163 | The run loop computes `ReplaceInRuns` |
| `VisionDocx.ReplacePara` | vision_claim_extractor.py:149-163 | The loop over `data.items()`, in order, computes `ReplacedPara` |
| `VisionDocx.ReplaceKeyPerRun` | vision_claim_extractor.py:151-163 | Except on the emphasis path, one key's step is the per-run replacement with run count, formatting and indent kept. Skipping a paragraph without the token is the same as replacing in it |
| `VisionDocx.ReplaceInRunsText` | vision_claim_extractor.py:161-163 | When no token spans two runs, replacing run by run equals replacing in the whole paragraph text |
| `VisionDocx.ReplaceKeyText` | vision_claim_extractor.py:161-163 | Outside the emphasis path, with the token not split across runs, the paragraph text gets the token replaced |
| `VisionDocx.ReplacedParaUntouched` | vision_claim_extractor.py:150-153 | A paragraph containing none of the tokens is returned untouched |
| `VisionDocx.EmphasisPath` | vision_claim_extractor.py:155-160 | A paragraph whose trimmed text is exactly the token of a key in `BOLD_UNDERLINE_KEYS` (lines 35-41) becomes one run holding the value: bold, underlined, colour cleared, indent kept |
| `VisionDocx.ReplacedParaKeepsRuns` | vision_claim_extractor.py:149-163 | With no emphasised key in the data, `replace_para` keeps the runs' number, formatting and indent, and each run's text has every token replaced, key after key |
| `VisionDocx.CertifiedFixedCases` | vision_claim_extractor.py:167-178 | A paragraph whose trimmed text starts `(1)` or `(2)` becomes one plain run starting `(a)`/`(b)`, indented by `Inches(0.5)` (457200 EMU). Any other paragraph is untouched |
| `VisionDocx.CertifiedFixedIdempotent` | vision_claim_extractor.py:167-178 | Fixing the certified statements twice equals fixing them once |
| `VisionDocx.FixParagraph` | vision_claim_extractor.py:173-178 | The loop over the mapping computes `CertifiedFixed` for one paragraph |
| `VisionDocx.FillCell` | vision_claim_extractor.py:191-192 | Every paragraph of the cell gets `replace_para` |
| `VisionDocx.FillRow` | vision_claim_extractor.py:190-192 | Every cell of the row is filled |
| `VisionDocx.FillTable` | vision_claim_extractor.py:189-192 | Every row of the table is filled |
| `VisionDocx.Document.FixCertifiedStatements` | vision_claim_extractor.py:167-178 | Each body paragraph is replaced by its fixed form; tables are untouched |
| `VisionDocx.Document.FillDocx` | vision_claim_extractor.py:182-195 | Every body paragraph gets `replace_para` and then the certified-statement fix. Every table-cell paragraph gets `replace_para` only. Shapes are kept |
| `Placeholder.TokenInjective` | run_claim_word_com.py:114 | Different keys have different `{{KEY}}` tokens |
| `WordDocument.ReplacedTexts` | run_claim_word_com.py:16-33 | Replace-all keeps every paragraph and its editability, and replaces every occurrence in its text |
| `WordDocument.ReplacedTextsAbsent` | run_claim_word_com.py:16-33 | Paragraphs without the search text are unchanged |
| `WordDocument.Document.SafeDeleteParagraph` | run_claim_word_com.py:48-57 | Returns whether the paragraph was deletable. On success exactly that paragraph is gone; on refusal nothing changes |
| `WordDocument.Document.FindReplace` | run_claim_word_com.py:16-33 | The main story becomes `ReplacedTexts` of the old one |
| `WordDeletion.BlankIsEmptyStrip` | run_claim_word_com.py:68 | A field counts as blank exactly when `(values.get(k) or "").strip()` is empty |
| `WordDeletion.CollectEmptyTokens` | run_claim_word_com.py:68-81 | The two accumulation loops compute `EmptyTokens` |
| `WordDeletion.EmptyTokensMembers` | run_claim_word_com.py:68-81 | A token is collected exactly when some slot 3, 4 or 5 has a blank `MED_n` and the token is one of its four, or has a blank `AMT_n` and the token is `{{AMT_n}}` |
| `WordDeletion.NoLowSlotTokens` | run_claim_word_com.py:68-81 | No token of slot 1 or 2 is ever collected |
| `WordDeletion.AnyIn` | run_claim_word_com.py:89 | True exactly when some collected token occurs in the text |
| `WordDeletion.DeleteEmptyMedicineParagraphs` | run_claim_word_com.py:60-90 | With no tokens the document is unchanged. Otherwise the result is `Survivors` of the old paragraphs: a paragraph is removed exactly when it holds a token and Word lets it go. The loop goes on past refusals |
| `WordDeletion.SurvivorsUntouched` | run_claim_word_com.py:83-90 | If no paragraph holds a token, nothing is deleted |
| `WordDeletion.SurvivorsConcat` | run_claim_word_com.py:87-90 | Deletion is decided paragraph by paragraph: the survivors of two stretches of paragraphs are each stretch's survivors, in order |
| `WordDeletion.SurvivorsMembers` | run_claim_word_com.py:87-90 | A paragraph survives exactly when it holds no token or its deletion was refused |
| `WordPlaceholders.PlaceholderValueCases` | run_claim_word_com.py:103-112 | A `QTY_MED_<digits>` key gets `, Qty – ` plus its stripped value, or `""` when blank. Any other key keeps its value, with `null` as `""` |
| `WordPlaceholders.BuildPlaceholderMap` | run_claim_word_com.py:93-116 | The loop computes `PlaceholderMap` |
| `WordPlaceholders.AssignEachDistinct` | run_claim_word_com.py:114 | Assigning entries with distinct keys into an empty dict keeps them all, in order |
| `WordPlaceholders.PlaceholderMapEntries` | run_claim_word_com.py:101-116 | Exactly one entry per input key, in input order: `{{k}}` and the value placed for it |
| `WordPlaceholders.PlaceholderMapGet` | run_claim_word_com.py:114 | Looking up `{{k}}` gives the placed value of `k`, and nothing when `k` is not an input key |
| `WordPlaceholders.LongestFirstProperties` | run_claim_word_com.py:152 | The order has non-increasing token length and the same tokens as the map's keys. Tokens of equal length stay in map order, as Python's stable sort keeps them |
| `WordPlaceholders.OrderVisitsEachEntryOnce` | run_claim_word_com.py:152-153 | Each map key occurs exactly once in the order, and nothing else occurs |
| `WordPlaceholders.OrderHoldsKeys` | run_claim_word_com.py:153 | `placeholder_map[ph]` never fails for a token of the order |
| `WordPlaceholders.ApplyAllPerParagraph` | run_claim_word_com.py:152-153 | Replacement keeps every paragraph and its editability; each text gets all the replacements in order |
| `WordPlaceholders.ApplyPlaceholders` | run_claim_word_com.py:152-153 | The loop applies Find/Replace once per token, in the longest-first order |
| `WordPlaceholders.FillTemplate` | run_claim_word_com.py:145-153 | Deletion, then the map, then the replacements, in that order, on the surviving paragraphs |

## Left out

- The OpenAI request and image encoding (`extract_with_gpt5`, `b64`): network and foreign code.
- `json.loads`/`json.dumps`: `VisionJson.ExtractJson` returns the slice the parser would get. An empty slice is one the parser would reject.
- File reads and writes, `sys.argv`/`argparse`, `mkdir`, `Document(template)`, `doc.save`, and `main` of both scripts beyond the three filling steps.
- `datetime.now().strftime("%b %Y")`: the month text is a parameter of `VisionNormalise.Normalise`.
- Values other than strings (JSON numbers or booleans) are not modelled. `str(x)` and `not x` on them are left out.
- The vision pipeline models string values only: `VisionNormalise.Normalise` and `VisionDocx.ReplacePara` take a `Dict<string>`, which cannot hold a JSON `null`. In the source, a `null` `DATE` with an empty `DATE_EXPENDITURE` sets `DATE_EXPENDITURE` to `None` (vision_claim_extractor.py:135). On the emphasis path, `add_run(None)` gives an empty run (line 157). On the per-run path, a `None` value whose token is in a run makes `r.text.replace(ph, None)` raise `TypeError` (line 163). The Word script's `None` values are modelled (`WordPlaceholders.PlaceholderValueCases`, `WordDeletion.BlankIsEmptyStrip`).
- `VisionMoney.ToMoney2dp`: rounds the exact decimal half up; Python rounds the binary float, so e.g. `"1.005"` gives `"1.00"` in Python. The two agree whenever the match has at most two decimals. Long numerals that lose float precision are not modelled.
- `VisionMoney.ToRupeesSlash`: `int(float(...))` is modelled as the exact integer part; float precision on very long numerals is not modelled.
- `\d` is modelled as ASCII `0`-`9`; Python also matches other Unicode decimal digits.
- python-docx objects are updated in place in the source; the model computes new paragraph values and stores them in the `Document`'s fields. Aliasing is not modelled: a merged cell that python-docx yields several times in `r.cells` is filled once per occurrence in the model too, but as independent copies.
- Tables nested in cells, hyperlink runs, and run properties other than bold, underline and colour are not modelled.
- A token split across runs is found by `p.text` but not by the per-run replace, so the source leaves it unreplaced. The model behaves the same; `VisionDocx.ReplaceKeyText` states the text equality only for unsplit tokens.
- `VisionDocx.ReplacedParaKeepsRuns`: stated only for data without emphasised keys. For those keys, whether the emphasis path fires depends on the text earlier keys leave; `VisionDocx.ReplaceKeyPerRun` states the per-key step.
- `VisionDocx.EmphasisPath`: stated when no other key's token is in the paragraph, and no later key's token is in the value.
- All win32com automation: `Dispatch`, `Documents.Open`, `SaveAs`, `ExportAsFixedFormat`, `Close`, `Quit`.
- `iter_main_story_paragraphs` (`StoryRanges`/`NextStoryRange`): the main story is the given paragraph sequence. Headers, footers and shapes are outside the model.
- `WordDocument.Document.FindReplace`: a case-sensitive literal replace-all over every main-story paragraph. Word searches with `MatchCase=False` (run_claim_word_com.py:23), so differently-cased tokens would also be replaced. Word's `^` codes in the replacement text, its length limit on Find/Replace text, and protection on replace are not modelled.
- `WordDocument.Document.SafeDeleteParagraph`: whether Word refuses depends only on the paragraph's `editable` flag. Other causes of `com_error` are not modelled. On success the model always removes the paragraph. Word's `Range.Delete` cannot remove a story's last paragraph mark or a table cell's end marker: there it empties the text and leaves a paragraph behind, which the model does not capture.
- The paragraph mark at the end of `Range.Text` is not part of a paragraph's text. No token contains it.
