/**
 * The part of a Word document the automation script touches: the paragraphs of the main
 * text story, in order. Each paragraph carries its text and whether Word lets the script
 * delete its range; a protected or otherwise non-editable range refuses.
 */
module WordDocument {
  import opened PyStr

  datatype WordParagraph = WordParagraph(text: string, editable: bool)

  /** Every paragraph's text with each occurrence of `find` replaced by `rep`. */
  function ReplacedTexts(ps: seq<WordParagraph>, find: string, rep: string): (r: seq<WordParagraph>)
    ensures |r| == |ps|
    ensures forall i :: 0 <= i < |ps| ==> r[i] == ps[i].(text := ReplaceAll(ps[i].text, find, rep))
  {
    if ps == [] then []
    else ReplacedTexts(ps[..|ps| - 1], find, rep) + [ps[|ps| - 1].(text := ReplaceAll(ps[|ps| - 1].text, find, rep))]
  }

  /** A paragraph without the search text is not changed by a replace-all. */
  lemma ReplacedTextsAbsent(ps: seq<WordParagraph>, find: string, rep: string)
    requires forall i :: 0 <= i < |ps| ==> !Contains(ps[i].text, find)
    ensures ReplacedTexts(ps, find, rep) == ps
  {
    forall i | 0 <= i < |ps| ensures ReplaceAll(ps[i].text, find, rep) == ps[i].text {
      ReplaceAllAbsent(ps[i].text, find, rep);
    }
  }

  class Document {
    /** The main story's paragraphs, what `iter_main_story_paragraphs` yields. */
    var paragraphs: seq<WordParagraph>

    constructor (paragraphs: seq<WordParagraph>)
      ensures this.paragraphs == paragraphs
    {
      this.paragraphs := paragraphs;
    }

    /**
     * `safe_delete_paragraph`: deleting the paragraph at `j` either succeeds and removes
     * exactly that paragraph, or Word refuses and nothing changes.
     */
    method SafeDeleteParagraph(j: nat) returns (deleted: bool)
      requires j < |paragraphs|
      modifies this
      ensures deleted == old(paragraphs[j].editable)
      ensures deleted ==> paragraphs == old(paragraphs[..j] + paragraphs[j + 1..])
      ensures !deleted ==> paragraphs == old(paragraphs)
    {
      if paragraphs[j].editable {
        paragraphs := paragraphs[..j] + paragraphs[j + 1..];
        deleted := true;
      } else {
        deleted := false;
      }
    }

    /** `word_find_replace`: a literal replace-all over the main story. */
    method FindReplace(find: string, rep: string)
      modifies this
      ensures paragraphs == ReplacedTexts(old(paragraphs), find, rep)
    {
      paragraphs := ReplacedTexts(paragraphs, find, rep);
    }
  }
}
