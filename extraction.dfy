/** How `extrairTextoPDF` assembles the text of a document from the text items
    of its pages, and the prefix of it the click handler submits. The pages
    are those the PDF library reports, in order; each page is the sequence of
    its items' strings. */
module Extraction {
  import opened Text

  /** The number of characters submitted for analysis. */
  const MaxSubmittedChars: nat := 30000

  /** One page's contribution: its items joined by single spaces, then a
      newline. */
  function PageText(items: seq<string>): string
  {
    Join(items, " ") + "\n"
  }

  /** The text of pages 1..n: the text of pages 1..n-1 followed by that of
      page n. */
  function ExtractedText(pages: seq<seq<string>>): string
  {
    if pages == [] then ""
    else ExtractedText(pages[..|pages| - 1]) + PageText(pages[|pages| - 1])
  }

  /** The page loop of `extrairTextoPDF`: `textoCompleto` starts empty and
      each page's text is appended in page order. */
  method ExtractText(pages: seq<seq<string>>) returns (text: string)
    ensures text == ExtractedText(pages)
  {
    text := "";
    for i := 0 to |pages|
      invariant text == ExtractedText(pages[..i])
    {
      assert pages[..i + 1][..i] == pages[..i];
      text := text + PageText(pages[i]);
    }
    assert pages[..|pages|] == pages;
  }

  /** Extraction is compositional: the text of a document is the text of its
      first pages followed by the text of the rest. */
  lemma {:induction false} ExtractedTextAppend(p: seq<seq<string>>, q: seq<seq<string>>)
    ensures ExtractedText(p + q) == ExtractedText(p) + ExtractedText(q)
  {
    if q == [] {
      assert p + q == p;
    } else {
      var q' := q[..|q| - 1];
      assert (p + q)[..|p + q| - 1] == p + q';
      assert (p + q)[|p + q| - 1] == q[|q| - 1];
      ExtractedTextAppend(p, q');
    }
  }

  /** A single page contributes exactly its page text. */
  lemma SinglePage(items: seq<string>)
    ensures ExtractedText([items]) == Join(items, " ") + "\n"
  {
    assert [items][..0] == [];
  }

  /** When no item holds a newline, the text holds exactly one newline per
      page. */
  lemma {:induction false} OneNewlinePerPage(pages: seq<seq<string>>)
    requires forall p, i :: 0 <= p < |pages| && 0 <= i < |pages[p]| ==> '\n' !in pages[p][i]
    ensures Count('\n', ExtractedText(pages)) == |pages|
  {
    if pages != [] {
      var init := pages[..|pages| - 1];
      var last := pages[|pages| - 1];
      OneNewlinePerPage(init);
      JoinAvoids('\n', last, " ");
      CountAbsent('\n', Join(last, " "));
      CountAppend('\n', Join(last, " "), "\n");
      CountAppend('\n', ExtractedText(init), PageText(last));
    }
  }

  /** A non-empty document's text ends with the newline of its last page. */
  lemma EndsWithNewline(pages: seq<seq<string>>)
    requires pages != []
    ensures |ExtractedText(pages)| > 0 && ExtractedText(pages)[|ExtractedText(pages)| - 1] == '\n'
  {
  }

  /** Two pages `["A", "B"]` and `["C"]` give `"A B\nC\n"`. */
  lemma TwoPageExample()
    ensures ExtractedText([["A", "B"], ["C"]]) == "A B\nC\n"
  {
    ExtractedTextAppend([["A", "B"]], [["C"]]);
    assert [["A", "B"]] + [["C"]] == [["A", "B"], ["C"]];
    SinglePage(["A", "B"]);
    SinglePage(["C"]);
  }

  /** `text.slice(0, 30000)`: the prefix of the text of length
      min(|text|, 30000). */
  function Truncate(text: string): (r: string)
    ensures |r| == Min(|text|, MaxSubmittedChars)
    ensures r == text[..|r|]
  {
    if |text| <= MaxSubmittedChars then text else text[..MaxSubmittedChars]
  }

  /** A text that is no longer than the limit is submitted whole. */
  lemma TruncateShort(text: string)
    requires |text| <= MaxSubmittedChars
    ensures Truncate(text) == text
  {
  }
}
