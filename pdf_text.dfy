/** `is_pdf_text_based` of `application/utils/utils_functions.py`: a PDF is
    taken to be text-based once the words of its pages, read in order, add
    up to `min_words`. Opening the file and reading a page's text are
    outside the model: the document is the sequence of its page texts. */
module PdfText {
  import opened Text

  const DefaultMinWords: int := 20

  /** The number of words on the pages, `len(text.strip().split())` summed. */
  function TotalWords(pages: seq<string>): nat {
    if pages == [] then 0
    else TotalWords(pages[..|pages| - 1]) + |Words(pages[|pages| - 1])|
  }

  /** Some non-empty prefix of the pages has `minWords` words or more. */
  ghost predicate ReachesThreshold(pages: seq<string>, minWords: int) {
    exists n :: 1 <= n <= |pages| && TotalWords(pages[..n]) >= minWords
  }

  /** The loop with its early return: the verdict, and how many pages were
      read before it was reached. True exactly when a prefix reaches the
      threshold, and then after the first such prefix; otherwise every page
      is read. */
  method IsPdfTextBased(pages: seq<string>, minWords: int) returns (textBased: bool, pagesRead: nat)
    ensures textBased <==> ReachesThreshold(pages, minWords)
    ensures textBased ==>
      && 1 <= pagesRead <= |pages|
      && TotalWords(pages[..pagesRead]) >= minWords
      && forall n :: 1 <= n < pagesRead ==> TotalWords(pages[..n]) < minWords
    ensures !textBased ==> pagesRead == |pages|
  {
    var totalWords := 0;
    var i := 0;
    while i < |pages|
      invariant 0 <= i <= |pages|
      invariant totalWords == TotalWords(pages[..i])
      invariant forall n :: 1 <= n <= i ==> TotalWords(pages[..n]) < minWords
    {
      var words := Words(pages[i]);
      totalWords := totalWords + |words|;
      assert pages[..i + 1][..i] == pages[..i];
      i := i + 1;
      if totalWords >= minWords {
        return true, i;
      }
    }
    return false, |pages|;
  }

  /** Word counts only grow as pages are added. */
  lemma {:induction false} TotalWordsMonotone(pages: seq<string>, m: nat, n: nat)
    requires m <= n <= |pages|
    ensures TotalWords(pages[..m]) <= TotalWords(pages[..n])
    decreases n - m
  {
    if m < n {
      TotalWordsMonotone(pages, m, n - 1);
      assert pages[..n][..n - 1] == pages[..n - 1];
    }
  }

  /** Because word counts only grow, a non-empty document is text-based
      exactly when all its pages together reach the threshold; an empty
      one never is, whatever the threshold. */
  lemma ThresholdOfWholeDocument(pages: seq<string>, minWords: int)
    ensures ReachesThreshold(pages, minWords) <==> |pages| > 0 && TotalWords(pages) >= minWords
  {
    if ReachesThreshold(pages, minWords) {
      var n :| 1 <= n <= |pages| && TotalWords(pages[..n]) >= minWords;
      TotalWordsMonotone(pages, n, |pages|);
      assert pages[..|pages|] == pages;
    }
    if |pages| > 0 && TotalWords(pages) >= minWords {
      assert pages[..|pages|] == pages;
    }
  }

  /** Appending pages never turns a text-based verdict into the opposite. */
  lemma AppendKeepsTextBased(pages: seq<string>, more: seq<string>, minWords: int)
    requires ReachesThreshold(pages, minWords)
    ensures ReachesThreshold(pages + more, minWords)
  {
    var n :| 1 <= n <= |pages| && TotalWords(pages[..n]) >= minWords;
    assert (pages + more)[..n] == pages[..n];
  }

  /** Whatever follows the page where the threshold is reached does not
      change the verdict or how many pages are read. */
  lemma {:induction false} LaterPagesIgnored(pages: seq<string>, more: seq<string>, minWords: int, n: nat)
    requires 1 <= n <= |pages| && TotalWords(pages[..n]) >= minWords
    requires forall m :: 1 <= m < n ==> TotalWords(pages[..m]) < minWords
    ensures forall m :: 1 <= m < n ==> TotalWords((pages + more)[..m]) < minWords
    ensures TotalWords((pages + more)[..n]) >= minWords
  {
    assert forall m :: 0 <= m <= n ==> (pages + more)[..m] == pages[..m];
  }
}
