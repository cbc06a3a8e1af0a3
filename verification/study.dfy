/** The values that flow between the pipeline's stages: a PDF as the text of
    its pages, the study materials the language model returns, the four-key
    result handed to the UI, and the exceptions that can end a stage. */
module Study {
  import opened Wrappers
  import opened Text

  /** A PDF as its reader sees it: for each page in order, what
      `page.extract_text()` gave (`None` when the page has no text layer). */
  type Document = seq<Option<string>>

  /** `if page_text:` — a page counts when it has a non-empty text. */
  predicate HasText(page: Option<string>) {
    page.Some? && page.value != ""
  }

  /** What one page adds to the running text: its text and a newline, or
      nothing for a page without text. */
  function PageContribution(page: Option<string>): string {
    if HasText(page) then page.value + "\n" else ""
  }

  /** The text accumulated by the page loop of `extract_text_from_pdf`, before
      any stripping: the contributions of the pages, in page order. Text
      gathered from any page ends with the newline that page added. */
  function PageText(pages: Document): (r: string)
    ensures r == "" || r[|r| - 1] == '\n'
  {
    if pages == [] then ""
    else PageText(pages[..|pages| - 1]) + PageContribution(pages[|pages| - 1])
  }

  /** The text of two runs of pages is the text of the first followed by the
      text of the second: every page contributes on its own, in order. */
  lemma {:induction false} PageTextAppend(a: Document, b: Document)
    ensures PageText(a + b) == PageText(a) + PageText(b)
    decreases |b|
  {
    if b == [] {
      assert a + b == a;
    } else {
      var init, last := b[..|b| - 1], b[|b| - 1];
      LastSplit(a, b);
      PageTextAppend(a, init);
      var x, y, z := PageText(a), PageText(init), PageContribution(last);
      assert PageText(a + b) == (x + y) + z;
      assert PageText(b) == y + z;
      AppendAssoc(x, y, z);
    }
  }

  /** The text is empty exactly when no page has text. */
  lemma {:induction false} PageTextEmptyIff(pages: Document)
    ensures PageText(pages) == "" <==> forall k :: 0 <= k < |pages| ==> !HasText(pages[k])
    decreases |pages|
  {
    if pages != [] {
      var init := pages[..|pages| - 1];
      PageTextEmptyIff(init);
      assert forall k :: 0 <= k < |init| ==> init[k] == pages[k];
    }
  }

  /** A page with only whitespace, or with no text at all. */
  predicate BlankPage(page: Option<string>) {
    page.None? || AllSpace(page.value)
  }

  /** The gathered text is whitespace only exactly when every page is blank. */
  lemma {:induction false} PageTextBlankIff(pages: Document)
    ensures AllSpace(PageText(pages)) <==> forall k :: 0 <= k < |pages| ==> BlankPage(pages[k])
    decreases |pages|
  {
    if pages != [] {
      var init, last := pages[..|pages| - 1], pages[|pages| - 1];
      PageTextBlankIff(init);
      AllSpaceConcat(PageText(init), PageContribution(last));
      if HasText(last) {
        AllSpaceConcat(last.value, "\n");
      }
      assert forall k :: 0 <= k < |init| ==> init[k] == pages[k];
    }
  }

  datatype Flashcard = Flashcard(question: string, answer: string)

  /** A multiple-choice question; `answer` is meant to be one of `options`,
      but nothing enforces it. */
  datatype QuizQuestion = QuizQuestion(question: string, options: seq<string>, answer: string)

  /** The dictionary `build_revision_ai_output` returns: exactly the keys
      title, summary, flashcards and quizzes. */
  datatype Output = Output(title: string, summary: string, flashcards: seq<Flashcard>, quizzes: seq<QuizQuestion>)

  /** The exceptions the pipeline can raise: the `ValueError` of a reply with
      no JSON array in it, and any exception out of an external call (PDF
      reader, HTTP, URL joining, language model, `json.loads`). The
      `ValueError` of an input with no text never leaves the second
      version's `try`, which turns it into the fallback result. */
  datatype Error = NoJsonArray | External(reason: string)
}
