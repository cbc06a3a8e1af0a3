/** revisionai.py: the first pipeline. It reads a PDF page by page, asks the
    language model three times (summary, flashcards, quiz), cuts a JSON array
    out of the two free-text replies and assembles the four-key result. No
    failure is contained: every exception reaches the caller. */
module RevisionAi {
  import opened Wrappers
  import opened Study

  /** `extract_text_from_pdf` once the reader has produced the pages: each page
      with text contributes that text and a newline, in page order; nothing is
      stripped. */
  method ExtractTextFromPdf(pages: Document) returns (text: string)
    ensures text == PageText(pages)
    ensures text == "" <==> forall k :: 0 <= k < |pages| ==> !HasText(pages[k])
    ensures text != "" ==> text[|text| - 1] == '\n'
  {
    text := "";
    for i := 0 to |pages|
      invariant text == PageText(pages[..i])
    {
      var pageText := pages[i];
      if pageText.Some? && pageText.value != "" {
        text := text + pageText.value + "\n";
      }
      assert pages[..i + 1][..i] == pages[..i];
    }
    assert pages[..|pages|] == pages;
    PageTextEmptyIff(pages);
  }

  /** A match of the pattern `\[.*\]` (with DOTALL, so `.` also matches a
      newline): a `[` at `i` and a `]` at a later `j`, covering `s[i..j + 1]`. */
  predicate IsArrayMatch(s: string, i: int, j: int) {
    0 <= i < j < |s| && s[i] == '[' && s[j] == ']'
  }

  /** Position of the first `c` in `s`, if any. */
  function FirstIndexOf(s: string, c: char): (r: Option<nat>)
    ensures r.Some? ==> r.value < |s| && s[r.value] == c
    ensures forall k :: 0 <= k < |s| && s[k] == c ==> r.Some? && r.value <= k
  {
    if s == [] then None
    else if s[0] == c then Some(0)
    else
      match FirstIndexOf(s[1..], c)
      case None => None
      case Some(k) => Some(k + 1)
  }

  /** Position of the last `c` in `s`, if any. */
  function LastIndexOf(s: string, c: char): (r: Option<nat>)
    ensures r.Some? ==> r.value < |s| && s[r.value] == c
    ensures forall k :: 0 <= k < |s| && s[k] == c ==> r.Some? && k <= r.value
  {
    if s == [] then None
    else if s[|s| - 1] == c then Some(|s| - 1)
    else LastIndexOf(s[..|s| - 1], c)
  }

  /** `clean_json_string`: `re.search(r'(\[.*\])', s, re.DOTALL)`. The search
      takes the leftmost start and, there, the longest match, which is the
      span from the first `[` to the last `]`. With no `[` followed somewhere
      by a `]` it raises `ValueError`. */
  function CleanJsonString(s: string): (r: Result<string, Error>)
    ensures r.Success? <==> exists i, j :: IsArrayMatch(s, i, j)
    ensures r.Failure? ==> r.error == NoJsonArray
    ensures r.Success? ==>
      exists i, j :: IsArrayMatch(s, i, j) && r.value == s[i..j + 1]
        && (forall i', j' :: IsArrayMatch(s, i', j') ==> i <= i' && j' <= j)
        && (forall k :: 0 <= k < i ==> s[k] != '[')
        && (forall k :: j < k < |s| ==> s[k] != ']')
  {
    match (FirstIndexOf(s, '['), LastIndexOf(s, ']'))
    case (Some(i), Some(j)) =>
      if i < j then
        assert IsArrayMatch(s, i, j);
        Success(s[i..j + 1])
      else Failure(NoJsonArray)
    case _ => Failure(NoJsonArray)
  }

  /** A reply that already starts with `[` and ends with `]` is returned whole. */
  lemma CleanJsonStringKeepsBracketed(s: string)
    requires |s| > 0 && s[0] == '[' && s[|s| - 1] == ']'
    ensures CleanJsonString(s) == Success(s)
  {
    assert IsArrayMatch(s, 0, |s| - 1);
    assert s[0..|s|] == s;
  }

  /** Cleaning what was already cleaned changes nothing. */
  lemma CleanJsonStringIdempotent(s: string)
    requires CleanJsonString(s).Success?
    ensures CleanJsonString(CleanJsonString(s).value) == CleanJsonString(s)
  {
    var r := CleanJsonString(s).value;
    CleanJsonStringKeepsBracketed(r);
  }

  /** The match is greedy, not the first balanced array: two arrays in one
      reply come back together with the prose between them, which
      `json.loads` then rejects. */
  lemma CleanJsonStringSpansTwoArrays()
    ensures CleanJsonString("[1] and [2]") == Success("[1] and [2]")
  {
    CleanJsonStringKeepsBracketed("[1] and [2]");
  }

  /** Prose before and after the array is dropped. */
  lemma CleanJsonStringDropsProse()
    ensures CleanJsonString("A: [1] ok") == Success("[1]")
  {
    var s := "A: [1] ok";
    assert IsArrayMatch(s, 3, 5);
    assert s[3..6] == "[1]";
  }

  /** The three prompts of `query_gpt`. */
  datatype Task = SummaryTask | FlashcardTask | QuizTask

  /** The external calls of revisionai.py, each of which may raise: reading
      the PDF at a path, one completion of the language model for a text and
      a task, and `json.loads` of a cleaned reply into flashcards or quiz
      questions. */
  datatype Env = Env(
    readPdf: string -> Result<Document, Error>,
    queryGpt: (string, Task) -> Result<string, Error>,
    parseFlashcards: string -> Result<seq<Flashcard>, Error>,
    parseQuizzes: string -> Result<seq<QuizQuestion>, Error>)

  /** What `build_revision_ai_output` returns, or the exception it raises. */
  function BuildOutput(pdfPath: string, title: string, env: Env): (r: Result<Output, Error>)
    ensures r.Success? ==> r.value.title == title
  {
    var pages :- env.readPdf(pdfPath);
    var text := PageText(pages);
    var summary :- env.queryGpt(text, SummaryTask);
    var flashcardsReply :- env.queryGpt(text, FlashcardTask);
    var flashcardsJson :- CleanJsonString(flashcardsReply);
    var flashcards :- env.parseFlashcards(flashcardsJson);
    var quizzesReply :- env.queryGpt(text, QuizTask);
    var quizzesJson :- CleanJsonString(quizzesReply);
    var quizzes :- env.parseQuizzes(quizzesJson);
    Success(Output(title, summary, flashcards, quizzes))
  }

  /** `build_revision_ai_output(pdf_path, title)`: the extracted text goes to
      the model unchecked, and the first exception ends the call. It follows
      `BuildOutput` step for step; what it adds is that the text comes from
      the page loop of `ExtractTextFromPdf` rather than from `PageText`, and
      its `ensures` is the proof that the two agree. */
  method BuildRevisionAiOutput(pdfPath: string, title: string, env: Env) returns (r: Result<Output, Error>)
    ensures r == BuildOutput(pdfPath, title, env)
  {
    var pages :- env.readPdf(pdfPath);
    var text := ExtractTextFromPdf(pages);
    var summary :- env.queryGpt(text, SummaryTask);
    var flashcardsReply :- env.queryGpt(text, FlashcardTask);
    var flashcardsJson :- CleanJsonString(flashcardsReply);
    var flashcards :- env.parseFlashcards(flashcardsJson);
    var quizzesReply :- env.queryGpt(text, QuizTask);
    var quizzesJson :- CleanJsonString(quizzesReply);
    var quizzes :- env.parseQuizzes(quizzesJson);
    r := Success(Output(title, summary, flashcards, quizzes));
  }

  /** On success the result holds the model's summary reply as it is, and
      flashcards and quizzes parsed from the arrays cut out of their replies. */
  lemma BuildOutputContents(pdfPath: string, title: string, env: Env)
    requires BuildOutput(pdfPath, title, env).Success?
    ensures var text := PageText(env.readPdf(pdfPath).value);
      var o := BuildOutput(pdfPath, title, env).value;
      && env.queryGpt(text, SummaryTask) == Success(o.summary)
      && CleanJsonString(env.queryGpt(text, FlashcardTask).value).Success?
      && env.parseFlashcards(CleanJsonString(env.queryGpt(text, FlashcardTask).value).value) == Success(o.flashcards)
      && CleanJsonString(env.queryGpt(text, QuizTask).value).Success?
      && env.parseQuizzes(CleanJsonString(env.queryGpt(text, QuizTask).value).value) == Success(o.quizzes)
  {
  }

  /** A flashcard reply without a JSON array makes the whole call raise
      `ValueError`: nothing contains it. */
  lemma NoArrayInFlashcardsPropagates(pdfPath: string, title: string, env: Env)
    requires env.readPdf(pdfPath).Success?
    requires var text := PageText(env.readPdf(pdfPath).value);
      && env.queryGpt(text, SummaryTask).Success?
      && env.queryGpt(text, FlashcardTask).Success?
      && CleanJsonString(env.queryGpt(text, FlashcardTask).value).Failure?
    ensures BuildOutput(pdfPath, title, env) == Failure(NoJsonArray)
  {
  }

  /** Likewise for a quiz reply without a JSON array. */
  lemma NoArrayInQuizzesPropagates(pdfPath: string, title: string, env: Env)
    requires env.readPdf(pdfPath).Success?
    requires var text := PageText(env.readPdf(pdfPath).value);
      && env.queryGpt(text, SummaryTask).Success?
      && env.queryGpt(text, FlashcardTask).Success?
      && CleanJsonString(env.queryGpt(text, FlashcardTask).value).Success?
      && env.parseFlashcards(CleanJsonString(env.queryGpt(text, FlashcardTask).value).value).Success?
      && env.queryGpt(text, QuizTask).Success?
      && CleanJsonString(env.queryGpt(text, QuizTask).value).Failure?
    ensures BuildOutput(pdfPath, title, env) == Failure(NoJsonArray)
  {
  }

  /** This version has no empty-text check: a PDF whose pages have no text
      still reaches the model, with the empty string as its input. */
  lemma EmptyTextStillQueried(pdfPath: string, title: string, env: Env)
    requires env.readPdf(pdfPath).Success?
    requires forall k :: 0 <= k < |env.readPdf(pdfPath).value| ==> !HasText(env.readPdf(pdfPath).value[k])
    requires BuildOutput(pdfPath, title, env).Success?
    ensures env.queryGpt("", SummaryTask) == Success(BuildOutput(pdfPath, title, env).value.summary)
  {
    PageTextEmptyIff(env.readPdf(pdfPath).value);
  }
}
