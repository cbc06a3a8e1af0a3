/** revisionai2.py: the second pipeline. The input is a local PDF, a direct
    PDF link or a course web page; its text goes to the language model once,
    with a JSON schema; the reply is wrapped, with defaults, into the four-key
    result; and any exception on the way turns into a fixed fallback result. */
module RevisionAi2 {
  import opened Wrappers
  import opened Text
  import opened Study
  import SummaryJson

  /** `extract_text_from_pdf` of this version: the page text of the first
      version, stripped. */
  function PdfText(pages: Document): string {
    Strip(PageText(pages))
  }

  /** `extract_text_from_pdf` once the reader has produced the pages: each page
      with text contributes it and a newline, in page order, and the whole is
      stripped. */
  method ExtractTextFromPdf(pages: Document) returns (text: string)
    ensures text == PdfText(pages)
    ensures text == "" <==> forall k :: 0 <= k < |pages| ==> BlankPage(pages[k])
    ensures Trimmed(text)
  {
    var acc := "";
    for i := 0 to |pages|
      invariant acc == PageText(pages[..i])
    {
      var pageText := pages[i];
      if pageText.Some? && pageText.value != "" {
        acc := acc + pageText.value + "\n";
      }
      assert pages[..i + 1][..i] == pages[..i];
    }
    assert pages[..|pages|] == pages;
    PageTextBlankIff(pages);
    text := Strip(acc);
    StripEnds(acc);
    StripEmptyIff(acc);
  }

  /** A scraped `p`, `li`, `h1`, `h2` or `h3` element, given by the text nodes
      under it in document order. */
  type Tag = seq<string>

  /** The text nodes of a tag that are not blank, each stripped. */
  function NonBlank(fragments: seq<string>): (r: seq<string>)
    ensures |r| <= |fragments|
    ensures forall k :: 0 <= k < |r| ==> r[k] != ""
  {
    if fragments == [] then []
    else
      var rest := NonBlank(fragments[1..]);
      var s := Strip(fragments[0]);
      if s == "" then rest else [s] + rest
  }

  /** No text node survives exactly when every one of them is whitespace. */
  lemma {:induction false} NonBlankEmptyIff(fragments: seq<string>)
    ensures NonBlank(fragments) == [] <==> forall k :: 0 <= k < |fragments| ==> AllSpace(fragments[k])
    decreases |fragments|
  {
    if fragments != [] {
      var rest := fragments[1..];
      NonBlankEmptyIff(rest);
      StripEmptyIff(fragments[0]);
      assert forall k :: 0 <= k < |rest| ==> rest[k] == fragments[k + 1];
    }
  }

  /** `tag.get_text(separator=sep, strip=True)`. */
  function GetText(tag: Tag, sep: string): string {
    Join(sep, NonBlank(tag))
  }

  /** The test `tag.get_text(strip=True)` and the text that is then appended,
      `tag.get_text(separator=" ", strip=True)`, are empty together: exactly
      when every text node of the tag is whitespace. */
  lemma GetTextEmptyIff(tag: Tag)
    ensures GetText(tag, "") == "" <==> forall k :: 0 <= k < |tag| ==> AllSpace(tag[k])
    ensures GetText(tag, " ") == "" <==> forall k :: 0 <= k < |tag| ==> AllSpace(tag[k])
  {
    NonBlankEmptyIff(tag);
  }

  /** What one tag adds to the page text. */
  function TagContribution(tag: Tag): string {
    if GetText(tag, "") != "" then GetText(tag, " ") + "\n" else ""
  }

  /** The text of the readable tags, in document order. */
  function TagsText(tags: seq<Tag>): string {
    Concat(MapParts(TagContribution, tags))
  }

  lemma TagsTextAppend(a: seq<Tag>, b: seq<Tag>)
    ensures TagsText(a + b) == TagsText(a) + TagsText(b)
  {
    MapPartsAppend(TagContribution, a, b);
    ConcatAppend(MapParts(TagContribution, a), MapParts(TagContribution, b));
  }

  lemma TagsTextSingle(tag: Tag)
    ensures TagsText([tag]) == TagContribution(tag)
  {
    assert MapParts(TagContribution, [tag]) == [TagContribution(tag)];
    ConcatSingle(TagContribution(tag));
  }

  /** A tag with only whitespace in it adds nothing: removing it from the page
      leaves the text as it was. */
  lemma BlankTagSkipped(before: seq<Tag>, tag: Tag, after: seq<Tag>)
    requires forall k :: 0 <= k < |tag| ==> AllSpace(tag[k])
    ensures TagsText(before + [tag] + after) == TagsText(before + after)
  {
    calc {
      TagsText(before + [tag] + after);
      { TagsTextAppend(before + [tag], after); }
      TagsText(before + [tag]) + TagsText(after);
      { TagsTextAppend(before, [tag]); TagsTextSingle(tag); GetTextEmptyIff(tag); }
      TagsText(before) + TagsText(after);
      { TagsTextAppend(before, after); }
      TagsText(before + after);
    }
  }

  /** A tag with text adds that text, its nodes joined by spaces, and a
      newline. */
  lemma TagWithTextAppended(before: seq<Tag>, tag: Tag)
    requires exists k :: 0 <= k < |tag| && !AllSpace(tag[k])
    ensures TagsText(before + [tag]) == TagsText(before) + GetText(tag, " ") + "\n"
  {
    calc {
      TagsText(before + [tag]);
      { TagsTextAppend(before, [tag]); }
      TagsText(before) + TagsText([tag]);
      { TagsTextSingle(tag); GetTextEmptyIff(tag); }
      TagsText(before) + GetText(tag, " ") + "\n";
    }
  }

  /** `[a['href'] for a in soup.find_all('a', href=True) if a['href'].endswith('.pdf')]`:
      the links whose target ends in `.pdf`, with that exact case, in anchor order. */
  function PdfLinks(hrefs: seq<string>): (r: seq<string>)
    ensures |r| <= |hrefs|
    ensures forall x :: x in r <==> x in hrefs && EndsWith(x, ".pdf")
  {
    if hrefs == [] then []
    else
      var rest := PdfLinks(hrefs[1..]);
      assert forall x :: x in hrefs <==> x == hrefs[0] || x in hrefs[1..];
      if EndsWith(hrefs[0], ".pdf") then [hrefs[0]] + rest else rest
  }

  /** The filter keeps the links' order: the links of two runs of anchors are
      the links of the first run followed by those of the second. */
  lemma {:induction false} PdfLinksAppend(a: seq<string>, b: seq<string>)
    ensures PdfLinks(a + b) == PdfLinks(a) + PdfLinks(b)
    decreases |a|
  {
    if a == [] {
      assert a + b == b;
    } else {
      assert (a + b)[0] == a[0] && (a + b)[1..] == a[1..] + b;
      PdfLinksAppend(a[1..], b);
    }
  }

  /** `[urljoin(ocw_url, link) for link in pdf_links]`: every link is
      resolved, in order, and the first `urljoin` that raises ends the
      comprehension with its exception. */
  function ResolveAll(base: string, links: seq<string>, urlJoin: (string, string) -> Result<string, Error>): (r: Result<seq<string>, Error>)
    ensures r.Success? ==> |r.value| == |links|
  {
    if links == [] then Success([])
    else
      var first :- urlJoin(base, links[0]);
      var rest :- ResolveAll(base, links[1..], urlJoin);
      Success([first] + rest)
  }

  /** The comprehension succeeds exactly when every link resolves, and then
      holds the resolved links one for one, in order. */
  lemma {:induction false} ResolveAllSucceeds(base: string, links: seq<string>, urlJoin: (string, string) -> Result<string, Error>)
    ensures ResolveAll(base, links, urlJoin).Success? <==> forall k :: 0 <= k < |links| ==> urlJoin(base, links[k]).Success?
    ensures ResolveAll(base, links, urlJoin).Success? ==>
      forall k :: 0 <= k < |links| ==> ResolveAll(base, links, urlJoin).value[k] == urlJoin(base, links[k]).value
  {
    if links != [] {
      ResolveAllSucceeds(base, links[1..], urlJoin);
      assert forall k :: 1 <= k < |links| ==> links[k] == links[1..][k - 1];
    }
  }

  /** A link that fails to resolve, with every link before it resolving,
      makes the whole comprehension raise its exception. */
  lemma {:induction false} ResolveAllFirstError(base: string, links: seq<string>, urlJoin: (string, string) -> Result<string, Error>, k: nat)
    requires k < |links| && urlJoin(base, links[k]).Failure?
    requires forall j :: 0 <= j < k ==> urlJoin(base, links[j]).Success?
    ensures ResolveAll(base, links, urlJoin) == Failure(urlJoin(base, links[k]).error)
    decreases k
  {
    if k > 0 {
      assert urlJoin(base, links[0]).Success?;
      assert forall j :: 0 <= j < k - 1 ==> links[1..][j] == links[j + 1];
      ResolveAllFirstError(base, links[1..], urlJoin, k - 1);
    }
  }

  /** `full_pdfs[:3]`: at most three links, the first ones. */
  function FirstThree(urls: seq<string>): (r: seq<string>)
    ensures |r| <= 3 && r <= urls
    ensures |r| == if |urls| < 3 then |urls| else 3
  {
    if |urls| <= 3 then urls else urls[..3]
  }

  /** What one linked PDF adds: a newline and its stripped text when the
      download and the reading succeed; nothing when they raise (the
      exception is printed and the loop goes on). */
  function LinkContribution(url: string, fetchPdf: string -> Result<Document, Error>): string {
    match fetchPdf(url)
    case Success(pages) => "\n" + PdfText(pages)
    case Failure(_) => ""
  }

  /** `LinkContribution` for a fixed way of fetching. */
  function LinkStep(fetchPdf: string -> Result<Document, Error>): string -> string {
    url => LinkContribution(url, fetchPdf)
  }

  /** The text of the attempted links, in link order. */
  function LinkedText(urls: seq<string>, fetchPdf: string -> Result<Document, Error>): string {
    Concat(MapParts(LinkStep(fetchPdf), urls))
  }

  lemma LinkedTextAppend(a: seq<string>, b: seq<string>, fetchPdf: string -> Result<Document, Error>)
    ensures LinkedText(a + b, fetchPdf) == LinkedText(a, fetchPdf) + LinkedText(b, fetchPdf)
  {
    MapPartsAppend(LinkStep(fetchPdf), a, b);
    ConcatAppend(MapParts(LinkStep(fetchPdf), a), MapParts(LinkStep(fetchPdf), b));
  }

  lemma LinkedTextSingle(url: string, fetchPdf: string -> Result<Document, Error>)
    ensures LinkedText([url], fetchPdf) == LinkContribution(url, fetchPdf)
  {
    assert MapParts(LinkStep(fetchPdf), [url]) == [LinkContribution(url, fetchPdf)];
    ConcatSingle(LinkContribution(url, fetchPdf));
  }

  /** A link whose download or reading raises is skipped and the links after
      it are still read: the text is that of the other links. */
  lemma FailedLinkSkipped(urls: seq<string>, k: nat, fetchPdf: string -> Result<Document, Error>)
    requires k < |urls| && fetchPdf(urls[k]).Failure?
    ensures LinkedText(urls, fetchPdf) == LinkedText(urls[..k] + urls[k + 1..], fetchPdf)
  {
    var before, after := urls[..k], urls[k + 1..];
    calc {
      LinkedText(urls, fetchPdf);
      { assert urls == before + [urls[k]] + after; }
      LinkedText(before + [urls[k]] + after, fetchPdf);
      { LinkedTextAppend(before + [urls[k]], after, fetchPdf); }
      LinkedText(before + [urls[k]], fetchPdf) + LinkedText(after, fetchPdf);
      { LinkedTextAppend(before, [urls[k]], fetchPdf); LinkedTextSingle(urls[k], fetchPdf); }
      LinkedText(before, fetchPdf) + LinkedText(after, fetchPdf);
      { LinkedTextAppend(before, after, fetchPdf); }
      LinkedText(before + after, fetchPdf);
    }
  }

  /** A link that can be read adds a newline and its stripped text. */
  lemma ReadLinkAppended(before: seq<string>, url: string, fetchPdf: string -> Result<Document, Error>)
    requires fetchPdf(url).Success?
    ensures LinkedText(before + [url], fetchPdf) == LinkedText(before, fetchPdf) + "\n" + PdfText(fetchPdf(url).value)
  {
    LinkedTextAppend(before, [url], fetchPdf);
    LinkedTextSingle(url, fetchPdf);
  }

  /** An HTML page as the scraper sees it: the readable tags in document
      order and the `href` of every anchor that has one, in anchor order. */
  datatype Page = Page(tags: seq<Tag>, hrefs: seq<string>)

  /** The model's reply after `json.loads`: each key may be missing. */
  datatype ModelReply = ModelReply(
    summary: Option<string>,
    webLinks: Option<seq<string>>,
    flashcards: Option<seq<Flashcard>>,
    quizzes: Option<seq<QuizQuestion>>)

  /** The external calls of revisionai2.py, each of which may raise:
      `PdfReader` on a local path; `requests.get` of a PDF link, its temporary
      file and `PdfReader` on it; `requests.get` of a page and its parsing by
      BeautifulSoup; `urljoin`; and `one_shot_query` (the model and
      `json.loads` of its reply). */
  datatype Env = Env(
    readPdf: string -> Result<Document, Error>,
    fetchPdf: string -> Result<Document, Error>,
    fetchPage: string -> Result<Page, Error>,
    urlJoin: (string, string) -> Result<string, Error>,
    query: string -> Result<ModelReply, Error>)

  /** The links `fetch_ocw_text_from_url` tries to download, or the
      exception of the first PDF link that `urljoin` cannot resolve: all the
      links are resolved before the first three are taken. */
  function Attempted(url: string, page: Page, env: Env): Result<seq<string>, Error> {
    var full :- ResolveAll(url, PdfLinks(page.hrefs), env.urlJoin);
    Success(FirstThree(full))
  }

  /** What `fetch_ocw_text_from_url` returns for a page that was fetched: the
      tag text, then the text of each linked PDF that could be read, stripped;
      or the exception of a PDF link that cannot be resolved. */
  function OcwText(url: string, page: Page, env: Env): Result<string, Error> {
    var urls :- Attempted(url, page, env);
    Success(Strip(TagsText(page.tags) + LinkedText(urls, env.fetchPdf)))
  }

  /** The scrape of a fetched page raises exactly when some PDF link cannot
      be resolved, even one beyond the first three that would never be
      downloaded. */
  lemma UnresolvableLinkAborts(url: string, page: Page, env: Env)
    ensures OcwText(url, page, env).Failure? <==>
      exists k :: 0 <= k < |PdfLinks(page.hrefs)| && env.urlJoin(url, PdfLinks(page.hrefs)[k]).Failure?
  {
    var links := PdfLinks(page.hrefs);
    ResolveAllSucceeds(url, links, env.urlJoin);
    assert OcwText(url, page, env).Failure? <==> ResolveAll(url, links, env.urlJoin).Failure?;
    if ResolveAll(url, links, env.urlJoin).Failure? {
      var k :| 0 <= k < |links| && !env.urlJoin(url, links[k]).Success?;
      assert env.urlJoin(url, links[k]).Failure?;
      assert OcwText(url, page, env).Failure?;
      assert exists j :: 0 <= j < |PdfLinks(page.hrefs)| && env.urlJoin(url, PdfLinks(page.hrefs)[j]).Failure?;
    }
  }

  /** The tag loop of `fetch_ocw_text_from_url`: each tag with text adds its
      text nodes, joined by spaces, and a newline. */
  method CollectTagText(tags: seq<Tag>) returns (text: string)
    ensures text == TagsText(tags)
  {
    ghost var lines := MapParts(TagContribution, tags);
    text := "";
    for i := 0 to |tags|
      invariant text == Concat(lines[..i])
    {
      var tag := tags[i];
      ConcatStep(lines, i);
      if GetText(tag, "") != "" {
        text := text + (GetText(tag, " ") + "\n");
      }
    }
    assert lines[..|lines|] == lines;
  }

  /** The download loop of `fetch_ocw_text_from_url`: each link whose PDF can
      be fetched and read adds a newline and its text; a link that raises is
      skipped. */
  method CollectLinkedText(urls: seq<string>, fetchPdf: string -> Result<Document, Error>) returns (text: string)
    ensures text == LinkedText(urls, fetchPdf)
  {
    ghost var texts := MapParts(LinkStep(fetchPdf), urls);
    text := "";
    for i := 0 to |urls|
      invariant text == Concat(texts[..i])
    {
      var fetched := fetchPdf(urls[i]);
      ConcatStep(texts, i);
      if fetched.Success? {
        var pdfText := ExtractTextFromPdf(fetched.value);
        assert texts[i] == "\n" + pdfText;
        text := text + ("\n" + pdfText);
      } else {
        assert texts[i] == "";
      }
    }
    assert texts[..|texts|] == texts;
  }

  /** `fetch_ocw_text_from_url`. Fetching the page and resolving a PDF link
      can raise; a PDF link that cannot be downloaded or read is skipped. */
  method FetchOcwTextFromUrl(url: string, env: Env) returns (r: Result<string, Error>)
    ensures env.fetchPage(url).Failure? ==> r == Failure(env.fetchPage(url).error)
    ensures env.fetchPage(url).Success? ==> r == OcwText(url, env.fetchPage(url).value, env)
  {
    var page :- env.fetchPage(url);
    var textContent := CollectTagText(page.tags);
    var pdfLinks := PdfLinks(page.hrefs);
    var fullPdfs :- ResolveAll(url, pdfLinks, env.urlJoin);
    var linkedText := CollectLinkedText(FirstThree(fullPdfs), env.fetchPdf);
    textContent := textContent + linkedText;
    r := Success(Strip(textContent));
  }

  /** At most the first three PDF links are tried: two environments that
      agree on the page and on those links give the same text, whatever
      the other links would give. */
  lemma OnlyFirstThreeLinksRead(url: string, page: Page, env: Env, fetchPdf': string -> Result<Document, Error>)
    requires Attempted(url, page, env).Success? ==>
      forall u :: u in Attempted(url, page, env).value ==> env.fetchPdf(u) == fetchPdf'(u)
    ensures Attempted(url, page, env).Success? ==> |Attempted(url, page, env).value| <= 3
    ensures OcwText(url, page, env) == OcwText(url, page, env.(fetchPdf := fetchPdf'))
  {
    assert Attempted(url, page, env.(fetchPdf := fetchPdf')) == Attempted(url, page, env);
    if Attempted(url, page, env).Success? {
      var urls := Attempted(url, page, env).value;
      assert MapParts(LinkStep(env.fetchPdf), urls) == MapParts(LinkStep(fetchPdf'), urls);
    }
  }

  /** The three ways `build_revision_ai_output` reads its input. */
  datatype Source = DirectPdf | CoursePage | LocalPdf

  /** `.pdf` at the end, in any case. */
  predicate PdfSuffixAnyCase(s: string) {
    |s| >= 4 && s[|s| - 4] == '.' && s[|s| - 3] in {'p', 'P'} && s[|s| - 2] in {'d', 'D'} && s[|s| - 1] in {'f', 'F'}
  }

  /** `s.lower().endswith(".pdf")` holds exactly when `s` ends in `.pdf`
      written in any mix of cases. */
  lemma LowerEndsWithPdf(s: string)
    ensures EndsWith(Lower(s), ".pdf") <==> PdfSuffixAnyCase(s)
  {
    var lowered := Lower(s);
    if |s| >= 4 {
      assert lowered[|lowered| - 4..] == [lowered[|s| - 4], lowered[|s| - 3], lowered[|s| - 2], lowered[|s| - 1]];
    }
  }

  /** The input dispatch of `build_revision_ai_output`: a URL whose lower-cased
      text ends in `.pdf` is downloaded as a PDF, any other URL is scraped as
      a course page, and anything else is a local PDF path. */
  function Dispatch(input: string, isUrl: bool): (src: Source)
    ensures src == LocalPdf <==> !isUrl
    ensures src == DirectPdf <==> isUrl && PdfSuffixAnyCase(input)
    ensures src == CoursePage <==> isUrl && !PdfSuffixAnyCase(input)
  {
    var lowered := Lower(input);
    LowerEndsWithPdf(input);
    if isUrl then
      if EndsWith(lowered, ".pdf") then DirectPdf else CoursePage
    else LocalPdf
  }

  /** The suffix test of the dispatch ignores case, the link filter of the
      scraper does not: a link to `notes.PDF` is downloaded when given
      directly but never followed from a course page. */
  lemma UpperCasePdfLink()
    ensures Dispatch("notes.PDF", true) == DirectPdf
    ensures PdfLinks(["notes.PDF"]) == []
  {
    assert !EndsWith("notes.PDF", ".pdf") by {
      assert "notes.PDF"[5..][1] == 'P';
    }
  }

  /** The text the input yields, or the exception that reading it raises: a
      PDF fails exactly when downloading or opening it fails, and otherwise
      gives its stripped page text; a course page fails with its fetch's
      exception, and otherwise gives the scrape of the fetched page. */
  function ExtractedText(input: string, isUrl: bool, env: Env): (r: Result<string, Error>)
    ensures Dispatch(input, isUrl) == DirectPdf ==> (r.Failure? <==> env.fetchPdf(input).Failure?)
    ensures Dispatch(input, isUrl) == DirectPdf && env.fetchPdf(input).Success? ==>
      r == Success(PdfText(env.fetchPdf(input).value))
    ensures Dispatch(input, isUrl) == LocalPdf ==> (r.Failure? <==> env.readPdf(input).Failure?)
    ensures Dispatch(input, isUrl) == LocalPdf && env.readPdf(input).Success? ==>
      r == Success(PdfText(env.readPdf(input).value))
    ensures Dispatch(input, isUrl) == CoursePage && env.fetchPage(input).Failure? ==> r == Failure(env.fetchPage(input).error)
    ensures Dispatch(input, isUrl) == CoursePage && env.fetchPage(input).Success? ==>
      r == OcwText(input, env.fetchPage(input).value, env)
  {
    match Dispatch(input, isUrl)
    case DirectPdf =>
      var pages :- env.fetchPdf(input);
      Success(PdfText(pages))
    case CoursePage =>
      var page :- env.fetchPage(input);
      OcwText(input, page, env)
    case LocalPdf =>
      var pages :- env.readPdf(input);
      Success(PdfText(pages))
  }

  const ErrorSummary := "Error generating content."

  /** The summary JSON of the `except` branch, written out:
      `{"summary": "Error generating content.", "web_links": []}`. */
  const ErrorJson := SummaryJson.SummaryPrefix + ErrorSummary + "\"" + SummaryJson.LinksPrefix + "]}"

  /** The written-out error JSON is what `json.dumps` makes of the error
      summary with no links. */
  lemma ErrorJsonIsEncoded()
    ensures ErrorJson == SummaryJson.Encode(ErrorSummary, [])
  {
    assert SummaryJson.Plain(ErrorSummary);
    SummaryJson.EncodePlainNoLinks(ErrorSummary);
  }

  /** The result of the `except` branch: the title kept, an error summary with
      no links, no flashcards and no quizzes. */
  function Fallback(title: string): (o: Output)
    ensures o.title == title && o.flashcards == [] && o.quizzes == []
  {
    Output(title, ErrorJson, [], [])
  }

  /** The fallback's summary reads back as the error summary with no links. */
  lemma FallbackReadsBack(title: string)
    ensures SummaryJson.Decode(Fallback(title).summary) == Some((ErrorSummary, []))
  {
    ErrorJsonIsEncoded();
    SummaryJson.DecodeEncode(ErrorSummary, []);
  }

  /** The result of a successful call: the title kept, the summary text and
      links encoded together as JSON, and each missing key replaced by its
      default (an empty summary, no links, no flashcards, no quizzes). */
  function ShapeOutput(title: string, reply: ModelReply): (o: Output)
    ensures o.title == title
    ensures o.flashcards == reply.flashcards.GetOr([]) && o.quizzes == reply.quizzes.GetOr([])
  {
    Output(title, SummaryJson.Encode(reply.summary.GetOr(""), reply.webLinks.GetOr([])),
      reply.flashcards.GetOr([]), reply.quizzes.GetOr([]))
  }

  /** The shaped summary reads back as the reply's summary text and links,
      each defaulted when the reply left it out. */
  lemma ShapeOutputReadsBack(title: string, reply: ModelReply)
    ensures SummaryJson.Decode(ShapeOutput(title, reply).summary)
      == Some((reply.summary.GetOr(""), reply.webLinks.GetOr([])))
  {
    SummaryJson.DecodeEncode(reply.summary.GetOr(""), reply.webLinks.GetOr([]));
  }

  /** What `build_revision_ai_output(input, title, is_url)` returns. It never
      raises: a failure to read the input, an empty text and a failed model
      call all give the fallback. */
  function BuildOutput(input: string, title: string, isUrl: bool, env: Env): (o: Output)
    ensures o.title == title
  {
    match ExtractedText(input, isUrl, env)
    case Failure(_) => Fallback(title)
    case Success(text) =>
      if text == "" then Fallback(title)
      else
        match env.query(text)
        case Failure(_) => Fallback(title)
        case Success(reply) => ShapeOutput(title, reply)
  }

  /** `build_revision_ai_output(input, title, is_url)`. */
  method BuildRevisionAiOutput(input: string, title: string, isUrl: bool, env: Env) returns (o: Output)
    ensures o == BuildOutput(input, title, isUrl, env)
  {
    var extracted: Result<string, Error>;
    if isUrl {
      if EndsWith(Lower(input), ".pdf") {
        var fetched := env.fetchPdf(input);
        if fetched.Failure? {
          return Fallback(title);
        }
        var text := ExtractTextFromPdf(fetched.value);
        extracted := Success(text);
      } else {
        extracted := FetchOcwTextFromUrl(input, env);
      }
    } else {
      var read := env.readPdf(input);
      if read.Failure? {
        return Fallback(title);
      }
      var text := ExtractTextFromPdf(read.value);
      extracted := Success(text);
    }
    if extracted.Failure? || extracted.value == "" {
      return Fallback(title);
    }
    var reply := env.query(extracted.value);
    if reply.Failure? {
      return Fallback(title);
    }
    o := ShapeOutput(title, reply.value);
  }

  /** An input that yields no text never reaches the model: the result is the
      fallback, whatever the model would have answered. */
  lemma EmptyTextNeverQueried(input: string, title: string, isUrl: bool, env: Env, query': string -> Result<ModelReply, Error>)
    requires ExtractedText(input, isUrl, env) == Success("")
    ensures BuildOutput(input, title, isUrl, env) == Fallback(title)
    ensures BuildOutput(input, title, isUrl, env.(query := query')) == Fallback(title)
  {
    var env' := env.(query := query');
    if Dispatch(input, isUrl) == CoursePage && env.fetchPage(input).Success? {
      var page := env.fetchPage(input).value;
      assert Attempted(input, page, env') == Attempted(input, page, env);
      assert OcwText(input, page, env') == OcwText(input, page, env);
    }
    assert ExtractedText(input, isUrl, env') == ExtractedText(input, isUrl, env);
    NoTextFallsBack(input, title, isUrl, env);
    NoTextFallsBack(input, title, isUrl, env');
  }

  /** An input that yields an empty text gives the fallback. */
  lemma NoTextFallsBack(input: string, title: string, isUrl: bool, env: Env)
    requires ExtractedText(input, isUrl, env) == Success("")
    ensures BuildOutput(input, title, isUrl, env) == Fallback(title)
  {
  }

  /** A PDF whose pages are all blank is rejected before the model is asked. */
  lemma BlankLocalPdfFallsBack(path: string, title: string, env: Env)
    requires env.readPdf(path).Success?
    requires forall k :: 0 <= k < |env.readPdf(path).value| ==> BlankPage(env.readPdf(path).value[k])
    ensures BuildOutput(path, title, false, env) == Fallback(title)
  {
    var pages := env.readPdf(path).value;
    PageTextBlankIff(pages);
    StripEmptyIff(PageText(pages));
    assert ExtractedText(path, false, env) == Success("");
    NoTextFallsBack(path, title, false, env);
  }

  /** The model's reply is shaped exactly when a non-empty text was extracted
      and the model answered; in every other case the result is the
      fallback. */
  lemma BuildOutputCases(input: string, title: string, isUrl: bool, env: Env)
    ensures var text := ExtractedText(input, isUrl, env);
      text.Success? && text.value != "" && env.query(text.value).Success? ==>
        BuildOutput(input, title, isUrl, env) == ShapeOutput(title, env.query(text.value).value)
    ensures var text := ExtractedText(input, isUrl, env);
      !(text.Success? && text.value != "" && env.query(text.value).Success?) ==>
        BuildOutput(input, title, isUrl, env) == Fallback(title)
  {
  }

  /** Whatever happens, the stored summary parses back into a summary text
      and a list of links. */
  lemma SummaryAlwaysParses(input: string, title: string, isUrl: bool, env: Env)
    ensures SummaryJson.Decode(BuildOutput(input, title, isUrl, env).summary).Some?
  {
    BuildOutputCases(input, title, isUrl, env);
    var text := ExtractedText(input, isUrl, env);
    if text.Success? && text.value != "" && env.query(text.value).Success? {
      ShapeOutputReadsBack(title, env.query(text.value).value);
    } else {
      FallbackReadsBack(title);
    }
  }
}
