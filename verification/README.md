# revisionAI in Dafny

revisionAI turns course material into study aids. It reads a PDF, or for the
second version also a web page, and asks an OpenAI model for three things:
a summary, flashcards and multiple-choice quiz questions. Two Streamlit apps
show the results, grade the quiz answers and remember, per session, that the
pipeline has already run.

This project models the deterministic parts of that pipeline. Every external
call, `urljoin` included, is an uninterpreted function that may fail. A
failure stands for a Python exception.

- **`RevisionAi`** (revisionai.py):
  - page-text assembly, as a loop method proved against `Study.PageText`;
  - `clean_json_string`, the greedy `\[.*\]` extraction;
  - the three-query `build_revision_ai_output`, where every exception reaches
    the caller.
- **`RevisionAi2`** (revisionai2.py):
  - the stripped page text;
  - the course-page scraper, with two loop methods proved against
    `TagsText` / `LinkedText`;
  - the three-way input dispatch;
  - the empty-text check;
  - the one-shot reply wrapped with defaults;
  - the fail-soft fallback.
- **`SummaryJson`**: the `json.dumps` of the `{summary, web_links}` object
  stored as the result's summary, and app2.py's `json.loads` of it. The two
  are proved to round-trip.
- **`QuizSession`**: the `st.session_state` both apps keep, as a class
  `Session`, together with `update_selection`, the quiz widget keys and the
  temporary-file cleanup.
- **`App`** / **`App2`**: one run of each script, from the top. This covers:
  - the `callGPT` gate;
  - the upload-before-URL precedence;
  - the summary read-back;
  - what an uncaught exception in app.py skips.
- **`Text`**, **`Study`** and **`Wrappers`** hold shared pieces:
  - the string operations used (`strip`, `endswith`, `lower`, `join`, decimal
    rendering);
  - the pipeline's data (`Flashcard`, `QuizQuestion`, the four-key `Output`,
    errors);
  - `Option` and `Result`.

`clean_json_string` is described as extracting "a JSON array", and one might
expect the first balanced array. The code's pattern is greedy with DOTALL, so
it takes everything from the first `[` to the last `]`, text between two
arrays included. The model follows the code; `CleanJsonStringSpansTwoArrays`
shows the difference.

## Model

| member | source | states |
|---|---|---|
| `Text.Strip` | revisionai2.py:100 | `str.strip()` over Python's full whitespace set; its length never grows, and its meaning is stated by `StripSpec`, `StripEnds` and `StripEmptyIff` |
| `Text.StripSpec` | revisionai2.py:100 | `strip()` returns the slice of the text that starts right after its leading whitespace, and everything before and after that slice is whitespace |
| `Text.StripEnds` | revisionai2.py:100 | a stripped text is empty or neither starts nor ends with whitespace |
| `Text.StripEmptyIff` | revisionai2.py:142 | the stripped text is empty exactly when the input is whitespace only |
| `Text.DecimalInjective` | app2.py:92 | different question indices render as different decimal strings |
| `Study.PageText` | revisionai.py:17-21 | the text the page loop accumulates, before any stripping; a non-empty gathered text ends with the newline its last page added; the lemmas below characterise it further |
| `Study.PageTextAppend` | revisionai.py:18-21 | each page contributes on its own, in page order: the text of two runs of pages is their texts concatenated |
| `Study.PageTextEmptyIff` | revisionai.py:20-22 | the gathered text is empty exactly when no page has non-empty text |
| `Study.PageTextBlankIff` | revisionai2.py:97-100 | the gathered text is whitespace only exactly when every page is missing or whitespace |
| `RevisionAi.ExtractTextFromPdf` | revisionai.py:15-22 | the loop computes `PageText`: `text + "\n"` for each page with text, in order and unstripped; the result is empty iff no page has text, and otherwise ends in a newline |
| `RevisionAi.CleanJsonString` | revisionai.py:54-60 | succeeds iff some `[` has a `]` after it, else fails with `ValueError`; on success returns the slice from the first `[` to the last `]`, which contains every other `[`…`]` match |
| `RevisionAi.CleanJsonStringKeepsBracketed` | revisionai.py:56-58 | a reply that starts with `[` and ends with `]` comes back whole |
| `RevisionAi.CleanJsonStringIdempotent` | revisionai.py:56-58 | cleaning a cleaned reply returns it unchanged |
| `RevisionAi.CleanJsonStringSpansTwoArrays` | revisionai.py:56 | for `[1] and [2]` the greedy match returns the whole text, not the first array |
| `RevisionAi.CleanJsonStringDropsProse` | revisionai.py:56-58 | prose around the array is dropped: `A: [1] ok` gives `[1]` |
| `RevisionAi.BuildOutput` | revisionai.py:77-82 | a successful result carries the title it was given |
| `RevisionAi.BuildRevisionAiOutput` | revisionai.py:62-84 | the method (read, extract by loop, three queries, two cleanings, two parses) returns exactly `BuildOutput`, first exception included |
| `RevisionAi.BuildOutputContents` | revisionai.py:63-82 | on success the summary is the summary reply as given, and flashcards and quizzes are parsed from the arrays cut out of their replies |
| `RevisionAi.NoArrayInFlashcardsPropagates` | revisionai.py:69-70 | a flashcard reply with no array makes the whole call fail with `ValueError` |
| `RevisionAi.NoArrayInQuizzesPropagates` | revisionai.py:73-74 | a quiz reply with no array makes the whole call fail with `ValueError` |
| `RevisionAi.EmptyTextStillQueried` | revisionai.py:63-66 | there is no empty-text check: a PDF without text is summarised from `""` |
| `SummaryJson.Encode` | revisionai2.py:184-187 | `json.dumps({"summary": s, "web_links": l})` with the default separators and `ensure_ascii`: the stored summary is printable ASCII, whatever the model wrote; `DecodeEncode` is its round trip |
| `SummaryJson.Decode` | app2.py:69 | `json.loads` of the stored summary, read as (`summary`, `web_links`); it accepts only text that opens with `{"summary": "`, and `DecodeEncode` is its round trip with `Encode` |
| `SummaryJson.Escape` | revisionai2.py:184-187 | `json.dumps` writes each character as itself or as an escape of two or more characters; no escape starts with a quote |
| `SummaryJson.EscapeRoundTrip` | revisionai2.py:184-187 | decoding the escape of any character, surrogate pairs above U+FFFF included, gives that character back and leaves what follows untouched |
| `SummaryJson.Hex4RoundTrip` | revisionai2.py:184-187 | the four hex digits of a `\uXXXX` escape read back as the code unit written |
| `SummaryJson.CharsRoundTrip` | revisionai2.py:184-187 | the body of an encoded string literal decodes back to the string, up to its closing quote |
| `SummaryJson.ItemsRoundTrip` | revisionai2.py:184-187 | the items of an encoded string array decode back to the same list, up to the closing `]` |
| `SummaryJson.DecodeEncode` | app2.py:68-72 | `json.loads` of `json.dumps({"summary": s, "web_links": l})` gives back exactly `s` and `l` |
| `SummaryJson.PlainEncodesAsItself` | revisionai2.py:184-187 | printable ASCII text without quotes or backslashes is written as it is |
| `RevisionAi2.ExtractTextFromPdf` | revisionai2.py:93-100 | the loop computes `PageText`, then strips it; the result is empty iff every page is blank, and never starts or ends with whitespace |
| `RevisionAi2.NonBlankEmptyIff` | revisionai2.py:124 | `get_text(strip=True)` keeps no text node exactly when every node is whitespace |
| `RevisionAi2.GetTextEmptyIff` | revisionai2.py:124-125 | the tested text and the appended text are empty together, exactly for whitespace-only tags |
| `RevisionAi2.TagsTextAppend` | revisionai2.py:123-125 | tags contribute independently, in document order |
| `RevisionAi2.BlankTagSkipped` | revisionai2.py:123-125 | a whitespace-only tag adds nothing to the page text |
| `RevisionAi2.TagWithTextAppended` | revisionai2.py:124-125 | a tag with text adds its nodes joined by spaces, then `"\n"` |
| `RevisionAi2.PdfLinks` | revisionai2.py:128 | a link is kept iff its `href` ends in `.pdf` (case-sensitive); no more links than anchors |
| `RevisionAi2.PdfLinksAppend` | revisionai2.py:128 | the filter keeps anchor order |
| `RevisionAi2.ResolveAllSucceeds` | revisionai2.py:129 | resolving the kept links succeeds exactly when every `urljoin` succeeds, and then gives each link resolved against the page URL, one for one and in order |
| `RevisionAi2.ResolveAllFirstError` | revisionai2.py:129 | the first link `urljoin` cannot resolve makes the comprehension raise that exception |
| `RevisionAi2.FirstThree` | revisionai2.py:131 | at most three links are tried: the first three, or all when fewer |
| `RevisionAi2.LinkedTextAppend` | revisionai2.py:131-140 | links contribute independently, in link order |
| `RevisionAi2.FailedLinkSkipped` | revisionai2.py:132-140 | a link whose download or reading raises is skipped and the later links are still read |
| `RevisionAi2.ReadLinkAppended` | revisionai2.py:138 | a readable link adds `"\n"` and its stripped PDF text |
| `RevisionAi2.CollectTagText` | revisionai2.py:123-125 | the tag loop computes `TagsText` |
| `RevisionAi2.CollectLinkedText` | revisionai2.py:131-140 | the download loop computes `LinkedText`, skipping failures |
| `RevisionAi2.FetchOcwTextFromUrl` | revisionai2.py:115-142 | fails with the page fetch's exception when that fails; otherwise returns `OcwText`: the exception of an unresolvable PDF link, or the stripped tag text followed by the linked PDFs' text |
| `RevisionAi2.UnresolvableLinkAborts` | revisionai2.py:128-131 | the scrape of a fetched page raises exactly when some PDF link cannot be resolved, even a link beyond the first three |
| `RevisionAi2.OnlyFirstThreeLinksRead` | revisionai2.py:129-140 | the outcome does not depend on downloading any PDF link beyond the first three; links beyond them still matter through `urljoin` |
| `RevisionAi2.LowerEndsWithPdf` | revisionai2.py:164 | `input.lower().endswith(".pdf")` holds exactly when the input ends in `.pdf` in any mix of cases |
| `RevisionAi2.ExtractedText` | revisionai2.py:163-175 | a direct PDF link fails exactly when its download fails and otherwise gives the downloaded PDF's stripped text; a local PDF fails exactly when the reader fails and otherwise gives its stripped text; a course page fails with its page fetch's exception when that fetch fails and otherwise gives `OcwText` of the fetched page |
| `RevisionAi2.Dispatch` | revisionai2.py:163-175 | a URL ending in `.pdf` in any case is downloaded directly; any other URL is scraped; a non-URL is read as a local path |
| `RevisionAi2.UpperCasePdfLink` | revisionai2.py:164 | `notes.PDF` is downloaded when given directly, but the scraper's link filter drops it |
| `RevisionAi2.ErrorJsonIsEncoded` | revisionai2.py:195 | the error summary stored by the `except` branch is exactly `json.dumps` of `{"summary": "Error generating content.", "web_links": []}` |
| `RevisionAi2.Fallback` | revisionai2.py:191-198 | the fallback keeps the title and has no flashcards and no quizzes |
| `RevisionAi2.FallbackReadsBack` | revisionai2.py:195 | the fallback's summary reads back as ("Error generating content.", []) |
| `RevisionAi2.ShapeOutput` | revisionai2.py:182-190 | keeps the title; flashcards and quizzes are the reply's, each defaulting to `[]` |
| `RevisionAi2.ShapeOutputReadsBack` | revisionai2.py:184-187 | the stored summary reads back as the reply's summary and links, defaulting to `""` and `[]` |
| `RevisionAi2.BuildOutput` | revisionai2.py:161-198 | the result always carries the given title: the function never raises |
| `RevisionAi2.BuildRevisionAiOutput` | revisionai2.py:161-198 | the method (dispatch, extraction, empty check, query, shaping, fallback) returns exactly `BuildOutput` |
| `RevisionAi2.EmptyTextNeverQueried` | revisionai2.py:177-178 | an empty text gives the fallback whatever the model would answer |
| `RevisionAi2.NoTextFallsBack` | revisionai2.py:177-178 | an input whose extracted text is empty gives the fallback |
| `RevisionAi2.BlankLocalPdfFallsBack` | revisionai2.py:174-178 | a local PDF whose pages are all blank gives the fallback |
| `RevisionAi2.BuildOutputCases` | revisionai2.py:161-198 | a non-empty extracted text that the model answers gives the shaped reply; a failed extraction, an empty text or a failed query gives the fallback |
| `RevisionAi2.SummaryAlwaysParses` | revisionai2.py:184-198 | every result's summary parses as `{summary, web_links}` |
| `QuizSession.ResultKeysDistinct` | app2.py:92-103 | different questions use different widget keys and different result keys |
| `QuizSession.Graded` | app2.py:20-26 | the verdict map after `update_selection`: a key is added exactly when something is selected, and it is `selected_key + "_result"` |
| `QuizSession.GradedVerdict` | app2.py:22-26 | a non-empty selection is recorded as "correct" iff it equals the answer exactly, and as "wrong" iff it does not |
| `QuizSession.GradedNoSelection` | app2.py:21-22 | a missing or empty selection leaves the verdicts unchanged |
| `QuizSession.GradedFrame` | app2.py:24-26 | no entry other than `selected_key + "_result"` changes |
| `QuizSession.GradedOverwrites` | app2.py:20-26 | regrading the same selection changes nothing, and a new selection replaces the earlier verdict |
| `QuizSession.Session.constructor` | app2.py:8-18 | the first run starts with no verdicts, empty output, `callGPT` false and no temporary path (app.py:7-17 is the same) |
| `QuizSession.Session.UpdateSelection` | app.py:19-25 | the callback sets the verdict map to `Graded` of the old map; app2.py:20-26 is the same code |
| `QuizSession.Session.ChooseOption` | app2.py:92-101 | choosing an option stores it under `quiz_i`, records correct iff it equals the answer, and leaves every other question's verdict as it was |
| `QuizSession.Session.Cleanup` | app2.py:111-113 | a non-empty path whose file exists is removed and `tmp_path` becomes `None`; otherwise nothing changes (app.py:91-93 is the same) |
| `App.HandleUpload` | app.py:33-40 | the pipeline runs only for an upload while `callGPT` is false; on success it stores the output and sets `callGPT`; an exception leaves output and `callGPT` as they were, with `tmp_path` already set |
| `App.RunScript` | app.py:33-93 | fails exactly when the pipeline raises (the tab rendering is taken not to raise); the new output is the pipeline's result when it ran and succeeded, else the old one, and `callGPT` is set exactly then; the cleanup, skipped on an exception, removes the recorded path exactly when it is non-empty and exists, and otherwise leaves it |
| `App2.PendingCall` | app2.py:38-51 | no call once `callGPT` is set or with no input; an upload is used as a local PDF with its file name as title; otherwise the URL is used with title "MIT OCW" and `is_url` true |
| `App2.UploadBeforeUrl` | app2.py:38-51 | an upload takes precedence over a typed URL, and nothing runs once `callGPT` is set |
| `App2.SummaryReadBack` | app2.py:67-72 | the summary tab recovers the model's actual reply (its summary and links, with defaults) when a non-empty text was answered, and the error summary with no links otherwise |
| `App2.Process` | app2.py:36-53 | stores `BuildOutput` of the pending call and sets `callGPT`, else changes nothing; keeps the output readable by the summary tab |
| `App2.RunScript` | app2.py:36-113 | with the tab rendering taken not to raise, the new output is `BuildOutput` of the pending call, or the old output when there is none, and `callGPT` is set exactly then; the cleanup removes the recorded path exactly when it is non-empty and exists, and otherwise leaves it; the output stays readable |

## Left out

- The OpenAI calls are not modelled. This covers `query_gpt` (including its `.strip()` of the reply), `one_shot_query`, the prompts and the response schema. The model's reply is an uninterpreted function of the text.
- The parsing of the model's output is not modelled. This covers `json.loads` of the flashcard and quiz arrays, and of the one-shot reply. It is an uninterpreted function, and a failure stands for a parse error. Only the `{summary, web_links}` object has a concrete encoder and decoder.
- `SummaryJson.Decode` reads only the layout `json.dumps` writes there, with default separators and `ensure_ascii`. It is not a general JSON parser.
- `PdfReader` is not modelled. A document is the list of `extract_text()` results, one per page.
- `requests.get`, temporary files, BeautifulSoup's `find_all` and `urljoin` are not modelled. A scraped page is its readable tags, each tag's text nodes, and the anchors' `href`s. Fetching and URL joining are uninterpreted functions.
- The file-system calls are not modelled. The temporary file's name and what `os.path.exists` answers are parameters. Writing the uploaded bytes to that file is not modelled.
- The upload block's temporary-file write can fail inside app2.py's `try`. That failure is not modelled, so its `except` branch never occurs.
- The Streamlit rendering is not modelled. This covers page config, the tab radio and `active_tab`, spinners, messages, and the flashcard and quiz display. The `print` logging is left out too.
- `App.RunScript`: the tab rendering is taken not to raise. A flashcard or quiz item the model returns without the keys `question`, `answer` or `options` is not represented, because the parsed replies are typed records here. In app.py such an item makes the Flashcards or Quiz tab raise a `KeyError` (app.py:61-62, :69-70, :80), outside any `try`. The run then ends before the cleanup, so the temporary file stays on disk and `tmp_path` stays set.
- `App2.RunScript`: the same applies to the Flashcards and Quiz tabs of app2.py (app2.py:82-83, :89-90, :100, :108). A `KeyError` raised there skips the cleanup at app2.py:111-113.
- `Text.Lower`: only ASCII letters are lower-cased, while `str.lower()` also lower-cases other scripts. Only the lowered string differs: no non-ASCII character lower-cases to `.`, `p`, `d` or `f`, so the `.pdf` test of `RevisionAi2.Dispatch` agrees with the source on every input.
- Streamlit's widget values are strings here, and `None` is an absent entry. A radio option that is some other value is not modelled.
