/** app2.py: the Streamlit front end of the second pipeline. The source is an
    uploaded PDF or a course URL, processed once per session; the summary tab
    parses the stored summary JSON back; quiz grading and cleanup are those of
    app.py. */
module App2 {
  import opened Wrappers
  import opened Study
  import opened QuizSession
  import SummaryJson
  import RevisionAi2

  /** The arguments of one `build_revision_ai_output` call. */
  datatype Call = Call(input: string, title: string, isUrl: bool)

  /** The `if`/`elif` of the processing block: which call, if any, this run
      makes. `tmpName` is the temporary file an upload is written to, and
      `ocwUrl` the text field, empty when nothing was typed. */
  function PendingCall(callGPT: bool, upload: Option<Upload>, tmpName: string, ocwUrl: string): (c: Option<Call>)
    ensures c.None? <==> callGPT || (upload.None? && ocwUrl == "")
    ensures c.Some? && upload.Some? ==> c.value == Call(tmpName, upload.value.name, false)
    ensures c.Some? && upload.None? ==> c.value == Call(ocwUrl, "MIT OCW", true)
  {
    if upload.Some? && !callGPT then Some(Call(tmpName, upload.value.name, false))
    else if ocwUrl != "" && !callGPT then Some(Call(ocwUrl, "MIT OCW", true))
    else None
  }

  /** An upload takes precedence over a URL typed at the same time, and
      neither is processed again once the pipeline has run. */
  lemma UploadBeforeUrl(upload: Upload, tmpName: string, ocwUrl: string)
    ensures PendingCall(false, Some(upload), tmpName, ocwUrl) == Some(Call(tmpName, upload.name, false))
    ensures PendingCall(true, Some(upload), tmpName, ocwUrl) == None
    ensures PendingCall(true, None, tmpName, ocwUrl) == None
  {
  }

  /** What `json.loads` of the stored summary gives the summary tab: the
      summary text and the related links, or nothing when it does not parse. */
  function SummaryView(o: Output): Option<(string, seq<string>)> {
    SummaryJson.Decode(o.summary)
  }

  /** The summary tab renders without an exception: there is no output yet
      (the tab shows nothing), or the stored summary parses. */
  predicate SummaryReadable(output: Option<Output>) {
    output.None? || SummaryView(output.value).Some?
  }

  /** The summary tab recovers what the model said: the summary text and
      links of its reply, with their defaults, when a non-empty text was
      extracted and the model answered; the error summary with no links
      otherwise. */
  lemma SummaryReadBack(input: string, title: string, isUrl: bool, env: RevisionAi2.Env)
    ensures var text := RevisionAi2.ExtractedText(input, isUrl, env);
      var view := SummaryView(RevisionAi2.BuildOutput(input, title, isUrl, env));
      if text.Success? && text.value != "" && env.query(text.value).Success? then
        var reply := env.query(text.value).value;
        view == Some((reply.summary.GetOr(""), reply.webLinks.GetOr([])))
      else
        view == Some((RevisionAi2.ErrorSummary, []))
  {
    RevisionAi2.BuildOutputCases(input, title, isUrl, env);
    var text := RevisionAi2.ExtractedText(input, isUrl, env);
    if text.Success? && text.value != "" && env.query(text.value).Success? {
      RevisionAi2.ShapeOutputReadsBack(title, env.query(text.value).value);
    } else {
      RevisionAi2.FallbackReadsBack(title);
    }
  }

  /** The processing block inside its `try`. The second pipeline never raises,
      so the `except` branch is not reached from it. */
  method Process(s: Session, upload: Option<Upload>, tmpName: string, ocwUrl: string, env: RevisionAi2.Env)
    modifies s`output, s`callGPT, s`tmpPath
    ensures var c := PendingCall(old(s.callGPT), upload, tmpName, ocwUrl);
      c.None? ==> s.output == old(s.output) && s.callGPT == old(s.callGPT) && s.tmpPath == old(s.tmpPath)
    ensures var c := PendingCall(old(s.callGPT), upload, tmpName, ocwUrl);
      c.Some? ==> s.output == Some(RevisionAi2.BuildOutput(c.value.input, c.value.title, c.value.isUrl, env)) && s.callGPT
    ensures s.tmpPath == if upload.Some? && !old(s.callGPT) then Some(tmpName) else old(s.tmpPath)
    ensures old(s.callGPT) ==> s.output == old(s.output)
    ensures old(s.Consistent()) ==> s.Consistent()
    ensures SummaryReadable(old(s.output)) ==> SummaryReadable(s.output)
  {
    if upload.Some? && !s.callGPT {
      s.tmpPath := Some(tmpName);
      var o := RevisionAi2.BuildRevisionAiOutput(tmpName, upload.value.name, false, env);
      RevisionAi2.SummaryAlwaysParses(tmpName, upload.value.name, false, env);
      s.output := Some(o);
      s.callGPT := true;
    } else if ocwUrl != "" && !s.callGPT {
      var o := RevisionAi2.BuildRevisionAiOutput(ocwUrl, "MIT OCW", true, env);
      RevisionAi2.SummaryAlwaysParses(ocwUrl, "MIT OCW", true, env);
      s.output := Some(o);
      s.callGPT := true;
    }
  }

  /** One run of app2.py from the top: the processing block, then the cleanup.
      The result is the temporary path removed, if any. */
  method RunScript(s: Session, upload: Option<Upload>, tmpName: string, ocwUrl: string, fileExists: bool, env: RevisionAi2.Env)
    returns (removed: Option<string>)
    modifies s`output, s`callGPT, s`tmpPath
    ensures var c := PendingCall(old(s.callGPT), upload, tmpName, ocwUrl);
      s.output == if c.Some? then Some(RevisionAi2.BuildOutput(c.value.input, c.value.title, c.value.isUrl, env)) else old(s.output)
    ensures s.callGPT == (old(s.callGPT) || PendingCall(old(s.callGPT), upload, tmpName, ocwUrl).Some?)
    ensures var path := if upload.Some? && !old(s.callGPT) then Some(tmpName) else old(s.tmpPath);
      && (removed.Some? <==> path.Some? && path.value != "" && fileExists)
      && (removed.Some? ==> removed == path && s.tmpPath == None)
      && (removed.None? ==> s.tmpPath == path)
    ensures old(s.callGPT) ==> s.callGPT && s.output == old(s.output)
    ensures old(s.Consistent()) ==> s.Consistent()
    ensures SummaryReadable(old(s.output)) ==> SummaryReadable(s.output)
  {
    Process(s, upload, tmpName, ocwUrl, env);
    ghost var output, callGPT := s.output, s.callGPT;
    removed := s.Cleanup(fileExists);
    assert s.output == output && s.callGPT == callGPT;
  }
}
