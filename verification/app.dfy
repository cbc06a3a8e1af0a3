/** app.py: the Streamlit front end of the first pipeline. An uploaded PDF is
    processed once per session; the quiz tab grades each choice through the
    shared callback; the temporary file is removed at the end of a run. */
module App {
  import opened Wrappers
  import opened Study
  import opened QuizSession
  import RevisionAi

  /** The guard of the upload block: a file is uploaded and the pipeline has
      not run yet in this session. */
  predicate RunsPipeline(callGPT: bool, upload: Option<Upload>) {
    upload.Some? && !callGPT
  }

  /** The upload block. `tmpName` is the name of the temporary file the upload
      is written to. The pipeline's exceptions are not caught here: they end
      the run with the temporary path recorded and the pipeline not marked as
      run, so the next rerun tries again. */
  method HandleUpload(s: Session, upload: Option<Upload>, tmpName: string, env: RevisionAi.Env) returns (r: Result<(), Error>)
    modifies s`output, s`callGPT, s`tmpPath
    ensures !RunsPipeline(old(s.callGPT), upload) ==>
      r.Success? && s.output == old(s.output) && s.callGPT == old(s.callGPT) && s.tmpPath == old(s.tmpPath)
    ensures RunsPipeline(old(s.callGPT), upload) ==> s.tmpPath == Some(tmpName)
    ensures RunsPipeline(old(s.callGPT), upload) && RevisionAi.BuildOutput(tmpName, upload.value.name, env).Success? ==>
      r.Success? && s.output == Some(RevisionAi.BuildOutput(tmpName, upload.value.name, env).value) && s.callGPT
    ensures RunsPipeline(old(s.callGPT), upload) && RevisionAi.BuildOutput(tmpName, upload.value.name, env).Failure? ==>
      r == Failure(RevisionAi.BuildOutput(tmpName, upload.value.name, env).error)
      && s.output == old(s.output) && !s.callGPT
    ensures old(s.Consistent()) ==> s.Consistent()
  {
    if upload.Some? && !s.callGPT {
      s.tmpPath := Some(tmpName);
      var built := RevisionAi.BuildRevisionAiOutput(tmpName, upload.value.name, env);
      if built.Failure? {
        return Failure(built.error);
      }
      s.output := Some(built.value);
      s.callGPT := true;
    }
    r := Success(());
  }

  /** The temporary path recorded once the upload block has run: the new
      temporary file when the pipeline runs, else the one already recorded. */
  function PathAfterUpload(callGPT: bool, upload: Option<Upload>, tmpName: string, tmpPath: Option<string>): Option<string> {
    if RunsPipeline(callGPT, upload) then Some(tmpName) else tmpPath
  }

  /** One run of app.py from the top: the upload block, then the cleanup,
      which an exception out of the upload block skips. `fileExists` is what
      `os.path.exists` says of the recorded temporary path; the result is the
      path removed, if any. */
  method RunScript(s: Session, upload: Option<Upload>, tmpName: string, fileExists: bool, env: RevisionAi.Env)
    returns (r: Result<Option<string>, Error>)
    modifies s`output, s`callGPT, s`tmpPath
    ensures var runs := RunsPipeline(old(s.callGPT), upload);
      && (r.Failure? <==> runs && RevisionAi.BuildOutput(tmpName, upload.value.name, env).Failure?)
      && (r.Failure? ==> r.error == RevisionAi.BuildOutput(tmpName, upload.value.name, env).error)
    ensures var runs := RunsPipeline(old(s.callGPT), upload);
      s.output == if runs && RevisionAi.BuildOutput(tmpName, upload.value.name, env).Success?
        then Some(RevisionAi.BuildOutput(tmpName, upload.value.name, env).value)
        else old(s.output)
    ensures s.callGPT == (old(s.callGPT) || (RunsPipeline(old(s.callGPT), upload)
      && RevisionAi.BuildOutput(tmpName, upload.value.name, env).Success?))
    ensures var path := PathAfterUpload(old(s.callGPT), upload, tmpName, old(s.tmpPath));
      && (r.Failure? ==> s.tmpPath == path)
      && (r.Success? ==> (r.value.Some? <==> path.Some? && path.value != "" && fileExists))
      && (r.Success? && r.value.Some? ==> r.value == path && s.tmpPath == None)
      && (r.Success? && r.value.None? ==> s.tmpPath == path)
    ensures old(s.callGPT) ==> s.callGPT && s.output == old(s.output)
    ensures old(s.Consistent()) ==> s.Consistent()
  {
    var handled := HandleUpload(s, upload, tmpName, env);
    if handled.Failure? {
      return Failure(handled.error);
    }
    var removed := s.Cleanup(fileExists);
    r := Success(removed);
  }
}
