/** The Streamlit session state that app.py and app2.py keep across reruns of
    the script, and the quiz grading callback both of them define in the same
    words. */
module QuizSession {
  import opened Wrappers
  import opened Text
  import opened Study

  const CorrectMark := "correct"
  const WrongMark := "wrong"

  /** `f"quiz_{i}"`: the widget key of the radio button of question `i`. */
  function QuizKey(i: nat): string {
    "quiz_" + Decimal(i)
  }

  /** `f"{selected_key}_result"`: where the verdict for a widget is kept. */
  function ResultKey(selectedKey: string): string {
    selectedKey + "_result"
  }

  /** Different questions keep their verdicts under different keys, so
      grading one question never overwrites another's verdict. */
  lemma ResultKeysDistinct(i: nat, j: nat)
    requires i != j
    ensures QuizKey(i) != QuizKey(j)
    ensures ResultKey(QuizKey(i)) != ResultKey(QuizKey(j))
  {
    var a, b := ResultKey(QuizKey(i)), ResultKey(QuizKey(j));
    if a == b {
      var di, dj := Decimal(i), Decimal(j);
      assert a == "quiz_" + di + "_result" && b == "quiz_" + dj + "_result";
      assert |di| == |dj|;
      assert di == a[5..5 + |di|];
      assert dj == b[5..5 + |dj|];
      DecimalInjective(i, j);
    }
  }

  /** `st.session_state.get(selected_key)` read as a truth value: the selected
      option, with a missing value (`None`) read as the empty string, which is
      just as falsy. */
  function Selected(widgets: map<string, string>, selectedKey: string): string {
    if selectedKey in widgets then widgets[selectedKey] else ""
  }

  /** The verdict map after `update_selection(selected_key, correct_answer)`. */
  function Graded(quizzes: map<string, string>, widgets: map<string, string>, selectedKey: string, correctAnswer: string): (r: map<string, string>)
    ensures r.Keys == if Selected(widgets, selectedKey) == "" then quizzes.Keys else quizzes.Keys + {ResultKey(selectedKey)}
  {
    var selected := Selected(widgets, selectedKey);
    if selected == "" then quizzes
    else quizzes[ResultKey(selectedKey) := if selected == correctAnswer then CorrectMark else WrongMark]
  }

  /** A chosen option is recorded as "correct" exactly when it equals the
      answer, character for character, and as "wrong" otherwise. */
  lemma GradedVerdict(quizzes: map<string, string>, widgets: map<string, string>, selectedKey: string, correctAnswer: string)
    requires Selected(widgets, selectedKey) != ""
    ensures var r := Graded(quizzes, widgets, selectedKey, correctAnswer);
      && ResultKey(selectedKey) in r
      && (r[ResultKey(selectedKey)] == CorrectMark <==> widgets[selectedKey] == correctAnswer)
      && (r[ResultKey(selectedKey)] == WrongMark <==> widgets[selectedKey] != correctAnswer)
  {
  }

  /** Without a selection nothing is recorded. */
  lemma GradedNoSelection(quizzes: map<string, string>, widgets: map<string, string>, selectedKey: string, correctAnswer: string)
    requires Selected(widgets, selectedKey) == ""
    ensures Graded(quizzes, widgets, selectedKey, correctAnswer) == quizzes
  {
  }

  /** Only the verdict of the graded widget may change. */
  lemma GradedFrame(quizzes: map<string, string>, widgets: map<string, string>, selectedKey: string, correctAnswer: string, k: string)
    requires k != ResultKey(selectedKey)
    ensures var r := Graded(quizzes, widgets, selectedKey, correctAnswer);
      (k in r <==> k in quizzes) && (k in r ==> r[k] == quizzes[k])
  {
  }

  /** Grading again with the same selection changes nothing more, and a new
      selection replaces the earlier verdict rather than adding to it. */
  lemma GradedOverwrites(quizzes: map<string, string>, widgets: map<string, string>, selectedKey: string, correctAnswer: string)
    ensures var once := Graded(quizzes, widgets, selectedKey, correctAnswer);
      Graded(once, widgets, selectedKey, correctAnswer) == once
    ensures forall w :: Selected(w, selectedKey) != "" ==>
      Graded(Graded(quizzes, widgets, selectedKey, correctAnswer), w, selectedKey, correctAnswer)
        == Graded(quizzes, w, selectedKey, correctAnswer)
  {
  }

  /** A file given to `st.file_uploader`, known here by its name; its bytes
      reach the pipeline only through the temporary file it is written to. */
  datatype Upload = Upload(name: string)

  /** `st.session_state` as far as the two apps use it. */
  class Session {
    /** `st.session_state['quizzes']`: verdicts by result key. */
    var quizzes: map<string, string>
    /** `st.session_state['output']`: `None` for the initial, falsy `{}`. */
    var output: Option<Output>
    /** `st.session_state['callGPT']`: whether the pipeline already ran. */
    var callGPT: bool
    /** `st.session_state['tmp_path']`. */
    var tmpPath: Option<string>
    /** The values of the quiz radio buttons, by widget key; a button with
        nothing selected has no entry. */
    var widgets: map<string, string>

    /** The pipeline is marked as run only once there is an output to show. */
    predicate Consistent()
      reads this
    {
      callGPT ==> output.Some?
    }

    /** The initialisation at the top of the script on its first run. */
    constructor ()
      ensures quizzes == map[] && output == None && !callGPT && tmpPath == None && widgets == map[]
      ensures Consistent()
    {
      quizzes := map[];
      output := None;
      callGPT := false;
      tmpPath := None;
      widgets := map[];
    }

    /** `update_selection(selected_key, correct_answer)`. */
    method UpdateSelection(selectedKey: string, correctAnswer: string)
      modifies this`quizzes
      ensures quizzes == Graded(old(quizzes), widgets, selectedKey, correctAnswer)
    {
      var selectedValue := if selectedKey in widgets then widgets[selectedKey] else "";
      if selectedValue != "" {
        if selectedValue == correctAnswer {
          quizzes := quizzes[ResultKey(selectedKey) := CorrectMark];
        } else {
          quizzes := quizzes[ResultKey(selectedKey) := WrongMark];
        }
      }
    }

    /** Picking `option` on the radio button of question `i`: Streamlit stores
        the value under the widget key, then calls the `on_change` callback
        with `(f"quiz_{i}", quiz["answer"])`. */
    method ChooseOption(i: nat, option: string, answer: string)
      modifies this`widgets, this`quizzes
      ensures widgets == old(widgets)[QuizKey(i) := option]
      ensures quizzes == Graded(old(quizzes), widgets, QuizKey(i), answer)
      ensures option != "" ==>
        (ResultKey(QuizKey(i)) in quizzes && (quizzes[ResultKey(QuizKey(i))] == CorrectMark <==> option == answer))
      ensures forall j: nat :: j != i ==>
        (ResultKey(QuizKey(j)) in quizzes <==> ResultKey(QuizKey(j)) in old(quizzes))
        && (ResultKey(QuizKey(j)) in quizzes ==> quizzes[ResultKey(QuizKey(j))] == old(quizzes)[ResultKey(QuizKey(j))])
    {
      widgets := widgets[QuizKey(i) := option];
      UpdateSelection(QuizKey(i), answer);
      forall j: nat | j != i
        ensures ResultKey(QuizKey(j)) != ResultKey(QuizKey(i))
      {
        ResultKeysDistinct(i, j);
      }
    }

    /** The cleanup at the end of the script: a non-empty temporary path whose
        file exists is removed and forgotten. `fileExists` is what
        `os.path.exists` answers; `removed` is the path passed to `os.remove`. */
    method Cleanup(fileExists: bool) returns (removed: Option<string>)
      modifies this`tmpPath
      ensures removed.Some? <==> old(tmpPath).Some? && old(tmpPath).value != "" && fileExists
      ensures removed.Some? ==> removed == old(tmpPath) && tmpPath == None
      ensures removed.None? ==> tmpPath == old(tmpPath)
    {
      if tmpPath.Some? && tmpPath.value != "" && fileExists {
        removed := tmpPath;
        tmpPath := None;
      } else {
        removed := None;
      }
    }
  }
}
