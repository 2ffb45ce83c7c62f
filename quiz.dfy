/** The quiz dialog of the web client (frontend/src/components/QuizModal.jsx):
    a question list fetched from the server, a cursor over it, the option
    picked for the current question and a running score. */
module Quiz {
  import opened Text

  /** One multiple-choice question as the server returns it. */
  datatype Question = Question(text: string, options: seq<string>, correctAnswer: int)

  /** The body of the quiz request. */
  datatype Payload = ByDocId(docId: string) | ByText(text: string)

  /** `docId ? { doc_id: docId } : { text: content }`, and the "No content available"
      error when neither is truthy (the empty string standing for every falsy value). */
  function QuizPayload(docId: string, content: string): (r: Option<Payload>)
    ensures r.None? <==> docId == [] && content == []
    ensures docId != [] ==> r == Some(ByDocId(docId))
    ensures docId == [] && content != [] ==> r == Some(ByText(content))
  {
    if docId != [] then Some(ByDocId(docId))
    else if content != [] then Some(ByText(content))
    else None
  }

  /** How many of the questions answered so far were answered correctly:
      entry i of `chosen` is the option picked for question i, or None when
      the question was moved past without an answer. */
  function CountCorrect(questions: seq<Question>, chosen: seq<Option<int>>): (r: nat)
    requires |chosen| <= |questions|
    ensures r <= |chosen|
  {
    if chosen == [] then 0
    else
      var last := |chosen| - 1;
      CountCorrect(questions, chosen[..last])
        + (if chosen[last] == Some(questions[last].correctAnswer) then 1 else 0)
  }

  /** Answering one more question adds one to the count exactly when the answer is right. */
  lemma CountCorrectSnoc(questions: seq<Question>, chosen: seq<Option<int>>, c: Option<int>)
    requires |chosen| < |questions|
    ensures CountCorrect(questions, chosen + [c])
         == CountCorrect(questions, chosen) + (if c == Some(questions[|chosen|].correctAnswer) then 1 else 0)
  {
    assert (chosen + [c])[..|chosen|] == chosen;
  }

  class QuizModal {
    /** The parent's `isOpen` prop. */
    var isOpen: bool
    var loading: bool
    var questions: seq<Question>
    var currentIndex: nat
    var selectedOption: Option<int>
    var isAnswered: bool
    var score: nat
    var showResult: bool
    /** The answers given so far, one per question the cursor has passed or answered. */
    ghost var chosen: seq<Option<int>>

    /** The cursor stays on the list, the answers recorded cover exactly the
        questions before the cursor plus the current one once answered, and
        the score counts the right ones among them. */
    ghost predicate Valid()
      reads this
      ensures Valid() ==> score <= currentIndex + (if isAnswered then 1 else 0) <= |questions|
    {
      && |chosen| == currentIndex + (if isAnswered then 1 else 0)
      && |chosen| <= |questions|
      && (|questions| > 0 ==> currentIndex < |questions|)
      && score == CountCorrect(questions, chosen)
      && (isAnswered <==> selectedOption.Some?)
      && (isAnswered ==> chosen[currentIndex] == selectedOption)
    }

    /** The first render: closed, nothing loaded. */
    constructor ()
      ensures Valid()
      ensures !isOpen && !loading && questions == [] && currentIndex == 0
      ensures selectedOption == None && !isAnswered && score == 0 && !showResult
    {
      isOpen, loading := false, false;
      questions := [];
      currentIndex := 0;
      selectedOption, isAnswered := None, false;
      score, showResult := 0, false;
      chosen := [];
    }

    /** `handleOptionClick(optionIndex)`: only the first click on a question
        counts; it records the option and scores one point when it is the right
        one. The option buttons exist only while a question is on screen. */
    method OptionClick(option: int)
      requires Valid() && |questions| > 0
      modifies this
      ensures Valid()
      ensures old(isAnswered) ==> selectedOption == old(selectedOption) && score == old(score) && isAnswered
      ensures !old(isAnswered) ==> selectedOption == Some(option) && isAnswered
      ensures !old(isAnswered) ==>
        score == old(score) + (if option == questions[currentIndex].correctAnswer then 1 else 0)
      ensures questions == old(questions) && currentIndex == old(currentIndex)
      ensures showResult == old(showResult) && isOpen == old(isOpen) && loading == old(loading)
    {
      if isAnswered {
        return;
      }
      CountCorrectSnoc(questions, chosen, Some(option));
      chosen := chosen + [Some(option)];
      selectedOption := Some(option);
      isAnswered := true;
      if option == questions[currentIndex].correctAnswer {
        score := score + 1;
      }
    }

    /** `resetQuestion()`: forget the option picked for the current question. */
    method ResetQuestion()
      modifies this`selectedOption, this`isAnswered
      ensures selectedOption == None && !isAnswered
    {
      selectedOption := None;
      isAnswered := false;
    }

    /** `handleNext()`: move to the next question, or show the result at the last one. */
    method Next()
      requires Valid()
      modifies this
      ensures Valid()
      ensures old(currentIndex) + 1 < |questions| ==>
        currentIndex == old(currentIndex) + 1 && selectedOption == None && !isAnswered
        && showResult == old(showResult)
      ensures old(currentIndex) + 1 >= |questions| ==>
        showResult && currentIndex == old(currentIndex)
        && selectedOption == old(selectedOption) && isAnswered == old(isAnswered)
      ensures score == old(score) && questions == old(questions)
      ensures isOpen == old(isOpen) && loading == old(loading)
    {
      if currentIndex + 1 < |questions| {
        if !isAnswered {
          CountCorrectSnoc(questions, chosen, None);
          chosen := chosen + [None];
        }
        currentIndex := currentIndex + 1;
        ResetQuestion();
      } else {
        showResult := true;
      }
    }

    /** `fetchQuiz()`: `response` is what the server answers (None for any
        failure). On success the list is replaced and the quiz starts over; on
        failure, and when there is nothing to send, the dialog is closed and the
        quiz state is kept. Returns the request body sent, if any. */
    method Fetch(docId: string, content: string, response: Option<seq<Question>>)
      returns (sent: Option<Payload>)
      requires Valid()
      modifies this
      ensures Valid() && !loading
      ensures sent == QuizPayload(docId, content)
      ensures sent.Some? && response.Some? ==>
        questions == response.value && currentIndex == 0 && score == 0 && !showResult
        && selectedOption == None && !isAnswered && isOpen == old(isOpen)
      ensures sent.None? || response.None? ==>
        !isOpen && questions == old(questions) && currentIndex == old(currentIndex)
        && score == old(score) && showResult == old(showResult)
        && selectedOption == old(selectedOption) && isAnswered == old(isAnswered)
    {
      loading := true;
      sent := QuizPayload(docId, content);
      if sent.Some? && response.Some? {
        questions := response.value;
        currentIndex := 0;
        score := 0;
        showResult := false;
        chosen := [];
        ResetQuestion();
      } else {
        isOpen := false;
      }
      loading := false;
    }

    /** The effect on `isOpen`: it runs when the prop changes, and fetches on
        opening only while no question is loaded. */
    method SetOpen(open: bool, docId: string, content: string, response: Option<seq<Question>>)
      returns (fetched: bool)
      requires Valid() && open != isOpen
      modifies this
      ensures Valid()
      ensures fetched <==> open && old(questions) == []
      ensures !fetched ==>
        && isOpen == open && loading == old(loading) && questions == old(questions)
        && currentIndex == old(currentIndex) && score == old(score)
        && selectedOption == old(selectedOption) && isAnswered == old(isAnswered)
        && showResult == old(showResult)
      ensures fetched && QuizPayload(docId, content).Some? && response.Some? ==>
        && isOpen && !loading && questions == response.value && currentIndex == 0 && score == 0
        && !showResult && selectedOption == None && !isAnswered
      ensures fetched && (QuizPayload(docId, content).None? || response.None?) ==>
        && !isOpen && !loading && questions == old(questions) && currentIndex == old(currentIndex)
        && score == old(score) && showResult == old(showResult)
        && selectedOption == old(selectedOption) && isAnswered == old(isAnswered)
    {
      isOpen := open;
      fetched := open && questions == [];
      if fetched {
        var _ := Fetch(docId, content, response);
      }
    }

    /** The "Try Again" button: fetch a fresh quiz. */
    method Restart(docId: string, content: string, response: Option<seq<Question>>)
      returns (sent: Option<Payload>)
      requires Valid()
      modifies this
      ensures Valid() && !loading && sent == QuizPayload(docId, content)
      ensures sent.Some? && response.Some? ==>
        && questions == response.value && currentIndex == 0 && score == 0 && !showResult
        && selectedOption == None && !isAnswered && isOpen == old(isOpen)
      ensures sent.None? || response.None? ==>
        && !isOpen && questions == old(questions) && currentIndex == old(currentIndex)
        && score == old(score) && showResult == old(showResult)
        && selectedOption == old(selectedOption) && isAnswered == old(isAnswered)
    {
      sent := Fetch(docId, content, response);
    }
  }
}
