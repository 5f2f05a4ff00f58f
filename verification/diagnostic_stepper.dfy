/** The onboarding questionnaire as a state machine: a list of questions with
    their selections, the index of the question on screen, and a completion flag. */
module DiagnosticStepper {
  import opened Wrappers

  datatype Question = Question(text: string, options: seq<string>, selectedOption: Option<string>)

  datatype Stepper = Stepper(questions: seq<Question>, index: nat, isComplete: bool)

  /** The five questions the questionnaire starts with, none answered. */
  const DefaultQuestions: seq<Question> := [
    Question("How would you describe your hair type?",
      ["Straight", "Wavy", "Curly", "Coily"], None),
    Question("What's your main hair concern?",
      ["Dryness", "Breakage", "Frizz", "Scalp Issues", "Hair Loss"], None),
    Question("How often do you wash your hair?",
      ["Daily", "Every other day", "2-3 times a week", "Once a week"], None),
    Question("How often do you use heat styling tools?",
      ["Never", "1-2 times a week", "3-4 times a week", "Daily"], None),
    Question("Have you chemically treated your hair in the past 6 months?",
      ["No treatments", "Color only", "Relaxer/Perm", "Multiple treatments"], None)
  ]

  function Start(questions: seq<Question>): Stepper {
    Stepper(questions, 0, false)
  }

  /** The question on screen; none once the index has run past the list. */
  function CurrentQuestion(st: Stepper): (r: Option<Question>)
    ensures r.None? <==> st.index >= |st.questions|
    ensures r.Some? ==> r.value == st.questions[st.index]
  {
    if st.index < |st.questions| then Some(st.questions[st.index]) else None
  }

  /** Compared as integers: an empty list has no last question, and the last
      question is always one that is on screen. */
  function IsLastQuestion(st: Stepper): (b: bool)
    ensures b <==> st.index + 1 == |st.questions|
    ensures b ==> CurrentQuestion(st).Some? && |st.questions| > 0
  {
    st.index == |st.questions| - 1
  }

  /** The continue button is enabled when the question on screen has an answer. */
  function CanProceed(st: Stepper): (b: bool)
    ensures b <==> st.index < |st.questions| && st.questions[st.index].selectedOption.Some?
  {
    match CurrentQuestion(st)
    case None => false
    case Some(q) => q.selectedOption.Some?
  }

  /** Records `option` as the answer to the question on screen; nothing happens
      when no question is on screen. The option is not checked against the list. */
  function SelectOption(st: Stepper, option: string): (r: Stepper)
    ensures r.index == st.index && r.isComplete == st.isComplete
    ensures |r.questions| == |st.questions|
    ensures forall k :: 0 <= k < |st.questions| && k != st.index ==> r.questions[k] == st.questions[k]
    ensures st.index < |st.questions| ==>
      r.questions[st.index] == st.questions[st.index].(selectedOption := Some(option))
    ensures st.index >= |st.questions| ==> r == st
  {
    if st.index < |st.questions| then
      st.(questions := st.questions[st.index := st.questions[st.index].(selectedOption := Some(option))])
    else st
  }

  /** Moves to the next question, or marks the questionnaire complete on the last one. */
  function NextQuestion(st: Stepper): (r: Stepper)
    ensures r.questions == st.questions
    ensures IsLastQuestion(st) ==> r.isComplete && r.index == st.index
    ensures !IsLastQuestion(st) ==> r.index == st.index + 1 && r.isComplete == st.isComplete
  {
    if IsLastQuestion(st) then st.(isComplete := true) else st.(index := st.index + 1)
  }

  /** `n` presses of the continue button. */
  function Advance(st: Stepper, n: nat): Stepper
    decreases n
  {
    if n == 0 then st else Advance(NextQuestion(st), n - 1)
  }

  /** Selecting an answer enables the continue button exactly when a question is on screen. */
  lemma SelectEnablesProceed(st: Stepper, option: string)
    ensures CanProceed(SelectOption(st, option)) <==> st.index < |st.questions|
  {
  }

  /** From a valid position in a non-empty list, no number of steps moves the
      index outside the list. */
  lemma {:induction false} AdvanceStaysInRange(st: Stepper, n: nat)
    requires 0 < |st.questions| && st.index < |st.questions|
    ensures Advance(st, n).index < |st.questions|
    ensures Advance(st, n).questions == st.questions
    decreases n
  {
    if n > 0 {
      AdvanceStaysInRange(NextQuestion(st), n - 1);
    }
  }

  /** Starting a non-empty questionnaire, each step moves one question on until
      the last is reached; from then on the index stays on the last question and
      the questionnaire is complete. */
  lemma {:induction false} AdvanceFromStart(questions: seq<Question>, n: nat)
    requires 0 < |questions|
    ensures n < |questions| ==> Advance(Start(questions), n) == Stepper(questions, n, false)
    ensures n >= |questions| ==> Advance(Start(questions), n) == Stepper(questions, |questions| - 1, true)
    decreases n
  {
    if n > 0 {
      AdvanceFromStart(questions, n - 1);
      AdvanceSplit(Start(questions), n - 1);
    }
  }

  /** One more step after `n` steps is `n + 1` steps. */
  lemma {:induction false} AdvanceSplit(st: Stepper, n: nat)
    ensures Advance(st, n + 1) == NextQuestion(Advance(st, n))
    decreases n
  {
    if n > 0 {
      AdvanceSplit(NextQuestion(st), n - 1);
    }
  }

  /** An empty questionnaire is never complete: the index just keeps growing. */
  lemma {:induction false} EmptyNeverCompletes(n: nat)
    ensures Advance(Start([]), n) == Stepper([], n, false)
    decreases n
  {
    if n > 0 {
      EmptyNeverCompletes(n - 1);
      AdvanceSplit(Start([]), n - 1);
    }
  }

  /** The question at `k` carries an answer that no later question with the same
      text overrides. */
  predicate LastAnswered(questions: seq<Question>, k: nat)
    requires k < |questions|
  {
    && questions[k].selectedOption.Some?
    && forall j :: k < j < |questions| && questions[j].text == questions[k].text ==>
         questions[j].selectedOption.None?
  }

  /** Some question among the first `n` has text `t` and an answer. */
  predicate AnsweredAmong(questions: seq<Question>, n: nat, t: string)
    requires n <= |questions|
  {
    exists k :: 0 <= k < n && questions[k].text == t && questions[k].selectedOption.Some?
  }

  predicate DistinctTexts(questions: seq<Question>) {
    forall i, j :: 0 <= i < j < |questions| ==> questions[i].text != questions[j].text
  }

  /** The shipped questionnaire: five unanswered questions with distinct texts,
      so every answer given to it shows up in the answers map. */
  lemma DefaultQuestionsWellFormed()
    ensures |DefaultQuestions| == 5
    ensures DistinctTexts(DefaultQuestions)
    ensures forall k :: 0 <= k < |DefaultQuestions| ==> DefaultQuestions[k].selectedOption.None?
    ensures !CanProceed(Start(DefaultQuestions))
  {
  }

  /** The answers map: question text to selected option, for the answered
      questions; a later question with the same text overrides an earlier one. */
  method GetAnswers(st: Stepper) returns (answers: map<string, string>)
    ensures forall t :: t in answers <==> AnsweredAmong(st.questions, |st.questions|, t)
    ensures forall k :: 0 <= k < |st.questions| && LastAnswered(st.questions, k) ==>
      st.questions[k].text in answers && answers[st.questions[k].text] == st.questions[k].selectedOption.value
    ensures DistinctTexts(st.questions) ==>
      forall k :: 0 <= k < |st.questions| && st.questions[k].selectedOption.Some? ==>
        st.questions[k].text in answers && answers[st.questions[k].text] == st.questions[k].selectedOption.value
  {
    var qs := st.questions;
    answers := map[];
    var i := 0;
    while i < |qs|
      invariant 0 <= i <= |qs|
      invariant forall t :: t in answers <==> AnsweredAmong(qs, i, t)
      invariant forall k :: 0 <= k < i && LastAnswered(qs[..i], k) ==>
        qs[k].text in answers && answers[qs[k].text] == qs[k].selectedOption.value
    {
      var q := qs[i];
      if q.selectedOption.Some? {
        answers := answers[q.text := q.selectedOption.value];
      }
      forall k | 0 <= k < i && LastAnswered(qs[..i + 1], k)
        ensures LastAnswered(qs[..i], k)
        ensures q.selectedOption.Some? ==> q.text != qs[k].text
      {
        assert qs[..i + 1][i] == q;
      }
      i := i + 1;
    }
    assert qs[..i] == qs;
  }
}
