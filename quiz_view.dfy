/** The quiz view: the nine state cells the page holds and the handlers and
    request completions that update them. Each handler, and each completion
    of a request, is one atomic step. */
module QuizView {
  import opened QuizData

  /** What an answer click asks the text-generation service to explain. */
  datatype ExplanationRequest = ExplanationRequest(questionText: string, correctAnswerText: string)

  class Quiz {
    var currentQuestion: nat
    var score: nat
    var showScore: bool
    var selectedAnswer: Option<bool>
    var answerSubmitted: bool
    var explanation: string
    var isLoadingExplanation: bool
    var dynamicQuestion: Option<Question>
    var isLoadingDynamicQuestion: bool

    // Answer clicks so far, and explanation requests not yet completed.
    ghost var answers: nat
    ghost var pendingExplanations: nat

    /** The displayed question list. */
    function QuestionList(): seq<Question>
      reads this
    {
      Questions(dynamicQuestion)
    }

    /** The loading screen takes precedence over the score screen, which takes
        precedence over the question screen. */
    predicate OnScoreScreen()
      reads this
    {
      !isLoadingDynamicQuestion && showScore
    }

    predicate OnQuestionScreen()
      reads this
    {
      !isLoadingDynamicQuestion && !showScore
    }

    /** What every step keeps. The index may equal the list length: the list
        shrinks under it when the quiz ends on the generated question. */
    ghost predicate Valid()
      reads this
    {
      currentQuestion <= |QuestionList()| &&
      (answerSubmitted <==> selectedAnswer.Some?) &&
      (showScore ==> dynamicQuestion.None?) &&
      (isLoadingDynamicQuestion ==> !showScore && dynamicQuestion.None?) &&
      (isLoadingExplanation ==> pendingExplanations > 0) &&
      score <= answers
    }

    /** The state a restart produces, apart from the two loading flags. */
    predicate IsReset()
      reads this
    {
      currentQuestion == 0 && score == 0 && !showScore && selectedAnswer.None? &&
      !answerSubmitted && explanation == "" && dynamicQuestion.None?
    }

    constructor ()
      ensures Valid() && IsReset()
      ensures !isLoadingExplanation && !isLoadingDynamicQuestion
      ensures answers == 0 && pendingExplanations == 0
    {
      currentQuestion := 0;
      score := 0;
      showScore := false;
      selectedAnswer := None;
      answerSubmitted := false;
      explanation := "";
      isLoadingExplanation := false;
      dynamicQuestion := None;
      isLoadingDynamicQuestion := false;
      answers := 0;
      pendingExplanations := 0;
    }

    /** A click on option `choice` of the displayed question. The buttons are
        disabled once an answer is submitted; the question itself must exist,
        or the screen could not have been drawn. */
    method AnswerClick(choice: nat) returns (request: Option<ExplanationRequest>)
      requires Valid() && OnQuestionScreen() && !answerSubmitted
      requires currentQuestion < |QuestionList()|
      requires choice < |QuestionList()[currentQuestion].answerOptions|
      modifies this
      ensures Valid()
      ensures var chosen := old(QuestionList()[currentQuestion].answerOptions[choice]);
              selectedAnswer == Some(chosen.isCorrect) && answerSubmitted &&
              score == old(score) + (if chosen.isCorrect then 1 else 0)
      ensures var q := old(QuestionList()[currentQuestion]);
              (request.Some? <==> FindCorrect(q.answerOptions).Some?) &&
              (request.Some? ==>
                 request.value == ExplanationRequest(q.questionText, FindCorrect(q.answerOptions).value.answerText))
      ensures request.Some? ==> isLoadingExplanation && explanation == "" &&
                                pendingExplanations == old(pendingExplanations) + 1
      ensures request.None? ==> isLoadingExplanation == old(isLoadingExplanation) &&
                                explanation == old(explanation) &&
                                pendingExplanations == old(pendingExplanations)
      ensures currentQuestion == old(currentQuestion) && showScore == old(showScore)
      ensures dynamicQuestion == old(dynamicQuestion)
      ensures isLoadingDynamicQuestion == old(isLoadingDynamicQuestion)
      ensures answers == old(answers) + 1
    {
      var q := QuestionList()[currentQuestion];
      var isCorrect := q.answerOptions[choice].isCorrect;
      selectedAnswer := Some(isCorrect);
      answerSubmitted := true;
      var correct := FindCorrect(q.answerOptions);
      if isCorrect {
        score := score + 1;
      }
      answers := answers + 1;
      request := None;
      if correct.Some? {
        request := Some(ExplanationRequest(q.questionText, correct.value.answerText));
        ExplanationRequested();
      }
    }

    /** The part of an explanation request that runs before its first await. */
    method ExplanationRequested()
      requires Valid()
      modifies this
      ensures Valid()
      ensures isLoadingExplanation && explanation == ""
      ensures pendingExplanations == old(pendingExplanations) + 1
      ensures currentQuestion == old(currentQuestion) && score == old(score)
      ensures showScore == old(showScore) && selectedAnswer == old(selectedAnswer)
      ensures answerSubmitted == old(answerSubmitted) && dynamicQuestion == old(dynamicQuestion)
      ensures isLoadingDynamicQuestion == old(isLoadingDynamicQuestion) && answers == old(answers)
    {
      isLoadingExplanation := true;
      explanation := "";
      pendingExplanations := pendingExplanations + 1;
    }

    /** The completion of an explanation request, whenever it arrives: a
        well-formed reply gives its text, a reply missing a field gives one fixed
        text, a request that threw gives another; loading ends in every case.
        The reply is not checked against the question now displayed. */
    method ExplanationReceived(reply: Reply)
      requires Valid() && pendingExplanations > 0
      modifies this
      ensures Valid()
      ensures reply.Threw? ==> explanation == FailedExplanation
      ensures reply.Json? && FirstPartText(reply).Some? ==> explanation == FirstPartText(reply).value
      ensures reply.Json? && FirstPartText(reply).None? ==> explanation == MissingExplanation
      ensures !isLoadingExplanation && pendingExplanations == old(pendingExplanations) - 1
      ensures currentQuestion == old(currentQuestion) && score == old(score)
      ensures showScore == old(showScore) && selectedAnswer == old(selectedAnswer)
      ensures answerSubmitted == old(answerSubmitted) && dynamicQuestion == old(dynamicQuestion)
      ensures isLoadingDynamicQuestion == old(isLoadingDynamicQuestion) && answers == old(answers)
    {
      match reply {
        case Threw =>
          explanation := FailedExplanation;
        case Json(_) =>
          var text := FirstPartText(reply);
          if text.Some? {
            explanation := text.value;
          } else {
            explanation := MissingExplanation;
          }
      }
      isLoadingExplanation := false;
      pendingExplanations := pendingExplanations - 1;
    }

    /** A click on the button shown once an answer is submitted. Before the last
        question it moves on and clears the answer; on the last one it shows the
        score screen and drops the generated question, leaving the index where
        it was. */
    method NextQuestion()
      requires Valid() && OnQuestionScreen() && answerSubmitted
      requires currentQuestion < |QuestionList()|
      modifies this
      ensures Valid()
      ensures old(currentQuestion + 1 < |QuestionList()|) ==>
                currentQuestion == old(currentQuestion) + 1 && selectedAnswer.None? &&
                !answerSubmitted && explanation == "" &&
                !showScore && dynamicQuestion == old(dynamicQuestion)
      ensures old(currentQuestion + 1 >= |QuestionList()|) ==>
                currentQuestion == old(currentQuestion) && selectedAnswer == old(selectedAnswer) &&
                answerSubmitted && explanation == old(explanation) &&
                showScore && dynamicQuestion.None?
      ensures showScore <==> old(NextButtonLabel(currentQuestion, QuestionList())) == FinishLabel
      ensures showScore ==> (currentQuestion == |QuestionList()| <==> old(dynamicQuestion).Some?)
      ensures score == old(score) && isLoadingExplanation == old(isLoadingExplanation)
      ensures isLoadingDynamicQuestion == old(isLoadingDynamicQuestion)
      ensures answers == old(answers) && pendingExplanations == old(pendingExplanations)
    {
      var nextQuestion := currentQuestion + 1;
      if nextQuestion < |QuestionList()| {
        currentQuestion := nextQuestion;
        selectedAnswer := None;
        answerSubmitted := false;
        explanation := "";
      } else {
        showScore := true;
        dynamicQuestion := None;
      }
    }

    /** A click on "Restart Quiz". Everything but the two loading flags goes
        back to its initial value, whatever it was; so a second restart
        changes nothing. */
    method RestartQuiz()
      requires Valid() && !isLoadingDynamicQuestion
      modifies this
      ensures Valid() && IsReset()
      ensures isLoadingExplanation == old(isLoadingExplanation)
      ensures isLoadingDynamicQuestion == old(isLoadingDynamicQuestion)
      ensures answers == old(answers) && pendingExplanations == old(pendingExplanations)
      ensures old(IsReset()) ==>
                currentQuestion == old(currentQuestion) && score == old(score) &&
                showScore == old(showScore) && selectedAnswer == old(selectedAnswer) &&
                answerSubmitted == old(answerSubmitted) && explanation == old(explanation) &&
                dynamicQuestion == old(dynamicQuestion)
    {
      currentQuestion := 0;
      score := 0;
      showScore := false;
      selectedAnswer := None;
      answerSubmitted := false;
      explanation := "";
      dynamicQuestion := None;
    }

    /** A click on "Generate New Question": the part that runs before the
        request is sent. It leaves the score screen for the loading screen. */
    method GenerationRequested()
      requires Valid() && OnScoreScreen()
      modifies this
      ensures Valid()
      ensures isLoadingDynamicQuestion && dynamicQuestion.None? && !showScore
      ensures currentQuestion == old(currentQuestion) && score == old(score)
      ensures selectedAnswer == old(selectedAnswer) && answerSubmitted == old(answerSubmitted)
      ensures explanation == old(explanation) && isLoadingExplanation == old(isLoadingExplanation)
      ensures answers == old(answers) && pendingExplanations == old(pendingExplanations)
    {
      isLoadingDynamicQuestion := true;
      dynamicQuestion := None;
      showScore := false;
    }

    /** The completion of a generation request. It fails when the request threw,
        when a field of the reply is missing, or when the reply's text does not
        parse; then only the loading flag changes, so the score screen, hidden
        when the request started, stays hidden. Otherwise whatever the text
        parses to is stored as the generated question, the index moves to the
        first slot after the seed questions and the answer cells are cleared,
        with the score kept. A falsy parse result is stored too, and then no
        question is appended: the index is left one past the end of the list. */
    method GenerationReceived(reply: Reply, parse: string -> Parsed)
      requires Valid() && isLoadingDynamicQuestion
      modifies this
      ensures Valid()
      ensures !isLoadingDynamicQuestion && !showScore
      ensures FirstPartText(reply).None? || parse(FirstPartText(reply).value).ParseThrew? ==>
                dynamicQuestion.None? &&
                currentQuestion == old(currentQuestion) && selectedAnswer == old(selectedAnswer) &&
                answerSubmitted == old(answerSubmitted) && explanation == old(explanation)
      ensures FirstPartText(reply).Some? && !parse(FirstPartText(reply).value).ParseThrew? ==>
                currentQuestion == |InitialQuestions| &&
                selectedAnswer.None? && !answerSubmitted && explanation == ""
      ensures FirstPartText(reply).Some? && parse(FirstPartText(reply).value).ParsedQuestion? ==>
                var q := parse(FirstPartText(reply).value).question;
                dynamicQuestion == Some(q) &&
                currentQuestion + 1 == |QuestionList()| && QuestionList()[currentQuestion] == q
      ensures FirstPartText(reply).Some? && parse(FirstPartText(reply).value).ParsedFalsy? ==>
                dynamicQuestion.None? && currentQuestion == |QuestionList()|
      ensures score == old(score) && isLoadingExplanation == old(isLoadingExplanation)
      ensures answers == old(answers) && pendingExplanations == old(pendingExplanations)
    {
      var text := FirstPartText(reply);
      if text.Some? {
        var parsed := parse(text.value);
        if !parsed.ParseThrew? {
          dynamicQuestion := if parsed.ParsedQuestion? then Some(parsed.question) else None;
          currentQuestion := |InitialQuestions|;
          score := score;  // written back unchanged
          selectedAnswer := None;
          answerSubmitted := false;
          explanation := "";
        }
      }
      isLoadingDynamicQuestion := false;
    }
  }

  /** Answers every seed question correctly and clicks past each one, starting
      from a fresh quiz. */
  method PlaySeedRound(quiz: Quiz)
    requires quiz.Valid() && quiz.IsReset() && !quiz.isLoadingDynamicQuestion
    modifies quiz
    ensures quiz.Valid() && quiz.OnScoreScreen()
    ensures quiz.score == 5 && quiz.currentQuestion == 4 && quiz.dynamicQuestion.None?
  {
    // The correct option of each seed question, in order.
    var request := quiz.AnswerClick(1);
    quiz.NextQuestion();
    request := quiz.AnswerClick(2);
    quiz.NextQuestion();
    request := quiz.AnswerClick(2);
    quiz.NextQuestion();
    request := quiz.AnswerClick(1);
    quiz.NextQuestion();
    request := quiz.AnswerClick(2);
    quiz.NextQuestion();
  }

  /** After five correct answers the score screen reads 5 out of 5, reached by
      the click on "Finish Quiz". */
  method SeedRoundScore() returns (score: nat, total: nat)
    ensures score == 5 && total == 5
  {
    var quiz := new Quiz();
    PlaySeedRound(quiz);
    score, total := quiz.score, |quiz.QuestionList()|;
  }

  /** A generated question answered correctly after a perfect seed round: the
      score screen then shows 6 out of 5, since ending the quiz drops the
      generated question from the list. */
  method DynamicRoundScore() returns (score: nat, total: nat, onScoreScreen: bool)
    ensures onScoreScreen && score == 6 && total == 5
  {
    var quiz := new Quiz();
    PlaySeedRound(quiz);
    quiz.GenerationRequested();
    var extra := Question("Which planet has the most known moons?", [
      AnswerOption("Saturn", true), AnswerOption("Mars", false),
      AnswerOption("Venus", false), AnswerOption("Mercury", false)]);
    quiz.GenerationReceived(ReplyWith("{}"), _ => ParsedQuestion(extra));
    var _ := quiz.AnswerClick(0);
    quiz.NextQuestion();
    score, total, onScoreScreen := quiz.score, |quiz.QuestionList()|, quiz.OnScoreScreen();
  }

  /** A failed generation after a quiz that ended on a generated question:
      the question screen comes back with an index one past the end of the
      list. */
  method FailedRegenerationIndex() returns (onQuestionScreen: bool, index: nat, length: nat)
    ensures onQuestionScreen && index == 5 && length == 5
  {
    var quiz := new Quiz();
    PlaySeedRound(quiz);
    quiz.GenerationRequested();
    var extra := Question("Which planet has the most known moons?", [
      AnswerOption("Saturn", true), AnswerOption("Mars", false),
      AnswerOption("Venus", false), AnswerOption("Mercury", false)]);
    quiz.GenerationReceived(ReplyWith("{}"), _ => ParsedQuestion(extra));
    var _ := quiz.AnswerClick(0);
    quiz.NextQuestion();
    quiz.GenerationRequested();
    quiz.GenerationReceived(Threw, _ => ParsedQuestion(extra));
    onQuestionScreen, index, length := quiz.OnQuestionScreen(), quiz.currentQuestion, |quiz.QuestionList()|;
  }

  /** A generation whose text parses to `null` after a seed round: the page
      takes its success branch, stores no question and returns to the question
      screen with an index one past the end of the list. */
  method FalsyGenerationIndex() returns (onQuestionScreen: bool, index: nat, length: nat)
    ensures onQuestionScreen && index == 5 && length == 5
  {
    var quiz := new Quiz();
    PlaySeedRound(quiz);
    quiz.GenerationRequested();
    quiz.GenerationReceived(ReplyWith("null"), _ => ParsedFalsy);
    onQuestionScreen, index, length := quiz.OnQuestionScreen(), quiz.currentQuestion, |quiz.QuestionList()|;
  }

  /** A generated question is used without validation: one whose options are
      all marked incorrect becomes the current question, and answering it
      requests no explanation and leaves the score as it was. */
  method UnvalidatedGeneratedQuestion() returns (current: Question, request: Option<ExplanationRequest>, score: nat)
    ensures !WellFormed(current) && request.None? && score == 5
  {
    var quiz := new Quiz();
    PlaySeedRound(quiz);
    quiz.GenerationRequested();
    var noneCorrect := Question("Which planet is closest to the Sun?", [
      AnswerOption("Venus", false), AnswerOption("Mars", false)]);
    quiz.GenerationReceived(ReplyWith("{}"), _ => ParsedQuestion(noneCorrect));
    current := quiz.QuestionList()[quiz.currentQuestion];
    request := quiz.AnswerClick(0);
    score := quiz.score;
  }
}
