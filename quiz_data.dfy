/** The values of the space quiz: answer options, questions, the built-in seed
    questions, the displayed question list, the lookup of a question's correct
    option, the reply of the text-generation service and the label of the
    "next" button. Everything here is pure. */
module QuizData {

  datatype Option<+T> = None | Some(value: T)

  /** One answer a question offers. */
  datatype AnswerOption = AnswerOption(answerText: string, isCorrect: bool)

  /** A multiple-choice question. */
  datatype Question = Question(questionText: string, answerOptions: seq<AnswerOption>)

  /** The five built-in questions, in display order. */
  const InitialQuestions: seq<Question> := [
    Question("What is the largest planet in our solar system?", [
      AnswerOption("Mars", false),
      AnswerOption("Jupiter", true),
      AnswerOption("Earth", false),
      AnswerOption("Saturn", false)]),
    Question("Which galaxy is our solar system a part of?", [
      AnswerOption("Andromeda Galaxy", false),
      AnswerOption("Triangulum Galaxy", false),
      AnswerOption("Milky Way Galaxy", true),
      AnswerOption("Whirlpool Galaxy", false)]),
    Question("What is the name of the first human to walk on the Moon?", [
      AnswerOption("Buzz Aldrin", false),
      AnswerOption("Yuri Gagarin", false),
      AnswerOption("Neil Armstrong", true),
      AnswerOption("Michael Collins", false)]),
    Question("How many planets are in our solar system?", [
      AnswerOption("7", false),
      AnswerOption("8", true),
      AnswerOption("9", false),
      AnswerOption("10", false)]),
    Question("What is a \"shooting star\" actually?", [
      AnswerOption("A star falling from the sky", false),
      AnswerOption("A comet", false),
      AnswerOption("A meteoroid burning up in the atmosphere", true),
      AnswerOption("A distant galaxy", false)])
  ]

  const FinishLabel := "Finish Quiz"
  const NextLabel := "Next Question"

  /** The displayed question list: the seed questions, followed by the generated
      question when there is one. */
  function Questions(dynamicQuestion: Option<Question>): (qs: seq<Question>)
    ensures |qs| == if dynamicQuestion.Some? then |InitialQuestions| + 1 else |InitialQuestions|
    ensures qs[..|InitialQuestions|] == InitialQuestions
    ensures dynamicQuestion.Some? ==> qs[|InitialQuestions|] == dynamicQuestion.value
  {
    if dynamicQuestion.Some? then InitialQuestions + [dynamicQuestion.value] else InitialQuestions
  }

  /** The first option marked correct, as the array `find` on `isCorrect` gives it. */
  function FindCorrect(options: seq<AnswerOption>): (found: Option<AnswerOption>)
    ensures found.None? <==> forall i :: 0 <= i < |options| ==> !options[i].isCorrect
    ensures found.Some? ==> exists i :: 0 <= i < |options| && options[i] == found.value &&
                                     FirstCorrectAt(options, i)
  {
    if options == [] then None
    else if options[0].isCorrect then Some(options[0])
    else
      var rest := FindCorrect(options[1..]);
      FirstCorrectShifted(options, rest);
      rest
  }

  /** A first correct option of the tail, behind an incorrect head, is the
      first correct option of the whole list. */
  lemma FirstCorrectShifted(options: seq<AnswerOption>, found: Option<AnswerOption>)
    requires options != [] && !options[0].isCorrect
    requires found.Some? ==> exists k :: 0 <= k < |options[1..]| && options[1..][k] == found.value &&
                                       FirstCorrectAt(options[1..], k)
    ensures found.Some? ==> exists i :: 0 <= i < |options| && options[i] == found.value &&
                                      FirstCorrectAt(options, i)
  {
    if found.Some? {
      var k :| 0 <= k < |options[1..]| && options[1..][k] == found.value && FirstCorrectAt(options[1..], k);
      assert options[k + 1] == found.value && FirstCorrectAt(options, k + 1);
    }
  }

  /** `options[i]` is correct and no option before it is. */
  predicate FirstCorrectAt(options: seq<AnswerOption>, i: int)
    requires 0 <= i < |options|
  {
    options[i].isCorrect && forall j :: 0 <= j < i ==> !options[j].isCorrect
  }

  /** The number of options marked correct. */
  function CountCorrect(options: seq<AnswerOption>): nat
  {
    if options == [] then 0
    else (if options[0].isCorrect then 1 else 0) + CountCorrect(options[1..])
  }

  /** What every seed question satisfies: four options, exactly one of them correct. */
  predicate WellFormed(q: Question)
  {
    |q.answerOptions| == 4 && CountCorrect(q.answerOptions) == 1
  }

  lemma SeedQuestionsWellFormed()
    ensures |InitialQuestions| == 5
    ensures forall i :: 0 <= i < |InitialQuestions| ==> WellFormed(InitialQuestions[i])
  {
    assert WellFormed(InitialQuestions[0]);
    assert WellFormed(InitialQuestions[1]);
    assert WellFormed(InitialQuestions[2]);
    assert WellFormed(InitialQuestions[3]);
    assert WellFormed(InitialQuestions[4]);
  }

  /** When exactly one option is correct, `find` returns that option. */
  lemma {:induction false} FindCorrectUnique(options: seq<AnswerOption>)
    requires CountCorrect(options) == 1
    ensures FindCorrect(options).Some?
    ensures forall i :: 0 <= i < |options| && options[i].isCorrect ==> options[i] == FindCorrect(options).value
  {
    if options[0].isCorrect {
      NoneCorrect(options[1..]);
    } else {
      FindCorrectUnique(options[1..]);
      forall i | 0 <= i < |options| && options[i].isCorrect
        ensures options[i] == FindCorrect(options).value
      {
        assert options[1..][i - 1] == options[i];
      }
    }
  }

  /** No option is correct exactly when the count is zero. */
  lemma {:induction false} NoneCorrect(options: seq<AnswerOption>)
    ensures CountCorrect(options) == 0 <==> forall i :: 0 <= i < |options| ==> !options[i].isCorrect
  {
    if options != [] {
      NoneCorrect(options[1..]);
      if forall i :: 0 <= i < |options[1..]| ==> !options[1..][i].isCorrect {
        forall i | 1 <= i < |options| ensures !options[i].isCorrect {
          assert options[i] == options[1..][i - 1];
        }
      }
    }
  }

  /** Answering any seed question requests an explanation of its one correct option. */
  lemma SeedQuestionsHaveCorrectOption(i: int)
    requires 0 <= i < |InitialQuestions|
    ensures FindCorrect(InitialQuestions[i].answerOptions).Some?
    ensures forall j :: 0 <= j < 4 && InitialQuestions[i].answerOptions[j].isCorrect ==>
              FindCorrect(InitialQuestions[i].answerOptions).value == InitialQuestions[i].answerOptions[j]
  {
    SeedQuestionsWellFormed();
    FindCorrectUnique(InitialQuestions[i].answerOptions);
  }

  /** The label of the button that moves past an answered question. */
  function NextButtonLabel(currentQuestion: nat, questions: seq<Question>): (caption: string)
    ensures caption == FinishLabel <==> currentQuestion + 1 == |questions|
    ensures caption == NextLabel <==> currentQuestion + 1 != |questions|
  {
    if currentQuestion + 1 == |questions| then FinishLabel else NextLabel
  }

  // --- Replies of the text-generation service -------------------------------

  datatype Part = Part(text: string)
  datatype Content = Content(parts: Option<seq<Part>>)
  datatype Candidate = Candidate(content: Option<Content>)

  /** The outcome of one request: the request or the reading of its JSON body
      threw, or it produced a JSON document whose `candidates` field may be absent. */
  datatype Reply = Threw | Json(candidates: Option<seq<Candidate>>)

  /** The presence check both requests apply to a reply: the text of the first
      part of the first candidate's content, when every step of that path exists. */
  function FirstPartText(reply: Reply): (text: Option<string>)
    ensures text.Some? <==>
      reply.Json? && reply.candidates.Some? && |reply.candidates.value| > 0 &&
      reply.candidates.value[0].content.Some? &&
      reply.candidates.value[0].content.value.parts.Some? &&
      |reply.candidates.value[0].content.value.parts.value| > 0
    ensures text.Some? ==> text.value == reply.candidates.value[0].content.value.parts.value[0].text
  {
    match reply
    case Threw => None
    case Json(candidates) =>
      if candidates.None? || |candidates.value| == 0 then None
      else
        match candidates.value[0].content
        case None => None
        case Some(content) =>
          if content.parts.None? || |content.parts.value| == 0 then None
          else Some(content.parts.value[0].text)
  }

  /** The simplest well-formed reply carrying `text`. */
  function ReplyWith(text: string): (reply: Reply)
    ensures FirstPartText(reply) == Some(text)
  {
    Json(Some([Candidate(Some(Content(Some([Part(text)]))))]))
  }

  /** What `JSON.parse` makes of a generated question's text: it throws, it
      yields a falsy value (`null`, `false`, `0`, an empty string), or it yields
      an object, taken to be a question. The fields of the object are not
      validated. */
  datatype Parsed = ParseThrew | ParsedFalsy | ParsedQuestion(question: Question)

  /** The fixed texts an explanation request falls back to. */
  const MissingExplanation := "Could not fetch explanation."
  const FailedExplanation := "Failed to load explanation due to an error."
}
