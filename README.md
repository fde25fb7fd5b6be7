# Space quiz: the quiz view as a verified state machine

The space quiz is a single-page multiple-choice quiz. Its page component holds nine
state cells: the current question index, the score, whether the score screen is shown,
the selected answer's correctness, whether an answer was submitted, the explanation
text, whether an explanation is loading, the generated ("dynamic") question, and
whether a question is being generated. Four click handlers update these cells, and so do
the completions of two requests to a text-generation service. One request explains the
correct answer. The other generates a sixth question.

This project models that state machine in Dafny.

- `quiz_data.dfy` (module `QuizData`) holds the pure parts:
  - the answer option and question records and the five seed questions;
  - the displayed question list (the seeds plus the optional generated question);
  - the `find` of a question's correct option;
  - the presence check both requests apply to a service reply;
  - the three outcomes of parsing a generated question's text;
  - the label of the "next" button.
- `quiz_view.dfy` (module `QuizView`) holds the class `Quiz`:
  - its fields are the nine cells;
  - each handler, and each branch of a request's completion, is one method;
  - every method states the whole new state of the cells.

`Quiz.Valid()` is the invariant every step keeps:
- the index is at most the list length;
- an answer is submitted exactly when a selection is recorded;
- the score screen and the loading screen never show a generated question;
- an explanation can be loading only while a request for one is in flight;
- the score never exceeds the number of answer clicks so far.

Two ghost counters track the last two: answer clicks, and explanation requests still in flight.

Each handler requires the screen that shows its button, except `RestartQuiz`, which
requires only that no question is generating. While a question is generating, the
loading screen hides every button. The answer buttons are disabled once an answer is
submitted. The question screen can only be drawn when the current index names a question.

The model follows the code as written. Five behaviours stand out, and each is shown by a
scenario method whose contract pins the outcome:
- Ending the quiz on the last question leaves the index where it was and drops the
  generated question. After a round that included the generated question, the index
  therefore equals the new list length (`Quiz.NextQuestion`).
- Starting a generation hides the score screen, and a failed generation does not show it
  again. After such a round, a failed generation returns to the question screen with
  index 5 in a list of 5 (`FailedRegenerationIndex`). The question screen would then look
  up a question that does not exist.
- A generated text that parses to a falsy value such as `null` takes the success branch.
  It stores no question but still moves the index to 5, which leads to the same state
  (`FalsyGenerationIndex`).
- A generated question is used without validation. One with no correct option becomes the
  current question, and answering it requests no explanation (`UnvalidatedGeneratedQuestion`).
- The score screen shows the score out of the current list length. After a perfect round
  that includes the generated question, it reads 6 out of 5 (`DynamicRoundScore`).

## Model

| member | source | states |
|---|---|---|
| `QuizData.Questions` | app/page.tsx:88-89 | the list has 5 entries, or 6 when a generated question exists; its first five are the seed questions; the generated question is the last entry |
| `QuizData.FindCorrect` | app/page.tsx:209 | the result is absent exactly when no option is correct; otherwise it is an option at some index that is correct, with no correct option before it |
| `QuizData.SeedQuestionsWellFormed` | app/page.tsx:40-86 | there are five seed questions, and each has four options of which exactly one is correct |
| `QuizData.FirstCorrectShifted` | app/page.tsx:209 | when the head option is incorrect, the first correct option of the tail is the first correct option of the whole list |
| `QuizData.FindCorrectUnique` | app/page.tsx:209 | when exactly one option is correct, `find` returns an option, and every correct option equals it |
| `QuizData.SeedQuestionsHaveCorrectOption` | app/page.tsx:207-217 | for every seed question, the lookup of the correct option succeeds and returns the option marked correct, so an answer click on a seed question always requests an explanation of that option |
| `QuizData.NextButtonLabel` | app/page.tsx:341 | the label is "Finish Quiz" exactly when the index is the last of the list, and "Next Question" otherwise |
| `QuizData.FirstPartText` | app/page.tsx:108-111 | a text is extracted exactly when the reply did not throw and has a non-empty candidate list whose first candidate has content with a non-empty part list; the text is that first part's text |
| `QuizData.ReplyWith` | app/page.tsx:108-111 | the minimal well-formed reply carrying a text passes the presence check and yields that same text |
| `QuizView.Quiz.constructor` | app/page.tsx:21-37 | index 0, score 0, no score screen, no selection, nothing submitted, empty explanation, nothing loading, no generated question; the invariant holds |
| `QuizView.Quiz.AnswerClick` | app/page.tsx:203-218 | records the chosen option's correctness and marks the answer submitted; the score rises by exactly one when the option is correct and is unchanged otherwise; an explanation is requested exactly when the question has a correct option, with the question text and the first correct option's text; only then do the explanation cells change; index, screen and generated question are unchanged; the invariant (score at most the number of clicks) is kept |
| `QuizView.Quiz.ExplanationRequested` | app/page.tsx:92-94 | explanation loading starts and the explanation is cleared; nothing else changes |
| `QuizView.Quiz.ExplanationReceived` | app/page.tsx:107-121 | a well-formed reply sets the explanation to its text; a reply missing a field gives "Could not fetch explanation."; a reply that threw gives "Failed to load explanation due to an error."; loading ends in every case; nothing else changes |
| `QuizView.Quiz.NextQuestion` | app/page.tsx:221-232 | before the last question, the index advances by one and the selection, submitted flag and explanation are cleared, with the score kept; on the last question, the score screen is shown, the generated question is dropped, and the index, score and answer are untouched; the score screen appears exactly when the button read "Finish Quiz"; the index then equals the new list length exactly when a generated question was dropped |
| `QuizView.Quiz.RestartQuiz` | app/page.tsx:235-243 | from any state that is not loading, every cell except the two loading flags returns to its initial value; restarting an already reset quiz changes nothing (idempotence) |
| `QuizView.Quiz.GenerationRequested` | app/page.tsx:125-128 | generation loading starts, the generated question is cleared and the score screen is hidden; index, score and answer cells are unchanged |
| `QuizView.Quiz.GenerationReceived` | app/page.tsx:179-199 | loading ends and the score screen stays hidden in every case; when the request threw, a reply field is missing or the text does not parse, nothing else changes; otherwise the index becomes 5 and the answer cells are cleared, with the score kept; a parsed question, whatever its fields, becomes the last entry of the list and the current one; a falsy parse result stores no question, leaving the index equal to the list length |
| `QuizView.PlaySeedRound` | app/page.tsx:203-232 | answering the five seed questions correctly from a fresh quiz ends on the score screen with score 5, index 4 and no generated question |
| `QuizView.SeedRoundScore` | app/page.tsx:259-261 | after five correct answers with no generated question, the score screen shows 5 out of 5 |
| `QuizView.DynamicRoundScore` | app/page.tsx:228-231 | after a perfect seed round and a correctly answered generated question, the score screen shows a score of 6 out of a list of 5 |
| `QuizView.FailedRegenerationIndex` | app/page.tsx:126-128 | a failed generation after a quiz that ended on the generated question returns to the question screen with index 5 in a list of length 5 |
| `QuizView.FalsyGenerationIndex` | app/page.tsx:184-191 | a generation whose text parses to a falsy value after a seed round returns to the question screen with index 5 in a list of length 5 |
| `QuizView.UnvalidatedGeneratedQuestion` | app/page.tsx:184-185 | a generated question with no correct option, and not four options, becomes the current question; answering it requests no explanation and keeps the score |

## Left out

- The HTTP requests, the request bodies, the prompts, the API address and key: they are network I/O. Each reply is the `Reply` datatype. It holds either the exception, or the parsed JSON document as far as the presence check reads it.
- `JSON.parse` of a generated question: it is a foreign parser. It is a function parameter of `GenerationReceived` whose result is the `Parsed` datatype: it threw, it gave a falsy value, or it gave a question.
- QuizView.Quiz.GenerationReceived: a parse result that is a truthy value without the fields of a question (say `{}` or `42`) is not modelled. The page would append it as the sixth entry and fail when drawing its options; the model only stores values shaped like a question.
- A reply part without a `text` field: the page would store `undefined` as the explanation or try to parse it. The model's parts always carry a text.
- Interleaving of asynchronous steps: each handler and each completion is one atomic step. No step checks that a reply belongs to the current question, so an explanation arriving late overwrites the current one. The model allows this because `ExplanationReceived` may run in any state with a request in flight.
- The render-time batching of state updates and the closure that `setScore(score + 1)` captures: each handler reads the state before it and writes the state after it. The score written back after a generation is the score when the request started. That is the same value, because no handler can run while the loading screen is shown.
- `QuizView.Quiz.RestartQuiz`: requires that no question is generating. The restart button only exists on the score screen, so the stale score a generation writes back after a restart cannot happen through the page.
- `QuizView.Quiz.AnswerClick`: takes the index of the clicked option rather than the `(isCorrect, text)` pair the button passes. The text argument is unused in the page.
- The JSX rendering, the styling and the colouring of answered options. The loading indicator texts are also left out.
- Error logging to the console.
- `app/layout.tsx` (page metadata, fonts, the root layout): it holds no logic.
