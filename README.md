# Respondent questionnaire — a Dafny model

This project models the respondent page of a small yes/no questionnaire
(`src/pages/Index.tsx`). The page asks five fixed questions one at a time
and records each answer under the question's id. After the last question it
shows one of four result messages, chosen by how many answers were "yes".
A reset button starts the questionnaire over.

Two modules:

- `Questionnaire` (`questionnaire.dfy`) holds the question list, the tally of
  "yes" answers (`YesCount`) and the classifier `GetResult`, with lemmas about
  the tally: its bound, its all-yes and all-no cases, and how one recorded
  answer changes it.
- `RespondentFlow` (`quiz.dfy`) holds the page's three state fields. They appear
  twice. The value `QuizState` with its transition function `Step` and its
  iteration `Run` is the specification. The class `Quiz` is the page state
  that its handlers `HandleAnswer` and `ResetQuiz` update in place; each
  method's `ensures` ties the new state to `Step` or to `Initial`. The lemmas
  prove the following:
  - the invariant `Inv` holds in every reachable state, so the question index
    is always in bounds;
  - answering n questions from the start leaves the page on question n with
    exactly those answers recorded;
  - answering all five turns the result view on, with one entry per question
    id;
  - the message shown then is the band of the number of "yes" answers given.

The page's 300 ms delay before advancing is modelled as an immediate
transition.

The respondent page picks its message with four hard-coded thresholds. The
admin page edits result rules (yes-count ranges), but the respondent page never
reads them, so the model has no rule-based evaluator. The threshold for the top
band is the literal 5. It is not `questions.length`, and the model keeps the
literal. A tally of 6 or more would fall into the "balanced" band, but
`ReachableYesCount` shows that no tally above 5 can occur.

## Model

| member | source | states |
|---|---|---|
| `Questionnaire.QuestionIds` | src/pages/Index.tsx:11-17 | there are five questions, and the question at position i has id i + 1 |
| `Questionnaire.IdsDistinct` | src/pages/Index.tsx:11-17 | two questions share an id only if they are the same question |
| `Questionnaire.YesCount` | src/pages/Index.tsx:20 | the tally is the number of entries whose value is true. False entries and absent ids count nothing, so it never exceeds the number of recorded answers |
| `Questionnaire.YesCountZero` | src/pages/Index.tsx:20 | the tally is 0 exactly when every recorded answer is "no", or when nothing is recorded |
| `Questionnaire.YesCountFull` | src/pages/Index.tsx:20 | the tally equals the number of recorded answers exactly when every one of them is "yes" |
| `Questionnaire.YesCountUpdate` | src/pages/Index.tsx:20 | recording one answer adds 1 to the tally if that answer is "yes", and subtracts 1 if it replaces a "yes" |
| `Questionnaire.GetResult` | src/pages/Index.tsx:19-31 | the result is always one of the four messages. It is the leader message exactly when the tally is 5, the balanced one exactly when the tally is at least 3 and not 5, the individualist one exactly for a tally of 1 or 2, and the independent-thinker one exactly for a tally of 0 |
| `Questionnaire.GetResultByCount` | src/pages/Index.tsx:19-31 | two answer maps with the same tally get the same message |
| `Questionnaire.YesCountAtMostQuestions` | src/pages/Index.tsx:11-20 | when every key of the answers is a question id, the tally is at most the number of questions |
| `RespondentFlow.Step` | src/pages/Index.tsx:38-51 | answering records the answer under the current question's id and changes no other entry. Before the last question the index goes up by exactly 1 and the result flag is unchanged. At the last question the index stays and the result view turns on. The index stays in bounds |
| `RespondentFlow.Run` | src/pages/Index.tsx:38-51 | answering any sequence of answers keeps the index in bounds |
| `RespondentFlow.InitialInv` | src/pages/Index.tsx:34-36 | the initial state (question 0, no answers, no result) satisfies the invariant |
| `RespondentFlow.StepPreservesInv` | src/pages/Index.tsx:34-51 | answering preserves the invariant. The index stays in bounds, the result view appears only at the last question, and the answer keys are exactly the ids of the questions answered so far |
| `RespondentFlow.RunPreservesInv` | src/pages/Index.tsx:34-51 | every state reached from a valid state by answering satisfies the invariant |
| `RespondentFlow.RunFromInitial` | src/pages/Index.tsx:34-51 | from the start, after n < 5 answers the page is on question n, and after 5 it stays on the last question. The result view is on exactly when n = 5, and the answers map each of the first n question ids to the answer given for it |
| `RespondentFlow.RunPastEnd` | src/pages/Index.tsx:38-51 | what the handler's code would do if it ran on the result view, which the page never does: the view stays on, the index stays at the last question, and only the last question's answer is overwritten |
| `RespondentFlow.YesCountOfRun` | src/pages/Index.tsx:19-51 | from the start, the tally of the recorded answers equals the number of "yes" answers given |
| `RespondentFlow.CompleteRun` | src/pages/Index.tsx:19-51 | after all five answers from the start, the result view is on and holds one entry per question. The message is the leader one exactly when all answers were "yes", the independent-thinker one exactly when all were "no", balanced for 3 or 4 "yes" answers and individualist for 1 or 2 |
| `RespondentFlow.ReachableYesCount` | src/pages/Index.tsx:19-51 | in every reachable state the tally is at most 5. On the result view the leader message appears exactly when every recorded answer is "yes" |
| `RespondentFlow.Quiz.constructor` | src/pages/Index.tsx:34-36 | a new page is on the first question, with no answers and the result view off |
| `RespondentFlow.Quiz.HandleAnswer` | src/pages/Index.tsx:38-51 | callable only while the result view is off, as the page shows the answer buttons only then (lines 62-107). The new state is `Step` of the old one. The answer is stored under the current question's id. Before the last question the index goes up by 1 and the result view stays off. At the last question the index stays and the result view turns on. The invariant is kept |
| `RespondentFlow.Quiz.ResetQuiz` | src/pages/Index.tsx:53-57 | from any state, the index is 0, the answers are empty and the result view is off. The invariant holds |
| `RespondentFlow.Quiz.QuestionNumber` | src/pages/Index.tsx:69 | the question number shown is the index plus one, between 1 and the number of questions |
| `RespondentFlow.Quiz.CurrentText` | src/pages/Index.tsx:84 | the question-on-screen lookup is always in bounds and returns that question's text |
| `RespondentFlow.Quiz.ResultText` | src/pages/Index.tsx:119-122 | on the result view, there is one answer per question. The message is the leader one exactly when every answer is "yes", and the independent-thinker one exactly when every answer is "no" |

## Left out

- The 300 ms timers in `handleAnswer` are modelled as immediate. The model does not capture a second click landing before a timer fires, because that is a timing question.
- RespondentFlow.RunPastEnd: describes only what the handler's code would do on the result view. `Quiz.HandleAnswer` requires the result view to be off, because the page renders the answer buttons only then, so the completed state stays fixed until a reset.
- The `questions` constant and the initial `useState` values have no rows of their own, because they are constants. `Questions` and `Initial` model them; `QuestionIds`, `IdsDistinct`, `InitialInv` and `Quiz.constructor` state their properties.
- The progress-bar width (src/pages/Index.tsx:77) is left out: it is a floating-point percentage used only for display.
- The per-question check/cross marks on the result view (src/pages/Index.tsx:139-148) and all other rendering are left out: they are display only.
- `src/pages/Admin.tsx` is not part of this model. It holds remote fetch calls, notifications and form editing, with no local logic.
- `backend/questions/index.py` is not part of this model. It is an HTTP handler whose ordering and position logic is SQL run by the database.
- No rule-based result evaluator is modelled, because no code in the respondent page evaluates the admin-managed rules.
