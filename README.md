# Mini Quiz and squares lesson of the Streamlit teaching app

This project models the only parts of the beginner-programming Streamlit app that hold
logic with statable behaviour:

- **The Mini Quiz** (module `Quiz`): a fixed, ordered table of six questions. Each question
  has a prompt, four options and the correct option. The page sets `quiz_answers` in the
  session store only when it is absent. It draws one radio per question, and that radio
  stores its selection under the key `q{i}`. When Submit is pressed, a loop walks the
  questions, reads each `q{i}` with `session_state.get` and adds one point when the stored
  value is exactly that question's answer. The result is reported as `score / 6`, with
  balloons when nothing is missed and a "review the lessons" hint otherwise.
  The session store is the class `Quiz.Session`, whose `entries` map is updated in place.
  A key maps to a radio selection or to the `quiz_answers` list of strings. A missing key
  is `None`, and neither `None` nor a list ever equals an answer string.
- **The squares comprehension** (module `Comprehension`):
  `[n**2 for n in range(base, base + limit)]`, with its worked example.
- **Keys** (module `Keys`): the `f"q{i}"` key text, built from a decimal rendering of `i`
  and proved injective. Because of this, writing one question's key never disturbs another
  question.

The radio and button widgets are inputs. `picks` holds one selected string per question,
and `pressed` says whether Submit was clicked.

The page writes a list of six empty strings under `quiz_answers` and never reads it again.
Scoring reads only `q0`..`q5`, which the radios write. The model keeps that list as its own
store entry, and `Quiz.InitKeepsScore` proves the list cannot affect the score.

## Model

| member | source | states |
|---|---|---|
| `Keys.DecimalString` | streamlit.py:342 | the decimal text of `i` used in `q{i}` is non-empty, all digits, one character exactly when `i < 10`, and ends in the digit of `i % 10` |
| `Keys.DecimalInjective` | streamlit.py:342 | two numbers with the same decimal text are equal |
| `Keys.KeyOf` | streamlit.py:342 | the key `q{i}` starts with `q` followed by a digit, so it never clashes with `quiz_answers` |
| `Keys.KeyInjective` | streamlit.py:347 | distinct question indices have distinct keys |
| `Comprehension.Squares` | streamlit.py:131-133 | the list has one entry per integer in `range(base, base+limit)` (none when `limit <= 0`), and entry `k` is `(base+k)*(base+k)` |
| `Comprehension.WorkedExample` | streamlit.py:136-138 | base 3 and limit 5 give `[9, 16, 25, 36, 49]` |
| `Quiz.QuestionsWellFormed` | streamlit.py:305-336 | there are six questions, each with four options, and each answer is one of its options |
| `Quiz.Lookup` | streamlit.py:347 | definition of `session_state.get`: the stored value, or None when the key is absent; its properties are carried by `Quiz.TallyFrame` and `Quiz.UnansweredAddsNothing` |
| `Quiz.CorrectAt` | streamlit.py:347-348 | definition of the test `sel == q["answer"]`: the value under `q{i}` is exactly `Selection(answer)`, so a missing key or the list never matches; its properties are carried by `Quiz.Contribution` and `Quiz.SelectOnlyAffectsItsQuestion` |
| `Quiz.Classify` | streamlit.py:351-355 | definition of the branch `score < len(questions)`: review when below the total, balloons otherwise; its property is carried by `Quiz.PerfectIffAllCorrect` |
| `Quiz.InitAnswers` | streamlit.py:338-339 | afterwards `quiz_answers` is present, it is `n` empty strings when it was absent, no other key is added, and every existing value is kept; see also `Quiz.InitIdempotent` and `Quiz.InitKeepsScore` |
| `Quiz.Select` | streamlit.py:342 | afterwards `q{i}` holds the selection and every other key reads as before; see also `Quiz.LastWriteWins` and `Quiz.SelectOnlyAffectsItsQuestion` |
| `Quiz.SelectAll` | streamlit.py:341-342 | the radio pass keeps every existing key and leaves a key for each question it reached; `Quiz.SelectAllFrame` shows every other value, `quiz_answers` included, is unchanged; see also `Quiz.SelectAllAt` and `Quiz.RerenderKeepsStore` |
| `Quiz.SelectAllFrame` | streamlit.py:341-342 | a key that is not `q{j}` for any question `j` the pass reaches reads the same before and after the radio pass |
| `Quiz.QuestionKeyIsNotAnswersKey` | streamlit.py:338-342 | no question key `q{i}` is the key `quiz_answers` |
| `Quiz.Tally` | streamlit.py:345-349 | the score over the first `n` questions is at most `n` |
| `Quiz.TallyIsCount` | streamlit.py:345-349 | the score equals the number of indices whose stored `q{i}` value is exactly that question's answer |
| `Quiz.TallyFullIff` | streamlit.py:345-351 | the score equals the number of questions if and only if every question is correct |
| `Quiz.TallyZeroIff` | streamlit.py:345-349 | the score is 0 if and only if no question is correct |
| `Quiz.PerfectIffAllCorrect` | streamlit.py:351-355 | the balloons branch is taken if and only if every question is correct; otherwise the review branch is taken |
| `Quiz.TallyFrame` | streamlit.py:346-349 | the score depends only on the values stored under the keys `q0`..`q{n-1}` |
| `Quiz.Contribution` | streamlit.py:346-349 | each question adds exactly 1 when correct and 0 otherwise, compared with the same store without that question's key |
| `Quiz.UnansweredAddsNothing` | streamlit.py:347-348 | a question whose key is absent adds nothing: storing its answer would raise the score by exactly one |
| `Quiz.InitKeepsScore` | streamlit.py:338-339 | initialising `quiz_answers` never changes the score |
| `Quiz.InitIdempotent` | streamlit.py:338-339 | initialising twice equals initialising once |
| `Quiz.LastWriteWins` | streamlit.py:342 | a second selection for the same question replaces the first |
| `Quiz.SelectOnlyAffectsItsQuestion` | streamlit.py:342 | storing a selection for question `i` makes `i` correct exactly when it is the answer and leaves every other question's verdict unchanged |
| `Quiz.SelectAllAt` | streamlit.py:341-342 | after the radio pass, question `j`'s key holds exactly the pick made for it |
| `Quiz.SelectAllThenSelect` | streamlit.py:341-342 | a radio pass and a later write to a question the pass does not reach can be done in either order |
| `Quiz.SelectAllOverwrites` | streamlit.py:341-342 | a radio pass replaces everything an earlier pass over no more questions wrote |
| `Quiz.RerenderKeepsStore` | streamlit.py:338-342 | rendering the quiz again with the same selections leaves the session store exactly as it was |
| `Quiz.RadioPassVerdict` | streamlit.py:341-348 | after the radio pass, question `j` is correct exactly when its pick equals its answer |
| `Quiz.AnswerKeyScoresPerfect` | streamlit.py:305-355 | picking float, 3, def, Raises an error, for i in range(5), matplotlib after a radio pass scores 6 / 6, and that score takes the balloons branch |
| `Quiz.WrongPicksScoreZero` | streamlit.py:305-355 | picking int, 2, func, Returns 0, for i in 5, seaborn after a radio pass scores 0 / 6, and that score takes the review branch |
| `Quiz.Session.InitQuizAnswers` | streamlit.py:338-339 | `quiz_answers` is written as `n` empty strings only when absent; every other key keeps its value |
| `Quiz.Session.RecordSelection` | streamlit.py:342 | the radio's selection for question `i` is stored under `q{i}`, and nothing else changes |
| `Quiz.Session.ComputeScore` | streamlit.py:345-349 | the loop's score is the number of correctly answered questions, at most the number of questions; the store is only read |
| `Quiz.Session.Submit` | streamlit.py:344-355 | a report exists exactly when Submit is pressed; its total is the number of questions, its score is the correct count, and its outcome is Perfect exactly when every question is correct |
| `Quiz.Session.RenderQuiz` | streamlit.py:338-355 | one pass leaves `quiz_answers` as it was, or six empty strings when it was absent, stores every pick and, when pressed, reports the number of picks equal to their answers out of six, with the balloons outcome exactly when every pick is its answer |

## Left out

- Page rendering (page config, sidebar navigation, code display, expanders, `st.write`, `st.success`, `st.balloons`) is presentation with no logic. The outcome is modelled as the `Perfect`/`Incomplete` value that selects between the two messages.
- Widget behaviour is not modelled. That covers the radio's default choice of its first option and the rule that a radio can only return one of its options. Picks are arbitrary strings given as input, which covers every value the radio could store.
- Rerun semantics and isolation between sessions are framework behaviour. Each `Quiz.Session` object is one session's store.
- The HTTP GET/POST examples are network I/O.
- CSV upload and parsing are file I/O and a foreign library call.
- The random-walk chart uses floating point, randomness and plotting.
- `safe_divide` is float division.
- The `int(...)` casting demo only calls Python's own parser.
- The list display and slicing demo only shows values on the page.
- The code-snippet texts are static strings.
