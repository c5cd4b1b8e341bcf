# Quiz store of jp-quiz, modelled in Dafny

jp-quiz is a small Japanese-quiz web client. Its quiz store
(`jp-quiz/src/stores/quiz.js`, a Pinia store) keeps three fields:

- `quizData`: the full pool of questions fetched from the server;
- `selectedQuiz`: the quiz currently being taken;
- `currentLevel`: the level of that quiz.

The store has three getters. `getQuestionsByLevel` returns the questions of
one level, `getQuestionCountByLevel` counts them, and `availableLevels`
lists the distinct levels in sorted order. Five actions replace the fields:
`setQuizData`, `setSelectedQuiz`, `getQuizByLevel` (a query that changes
nothing), `clearSelectedQuiz` and `clearAllData`.

The model has two files:

- `js_array.dfy`, module `JsArray`. It models the two JavaScript array
  operations that `availableLevels` uses. `Dedup` is `[...new Set(xs)]`.
  `Sort` is `Array.prototype.sort()` with no comparator; `Less` is the order
  it uses.
- `quiz_store.dfy`, module `Quiz`. It holds the data model and the getters.
  The getters are pure functions of the question pool, just as the Pinia
  getters are functions of `state`. The class `QuizStore` has the three
  fields and one method per action.

Data model:

- `Question`: a record with a string `level`. Its other properties are an
  opaque map that is carried along unchanged.
- `JsValue`: an action argument that may or may not be an array. It is
  `Null`, `Array(questions)` or `Opaque(...)` for any other value. This is
  what the code's `Array.isArray` checks look at.
- `Option`: stands in for a nullable field.

`QuizStore.Valid()` is the store invariant. It says that `currentLevel` is
the level of the first question of `selectedQuiz` when that is a non-empty
array, and null otherwise. The constructor establishes it. `setSelectedQuiz`,
`clearSelectedQuiz` and `clearAllData` establish it. `setQuizData` and
`getQuizByLevel` preserve it.

## Model

| member | source | states |
|---|---|---|
| `Quiz.QuestionsByLevel` | jp-quiz/src/stores/quiz.js:12-15 | The result is exactly the questions of the pool whose level equals the argument: a question is in it iff it is in the pool with that level. Every element has that level, and the result is no longer than the pool. |
| `Quiz.QuestionsByLevelIsSubsequence` | jp-quiz/src/stores/quiz.js:14 | The filtered questions appear in the pool in the same relative order (subsequence). |
| `Quiz.QuestionsByLevelConcat` | jp-quiz/src/stores/quiz.js:14 | Filtering a concatenation gives the concatenation of the filtered parts, so the pool's order is kept. |
| `Quiz.QuestionsByLevelMultiset` | jp-quiz/src/stores/quiz.js:14 | A question of the requested level appears in the result exactly as often as in the pool; a question of any other level does not appear. |
| `Quiz.FilterKeepsAllIff` | jp-quiz/src/stores/quiz.js:14 | The filter keeps the whole pool iff every question has the requested level. |
| `Quiz.QuestionCountByLevel` | jp-quiz/src/stores/quiz.js:19-23 | The count equals the length of `getQuestionsByLevel(level)`. It also equals the number of times `level` occurs among the pool's levels, an independent count. It is at most the pool size, is 0 iff no question has the level, and equals the pool size iff every question has the level. |
| `Quiz.LevelsOf` | jp-quiz/src/stores/quiz.js:27 | Defines the level of each question in pool order (`quizData.map(q => q.level)`). |
| `Quiz.FilterCountsLevel` | jp-quiz/src/stores/quiz.js:21 | The filter keeps one question for each occurrence of the level among the pool's levels (`quizData.map(q => q.level)`). |
| `Quiz.AvailableLevels` | jp-quiz/src/stores/quiz.js:26-29 | The result is strictly ascending in the default string order, so it has no duplicates. A level is in it iff some question in the pool has that level. |
| `Quiz.AvailableLevelsUnique` | jp-quiz/src/stores/quiz.js:26-29 | Any strictly sorted sequence that holds exactly the pool's levels equals `availableLevels`, so those two properties determine it completely. |
| `Quiz.CountsCoverPool` | jp-quiz/src/stores/quiz.js:19-29 | Summing the per-level count over all available levels gives the pool size, so every question is counted under exactly one level. |
| `Quiz.CountsCoverPoolFrom` | jp-quiz/src/stores/quiz.js:19-23 | For any duplicate-free list of levels that covers every question's level, the per-level counts sum to the pool size. |
| `Quiz.AvailableLevelsExample` | jp-quiz/src/stores/quiz.js:19-29 | For levels N5, N4, N5 the count of N5 is 2 and the available levels are exactly ["N4", "N5"]. |
| `Quiz.AvailableLevelsStringOrder` | jp-quiz/src/stores/quiz.js:28 | Levels are sorted as strings, not as numbers: "9" and "10" come out as ["10", "9"]. |
| `JsArray.SortKeepsMembers` | jp-quiz/src/stores/quiz.js:28 | Sorting keeps exactly the same set of members. |
| `JsArray.Dedup` | jp-quiz/src/stores/quiz.js:27 | `[...new Set(xs)]` has no duplicates, holds exactly the members of `xs`, and is no longer than `xs`. |
| `JsArray.Sort` | jp-quiz/src/stores/quiz.js:28 | The default sort returns a permutation of its input (same multiset) that is ordered by `Less`. A duplicate-free input stays duplicate-free. |
| `JsArray.SortedDistinctIsStrict` | jp-quiz/src/stores/quiz.js:27-28 | A sorted sequence without duplicates is strictly ascending. |
| `JsArray.StrictlySortedIsDistinct` | jp-quiz/src/stores/quiz.js:27-28 | A strictly ascending sequence has no duplicates, so `availableLevels` lists each level once. |
| `JsArray.StrictlySortedUnique` | jp-quiz/src/stores/quiz.js:27-28 | Two strictly ascending sequences with the same members are equal, so the sort algorithm the engine uses does not matter for distinct levels. |
| `JsArray.Less` | jp-quiz/src/stores/quiz.js:28 | Defines the order that `sort()` with no comparator uses on strings. It compares character codes from the left, and a proper prefix sorts first. |
| `JsArray.LessIrreflexive` | jp-quiz/src/stores/quiz.js:28 | No string sorts before itself. |
| `JsArray.LessTransitive` | jp-quiz/src/stores/quiz.js:28 | The default string order is transitive. |
| `JsArray.LessTotal` | jp-quiz/src/stores/quiz.js:28 | Of two different strings, one sorts before the other. |
| `JsArray.LessAsymmetric` | jp-quiz/src/stores/quiz.js:28 | Two strings never sort before each other both ways. |
| `Quiz.LeadLevel` | jp-quiz/src/stores/quiz.js:40 | Defines the level derived from a selected quiz: the first question's level when the quiz is a non-empty array, and null otherwise. The store invariant `Valid()` is `currentLevel == LeadLevel(selectedQuiz)`. |
| `Quiz.QuizStore.constructor` | jp-quiz/src/stores/quiz.js:4-8 | The initial state is an empty pool with `selectedQuiz` and `currentLevel` null, and the invariant holds. |
| `Quiz.QuizStore.SetQuizData` | jp-quiz/src/stores/quiz.js:33-36 | An array argument is stored unchanged; anything else stores the empty pool. `selectedQuiz` and `currentLevel` are untouched, and the invariant is preserved. |
| `Quiz.QuizStore.SetSelectedQuiz` | jp-quiz/src/stores/quiz.js:38-42 | The argument is stored as given, even a non-array. `currentLevel` becomes the first question's level for a non-empty array and null otherwise. The pool is untouched, and the invariant holds afterwards. |
| `Quiz.QuizStore.GetQuizByLevel` | jp-quiz/src/stores/quiz.js:44-48 | Changes no field, and returns the same sequence as `getQuestionsByLevel`: exactly the pool's questions of that level. |
| `Quiz.QuizStore.ClearSelectedQuiz` | jp-quiz/src/stores/quiz.js:50-53 | `selectedQuiz` and `currentLevel` become null, the pool is unchanged, and the invariant holds. |
| `Quiz.QuizStore.ClearAllData` | jp-quiz/src/stores/quiz.js:56-60 | The state afterwards equals the initial state (empty pool, null, null), whatever came before, and the invariant holds. |

`Quiz.StoreScenario` is a client method. It uses only the contracts above to
walk through a session: set data, set a non-array, select a quiz of one
question, select an empty array, select a non-array, then clear everything.

## Left out

- `jp-quiz/src/services/apiService.js` (HTTP GET/POST) is not part of this model. It is asynchronous network I/O and JSON parsing done by browser library calls.
- The `console.log` diagnostics in `setQuizData`, `setSelectedQuiz` and `getQuizByLevel` are not modelled. They only observe state.
- Pinia's `defineStore` and its reactivity are not modelled. The store is a plain class. Writes that bypass the actions, such as a component assigning `store.currentLevel` directly, are outside the model, so the invariant covers only changes made through the actions.
- Aliasing of stored arrays is not modelled. The source stores the caller's own array object in `quizData` (quiz.js:34) and in `selectedQuiz` (quiz.js:39), together with the question objects inside it. A caller that later edits that array or one of its questions, for example with `quiz.shift()` or `quiz[0].level = "N3"`, changes the store without any action. `currentLevel` can then disagree with the first question's level. The model stores immutable values, so its invariant holds only as long as nobody edits a stored array or question in place.
- JavaScript duck typing is not modelled. Array elements are always question records with a string `level`, so neither a non-object `quiz[0]` nor the sort position of `undefined` levels is covered.
- Numeric levels are not modelled. Levels are strings, and `===` on levels is string equality.
- JsArray.Less: compares Dafny characters (Unicode code points). The engine compares UTF-16 code units. The two orders differ only for strings that contain characters outside the Basic Multilingual Plane.
- JsArray.Sort: is an insertion sort, not the engine's algorithm. For duplicate-free input, which is all `availableLevels` sorts, `StrictlySortedUnique` shows that every correct sort gives the same result.
- JsArray.Dedup: its contract does not state that the first occurrences keep their order. The result is sorted straight away, so that order cannot be observed.
