# Quiz app core in Dafny

A model of the logic of a React Native trivia quiz. The app loads multiple-choice
questions from the Open Trivia Database; when loading fails, the quiz screen shows the
error with a "Go Back" button and has no fallback. It shows one question at a time with
a 15-second countdown, scores the answers, and ends on a result screen with a
percentage and a message. The repository also defines a reusable countdown component
and a small local question table, but no screen uses either: the quiz screen runs its
own interval and always fetches. The model covers these five parts:

- **The quiz session** (`quiz_screen.dfy`, module `QuizScreen`). The screen's state is
  `current`, `score`, `timeLeft` and `selected`, driven by four events:
  - the timer start;
  - the per-second tick;
  - an answer press;
  - the delayed `moveToNext`.

  `Step` is a pure transition function with one rule per event. `Inv` is the invariant
  every reachable state keeps. Class `QuizSession` holds the state in mutable fields,
  with one method per event, each proved to perform exactly its rule. `OptionStyle`
  classifies an option button before and after a selection.
- **The countdown component** (`progress_timer.dfy`, module `ProgressTimer`). It has a
  restart, a tick that fires `onTimeUp` once on the 1 → 0 step, and the red warning
  below 5 seconds. Class `Countdown` is tied to the pure `TickRule`.
- **The question service** (`quiz_service.dfy`, module `QuizService`):
  - the HTML character-reference decoder, with the exact semantics of
    `String.replace(/&[^;]+;/g, …)`: one non-overlapping left-to-right pass, no
    rescanning, eleven known references and unknown matches kept verbatim;
  - the Fisher–Yates shuffle, in place on an array copy;
  - the mapping of a parsed response into question records;
  - the `response_code` check.
- **The result screen** (`result_screen.dfy`, module `ResultScreen`): the rounded
  percentage and the four result bands.
- **The local question table** (`quiz_data.dfy`, module `QuizData`): three records and
  their shuffled copy.

`wrappers.dfy` defines `Option` and `Result`.

The app's inputs become parameters:
- **Parsed response:** the parsed JSON response is a value of `ApiResponse`.
- **`Math.random()`:** in the Fisher–Yates shuffle, each draw is a real in [0, 1).
- **Comparator sorts:** the sorts driven by `Math.random() - 0.5` are modelled by
  "picks", which choose an arbitrary permutation.
- **Timer callbacks:** each callback is an explicit event or method call, in sequence.

## Model

| member | source | states |
|---|---|---|
| QuizScreen.StartRule | screens/QuizScreen.js:50-53 | With a question on screen, the timer start sets the seconds to 15 and starts counting; without a question, nothing changes |
| QuizScreen.TickRule | screens/QuizScreen.js:62-71 | A tick while counting lowers the seconds by exactly 1; the tick that sees 1 ends the countdown with an advance pending; without a running interval nothing changes; score, question and selection are untouched |
| QuizScreen.AnswerRule | screens/QuizScreen.js:83-102 | An accepted press records the option, stops the countdown with the seconds unchanged, and raises the score by exactly 1 iff the option is the answer; a press when not counting changes nothing |
| QuizScreen.AdvanceRule | screens/QuizScreen.js:104-117 | `moveToNext` clears the selection; with a further question it moves to it and restarts at 15 seconds; on the last question it ends the session; without a pending advance nothing changes |
| QuizScreen.Initial | screens/QuizScreen.js:20-23 | The hook initial values once questions are loaded: question 0, score 0, 15 seconds, nothing selected, the timer not yet started |
| QuizScreen.Step | screens/QuizScreen.js:50-117 | Each event goes to its rule: the timer start, an interval tick, a press on an option, the delayed `moveToNext` |
| QuizScreen.StepKeepsInv | screens/QuizScreen.js:17-23 | Every event keeps the invariant: the question index stays below the number of questions, the seconds stay in [0, 15], the score never exceeds the questions resolved, and a selection exists only while an advance is pending |
| QuizScreen.RunKeepsInv | screens/QuizScreen.js:104-109 | Any sequence of events from a valid state keeps the invariant, so `current` never exceeds `questions.length - 1` |
| QuizScreen.CountdownTimesOut | screens/QuizScreen.js:62-71 | From a counting state, n ticks lower the seconds by n while n is below the seconds left; from then on the question has timed out at 0, with no answer and the score unchanged |
| QuizScreen.ResolvedIsStable | screens/QuizScreen.js:84-85 | Once a question is answered or timed out, any events other than the advance leave the state unchanged: no second answer, no further countdown |
| QuizScreen.StepProgress | screens/QuizScreen.js:104-117 | An event moves the session on by one question exactly when it is an advance that takes effect |
| QuizScreen.RunProgress | screens/QuizScreen.js:104-117 | The progress after any events equals the progress before plus the number of advances that took effect |
| QuizScreen.FinishedAfterEveryQuestion | screens/QuizScreen.js:106-115 | A session that has ended has taken exactly N advances for N questions, shows the last question, and has 0 <= score <= N |
| QuizScreen.ScoreCountsCorrectPresses | screens/QuizScreen.js:86-96 | The score after any events equals the score before plus the number of accepted presses on the right answer |
| QuizScreen.PlayThrough | screens/QuizScreen.js:83-117 | Answering every remaining question and advancing after each ends the session on the last question, with the score raised by the number of right answers |
| QuizScreen.PlayFromStart | screens/QuizScreen.js:83-117 | From the loaded state, starting and answering all N questions ends the session with a score equal to the number of right answers |
| QuizScreen.TimeOutEndsWithoutPoint | screens/QuizScreen.js:62-67 | With one question, 15 ticks and the pending advance end the session with score 0 |
| QuizScreen.AnswerAsWritten | screens/QuizScreen.js:197 | The press guard as written: whenever `selected` is falsy, the press records the option and may raise the score, whatever else is pending |
| QuizScreen.LatePressScoresAsWritten | screens/QuizScreen.js:62-67 | As written, after the first question times out (advance already pending, nothing selected), a press on the answer is taken and scores a point |
| QuizScreen.LatePressIgnored | screens/QuizScreen.js:197-199 | In the model, a press after a time-out leaves the state unchanged |
| QuizScreen.OptionStyle | screens/QuizScreen.js:129-134 | Without a truthy selection every option is neutral; with one: correct iff it is the answer, wrong iff it is the chosen wrong option, disabled iff it is neither |
| QuizScreen.RevealedStyles | screens/QuizScreen.js:129-134 | With distinct options that contain the answer, after a selection exactly one option is marked correct, and an option is marked wrong only if it was selected and is not the answer |
| QuizScreen.QuizSession.constructor | screens/QuizScreen.js:17-23 | The session starts at question 0, score 0, 15 seconds and nothing selected, and satisfies the invariant |
| QuizScreen.QuizSession.Start | screens/QuizScreen.js:119-123 | The new state is `StartRule` of the old, and the invariant is kept |
| QuizScreen.QuizSession.Tick | screens/QuizScreen.js:62-71 | The new state is `TickRule` of the old; the result says whether this tick ran the question out of time |
| QuizScreen.QuizSession.Answer | screens/QuizScreen.js:83-102 | The new state is `AnswerRule` of the old; the result says whether the press was accepted |
| QuizScreen.QuizSession.Advance | screens/QuizScreen.js:104-117 | The new state is `AdvanceRule` of the old; a summary is returned exactly when the session ends, holding the score and `total == questions.length`, with score <= total |
| ProgressTimer.TickRule | components/ProgressTimer.js:26-34 | A tick with the interval running lowers `timeLeft` by exactly 1, and calls `onTimeUp` and clears the interval exactly when `timeLeft` was 1; without an interval nothing changes |
| ProgressTimer.CountdownFiresOnce | components/ProgressTimer.js:16-34 | From a restart with duration d >= 1, the countdown runs at d - n for n < d ticks; from d ticks on, it is stopped at 0 with `onTimeUp` called exactly once |
| ProgressTimer.StoppedStays | components/ProgressTimer.js:29 | Once the interval is cleared, any number of ticks changes nothing |
| ProgressTimer.WarningInLastSeconds | components/ProgressTimer.js:39 | For every duration and every number of ticks n, the warning colour shows after n ticks iff n > duration - 5: from the start for durations below 5, and on through the 0 shown after time-up |
| ProgressTimer.Countdown.constructor | components/ProgressTimer.js:7-14 | Mounting starts at `duration` with the interval running and no time-up yet |
| ProgressTimer.Countdown.Reset | components/ProgressTimer.js:9-17 | A change of question restarts from `duration` with a fresh interval |
| ProgressTimer.Countdown.Tick | components/ProgressTimer.js:26-34 | The new state is `TickRule` of the old; the result says whether `onTimeUp` was called |
| ProgressTimer.Countdown.Unmount | components/ProgressTimer.js:11-13 | Unmounting clears the interval and changes nothing else |
| QuizService.EntityKeysAreReferences | services/quizService.js:35-47 | Every key of the table is a match of the pattern, and its text is shorter than the key |
| QuizService.MatchLength | services/quizService.js:49 | The match at the front is the unique prefix that is `&`, at least one non-`;` character, and `;`; the length is 0 when no prefix matches |
| QuizService.Replacement | services/quizService.js:49 | A match that is a table key becomes its table text; any other match is kept verbatim |
| QuizService.DecodeHtmlEntities | services/quizService.js:31-50 | One pass replaces the matches; the output is never longer than the input; the empty text is returned as is |
| QuizService.DecodePlainPrefix | services/quizService.js:49 | Text without `&` is copied, and decoding continues after it as for the remainder alone |
| QuizService.NoAmpersandUnchanged | services/quizService.js:32-49 | A text without `&`, including the empty text, is returned unchanged |
| QuizService.DecodeReferencePrefix | services/quizService.js:49 | A match at the front is replaced on its own, and scanning resumes right after it |
| QuizService.DecodeKnownEntity | services/quizService.js:35-49 | A known reference at the front becomes its table text |
| QuizService.DecodeUnknownReference | services/quizService.js:49 | A match that is not in the table is kept verbatim |
| QuizService.DecodeUnmatchedAmpersand | services/quizService.js:49 | An `&` at which no match begins (no later `;`, or none with a character in between) is copied and scanning resumes right after it; with the prefix and reference lemmas this fixes the output on every text |
| QuizService.DecodeLoneAmpersand | services/quizService.js:49 | `"Q&A"` is returned unchanged |
| QuizService.DecodeIsNotRescanned | services/quizService.js:49 | `"&amp;lt;"` becomes `"&lt;"`, not `"<"`; decoding it again gives `"<"`, so decoding is not idempotent |
| QuizService.DecodeMatchRunsToFirstSemicolon | services/quizService.js:49 | A match runs to the first `;`, so `"&amp&lt;"` is one unknown match and stays unchanged |
| QuizService.DecodeNbspIsSpace | services/quizService.js:46 | `&nbsp;` becomes a plain space: `"a&nbsp;b"` gives `"a b"` |
| QuizService.SwapIndex | services/quizService.js:56 | `Math.floor(r * (i + 1))` for a draw r in [0, 1) lies in [0, i] |
| QuizService.SwapPermutes | services/quizService.js:57 | The destructuring swap keeps every element, as many times as it occurs |
| QuizService.ShuffledPermutes | services/quizService.js:55-57 | Each prefix of the loop keeps the multiset of elements |
| QuizService.Shuffled | services/quizService.js:55-57 | The copy after the first k iterations of the loop: iteration k - 1 swaps position length - k with the drawn position at or below it; the length is kept |
| QuizService.Shuffle | services/quizService.js:53-59 | The result of the whole loop, length - 1 iterations: a permutation of the input of the same length |
| QuizService.SwapElements | services/quizService.js:57 | The array after the swap is the swapped sequence of the old array |
| QuizService.ShuffleInPlace | services/quizService.js:55-58 | The loop, with i running from length - 1 down to 1 and each swap index in [0, i], leaves the array as the shuffle of its old contents |
| QuizService.ShuffleArray | services/quizService.js:53-60 | `shuffleArray` returns the shuffle of a copy: a permutation of the input of the same length; the input array is not modified |
| QuizService.DecodeAll | services/quizService.js:16 | Each incorrect answer is decoded, in order |
| QuizService.FormatQuestion | services/quizService.js:13-20 | The answer is the decoded correct answer and occurs among the options; the options number the incorrect answers plus one, and are exactly the decoded incorrect answers plus the answer |
| QuizService.FetchQuizQuestions | services/quizService.js:11-23 | It fails iff the response code is non-zero, with the error "Could not load questions"; otherwise it gives one question per result, in order, with decoded text, the answer among the options, and the option count |
| ResultScreen.Percentage | screens/ResultScreen.js:7 | The percentage p is 100·score/total rounded half-up, i.e. p - 1/2 <= 100·score/total < p + 1/2; for 0 <= score <= total it lies in [0, 100] |
| ResultScreen.PercentageMonotone | screens/ResultScreen.js:7 | A higher score never gets a lower percentage |
| ResultScreen.PercentageExtremes | screens/ResultScreen.js:7 | A full score is 100 and a zero score is 0 |
| ResultScreen.ResultBand | screens/ResultScreen.js:9-14 | Exactly one band: Excellent iff >= 80, Good job iff in [60, 80), Not bad iff in [40, 60), Keep practicing iff below 40 |
| ResultScreen.Message | screens/ResultScreen.js:10-13 | The text of each band: "Excellent! 🎉", "Good job! 👍", "Not bad! 😊", "Keep practicing! 💪" |
| ResultScreen.ResultMessage | screens/ResultScreen.js:7-14 | `getResultMessage` over the computed percentage: "Excellent! 🎉" iff >= 80, "Good job! 👍" iff in [60, 80), "Not bad! 😊" iff in [40, 60), "Keep practicing! 💪" iff below 40 |
| ResultScreen.BandMonotone | screens/ResultScreen.js:9-14 | A higher percentage never gets a lower band |
| ResultScreen.MessagesDistinct | screens/ResultScreen.js:10-13 | The four messages differ, so the band determines the message shown |
| ResultScreen.ResultMessageExtremes | screens/ResultScreen.js:10-13 | A full score shows "Excellent! 🎉" and a zero score "Keep practicing! 💪" |
| QuizData.Questions | utils/quizData.js:1-20 | The table has three records; every answer is one of its options; the ids are distinct |
| QuizData.Pick | utils/quizData.js:24-27 | The comparator sort as a reordering chosen by picks: each pick selects, modulo the elements left, the next element; the length is kept |
| QuizData.PickPermutes | utils/quizData.js:24 | A reordering by picks keeps every element, as many times as it occurs |
| QuizData.EveryOrderIsPicked | utils/quizData.js:24 | Every permutation of a sequence is produced by some picks, so the picks stand for whatever order the sort yields |
| QuizData.ContentsOfPick | utils/quizData.js:23-24 | Reordering the records reorders their contents in the same way |
| QuizData.ShuffleOptions | utils/quizData.js:25-28 | Each record keeps its id, question and answer, and its options are a permutation of the original options |
| QuizData.AnswersStayAmongOptions | utils/quizData.js:25-27 | After the options are reordered, each answer is still among its record's options |
| QuizData.AnswersStayPicked | utils/quizData.js:23-24 | After the records are reordered, each answer is still among its record's options |
| QuizData.ShuffledCopy | utils/quizData.js:22-29 | The copy holds exactly the records of the input, each with its id, question and answer and a permutation of its options, and every answer is among its options |
| QuizData.GetShuffledQuestions | utils/quizData.js:22-29 | `getShuffledQuestions` returns three records that are, as a multiset, the table's records up to option order, with every answer among its options; the table, a value, cannot change |

## Left out

- The network request, JSON parsing and `console.error` logging in `fetchQuizQuestions`
  (services/quizService.js:4-9, 24-27) are I/O. The model starts from the parsed
  response. A thrown error is a `Failure` result.
- React hook mechanics are not modelled (screens/QuizScreen.js:62-71, 91, 95, 119-127).
  Without them, nothing of their timing or ordering is captured:
  - the 800 ms and 1000 ms `setTimeout` delays;
  - the re-run of effects and their clean-up timing;
  - the possibility that an updater function runs twice.

  Each callback is a sequential event instead. The advance rule includes the effect's
  restart of the countdown that follows a change of `current`.
- The loading and error screens, the Toast messages and the `Animated` fade and progress
  bar are presentation and are left out. The same goes for the styles,
  `components/OptionButton.js`, `screens/HomeScreen.js`, `App.js` and
  `navigation/AppNavigator.js`.
- `Math.random` becomes injected draws (reals in [0, 1)) and picks. `Math.floor` and the
  products are exact real arithmetic rather than IEEE doubles. No claim about uniformity
  is made.
- The comparator sorts with `Math.random() - 0.5` (utils/quizData.js:24, 27) have an
  order defined by the engine. The model abstracts them to an arbitrary permutation chosen
  by picks, and `EveryOrderIsPicked` shows that every permutation is covered. Because the
  result is a value, the table and its option lists cannot be mutated.
- ResultScreen.Percentage: it uses exact rational rounding, which can differ from
  `Math.round` on doubles only at representation edge cases. It requires `total > 0`:
  the screen is reached only with `total == questions.length` after at least one
  question, and the source does not handle a zero total.
- QuizService.DecodeHtmlEntities: it takes strings only. A `null` or `undefined` text,
  which the source returns unchanged as falsy, is not modelled. The empty string is.
- QuizScreen.AnswerRule: the session accepts a press only while the question is counting
  down. This is stricter than the `!selected` guard at screens/QuizScreen.js:197; see
  Findings. As in the source, the pressed option is not checked against the options.
- QuizScreen.StartRule: it models only the first run of the timer effect, once the
  questions are loaded. Later runs are part of the advance rule.
- QuizScreen.TickRule: a tick outside a running countdown is a no-op. That stands for the
  cleared interval, since no interval callback runs then.
- ProgressTimer.Countdown.Tick: `timeUps`, the count of `onTimeUp` calls, is a ghost
  observer. The call itself is the returned flag.
- The component's `duration` is any integer. A duration of 0 or less never reaches the
  1 → 0 tick, and the model says so rather than excluding it.

## Findings

| source | as written | input that shows it | evidently intended | confidence | as-written member | corrected member |
|---|---|---|---|---|---|---|
| screens/QuizScreen.js:197 | A press is accepted whenever `selected` is falsy. The time-out path (lines 64-67) clears the interval and schedules `moveToNext` but leaves `selected` null, so the question is still open to presses. | Let a question's 15 seconds run out, then press the right answer within the 800 ms before the advance. `checkAnswer` takes the press and scores a point for a question that timed out. It also schedules a second `moveToNext`, which on the last question navigates to the result a second time. | One resolution per question: once answered or timed out, further presses are ignored, as `disabled={!!selected}` intends for answered questions. | not executed | QuizScreen.LatePressScoresAsWritten | QuizScreen.LatePressIgnored |
