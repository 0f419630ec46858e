# TypeNinja typing engine, modelled in Dafny

TypeNinja is a typing trainer. The browser client shows a practice text. It
times the typist and scores words per minute (WPM) and accuracy. A small
server stores users, test results and settings, and hands out practice texts.
This project models the logic at the centre of it:

- **Typing session** (`typing_session.dfy`, module `TypingSession`). The
  session record of the `useTypingTest` hook, with every transition:
  - printable key, Tab, Backspace;
  - start, reset, mode change;
  - the one-second timer, the live-stats refresh, text arrival;
  - `endTest` and the time-expiry report.

  The invariant all of them keep: every position before the cursor was typed
  exactly once, either correctly or incorrectly, and an idle session sits at
  position 0. Also here: the WPM and accuracy formulas and the result of a
  finished test.
- **Text cache** (`text_cache.dfy`, module `TextSupply`). The process-wide
  cache of ready texts per mode and duration, with its fetch lock
  (`preloadMode`, `getTextForTest`, the preload effect). It is a class whose
  methods update a map and a flag.
- **Practice-text generation** (`text_generator.dfy`, module `TextGenerator`):
  - the target length for a duration;
  - the single-passage cut for short tests;
  - the concatenation loop with its trim for longer tests;
  - `getRandomTexts`.
- **Mode and duration policy** (`controller.dfy`, module
  `TypingTestController`). Which preview a mode selection asks for, and how a
  duration selection resets the test.
- **In-memory store** (`storage.dfy`, module `Storage`). The server's
  `MemStorage` class: users, the append-only test log, settings created from
  defaults and merged with patches, and random text picks.
- **Results dialog** (`results_view.dfy`, module `ResultsView`). Raw WPM,
  the correct-character count and the capitalised mode name.
- Supporting modules:
  - `js.dfy` (`Js`): JavaScript built-ins over unbounded integers (`Math.round`
    of a quotient, `lastIndexOf`, `substring`, `slice`).
  - `randomness.dfy` (`Randomness`): the random inputs, where `Math.random()`
    is r / 2^53 and a random-comparator sort is any permutation.
  - `corpus.dfy` (`Corpus`): the mode-to-collection lookup with its fallback
    to `normal`.

Clocks, randomness and the answers of HTTP requests are parameters. React
state updates become functions from the old record to the new one, and each
React effect or timer becomes an explicit event.

## Model

| member | source | states |
|---|---|---|
| Js.Round | client/src/lib/hooks/useTypingTest.ts:406 | `Math.round(n/d)` for d > 0: the integer r with r - 1/2 <= n/d < r + 1/2, ties rounded up |
| Js.RoundIsExactOnMultiples | client/src/lib/helpers/textGenerator.ts:106 | rounding an exact quotient k*d/d gives k back |
| Js.LastIndexOf | client/src/lib/helpers/textGenerator.ts:116 | `lastIndexOf(c, from)`: -1 or an index holding c, at most max(from, 0), with no c between it and the clamped start |
| Js.Substring | client/src/lib/helpers/textGenerator.ts:117 | `substring(start, end)` with the ends in order is the slice between them, each clamped into the string; ends given in the wrong order give the same text as the swapped call |
| Js.SlicePrefix | server/storage.ts:148 | `slice(0, end)` is a prefix of length min(end, len), or len + end for a negative end, floored at 0 |
| Js.UpperAscii | client/src/components/modals/ResultsModal.tsx:28 | a lower-case ASCII letter becomes its own capital (code point − 32); every other character is unchanged |
| Randomness.PickIndex | client/src/lib/helpers/textGenerator.ts:111 | `Math.floor(Math.random() * n)` is a valid index into a list of n > 0 items |
| Randomness.ShuffleKeepsMembers | client/src/lib/helpers/textGenerator.ts:123 | a random-comparator sort keeps the length and exactly the members of the list |
| Corpus.CollectionOfAnyMode | client/src/lib/helpers/textGenerator.ts:77 | an unknown mode draws from the `normal` list, a known mode from its own list, and either list is non-empty with no empty passage |
| TextGenerator.TargetLength | client/src/lib/helpers/textGenerator.ts:87-107 | the four tabulated lengths and the `Math.round(duration * 5)` default all equal 5 × duration |
| TextGenerator.ShortText | client/src/lib/helpers/textGenerator.ts:110-120 | the whole passage unless longer than 1.5 × target; otherwise the prefix up to the last space in 1..target (that space excluded), or exactly the first `target` characters when there is no space in 1..target |
| TextGenerator.JoinEmptyIff | client/src/lib/helpers/textGenerator.ts:135-136 | the accumulated text is empty exactly when every piece was empty |
| TextGenerator.JoinOfNonEmptyPieces | client/src/lib/helpers/textGenerator.ts:135-136 | when every piece so far is non-empty, the next piece is added after exactly one space |
| TextGenerator.RefillKeepsOrder | client/src/lib/helpers/textGenerator.ts:129-131 | refilling the empty pool with the next shuffle extends the pop order by that shuffle, reversed |
| TextGenerator.PopKeepsOrder | client/src/lib/helpers/textGenerator.ts:134 | popping the pool's last passage moves it to the end of the taken pieces without changing the overall pop order |
| TextGenerator.JoinStep | client/src/lib/helpers/textGenerator.ts:135-136 | `if (result) result += " "; result += next` is the join of the pieces plus the new one |
| TextGenerator.GrowStep | client/src/lib/helpers/textGenerator.ts:126-136 | a passage appended while the text is short of the target extends the join, and the text before it was short of the target |
| TextGenerator.TrimmedShape | client/src/lib/helpers/textGenerator.ts:139-144 | a trimmed text is a proper prefix of the joined text ending just before a space, with length in (0.8, 1.1] × target |
| TextGenerator.TrimIfOvershot | client/src/lib/helpers/textGenerator.ts:139-145 | the text is trimmed exactly when it is past 1.2 × target and the last space at or before 1.1 × target lies past 0.8 × target; it is then cut at that space, and left alone otherwise |
| TextGenerator.NextPassage | client/src/lib/helpers/textGenerator.ts:129-134 | one draw refills an empty pool, yields a non-empty passage of the collection and keeps the pop order |
| TextGenerator.ComposeStep | client/src/lib/helpers/textGenerator.ts:126-146 | one loop pass appends one collection passage in pop order; it ends the loop with the cut text exactly when the trim rule applies, and otherwise leaves the (longer) join untrimmed |
| TextGenerator.ComposeLong | client/src/lib/helpers/textGenerator.ts:122-148 | the loop ends; the pieces are a prefix of the pop order, stopping at the first one that brings the join to the target; the text is the join, or the join cut at its last space at or before 1.1 × target exactly when the trim rule applies |
| TextGenerator.GetRandomText | client/src/lib/helpers/textGenerator.ts:75-149 | up to 15 s, the short cut of the passage at the drawn index; beyond, the prefix of the draw's pop order that first reaches the target, joined, and cut exactly when the trim rule applies |
| TextGenerator.GetRandomTexts | client/src/lib/helpers/textGenerator.ts:158-168 | exactly max(count, 0) texts; the i-th is the text `getRandomText` produces from the i-th draw (drawn index, or pop order of its shuffles, with the stop and trim rules) |
| TypingSession.Without | client/src/lib/hooks/useTypingTest.ts:537-538 | the filter keeps exactly the other positions, keeps a list duplicate-free, and removes one element when the position was present |
| TypingSession.WithoutAppended | client/src/lib/hooks/useTypingTest.ts:537-538 | filtering out a position that was just appended, and absent before, gives back the list before the append |
| TypingSession.Wpm | client/src/lib/hooks/useTypingTest.ts:403-406 | (correct/5) words per elapsed minute, rounded: non-negative and 0 when nothing is correct |
| TypingSession.Accuracy | client/src/lib/hooks/useTypingTest.ts:409 | the rounded percentage lies in 0..100; it is 0 exactly when under half a percent was right, and 100 exactly when at most half a percent was wrong |
| TypingSession.PercentBounds | client/src/lib/hooks/useTypingTest.ts:409 | the bounds and both if-and-only-if cases of the rounded percentage |
| TypingSession.PercentBelow | client/src/lib/hooks/useTypingTest.ts:409 | the upper half of the rounding bound caps the percentage at 100 and ties it to the correct share |
| TypingSession.PercentAbove | client/src/lib/hooks/useTypingTest.ts:409 | the lower half of the rounding bound keeps the percentage non-negative and ties it to the error share |
| TypingSession.AccuracyAsWritten | client/src/lib/hooks/useTypingTest.ts:409 | as written with `\|\| 100`: equal to the accuracy when that is non-zero, and 100 when the rounded value is 0 |
| TypingSession.AllWrongReportsFullAccuracy | client/src/lib/hooks/useTypingTest.ts:409 | with nothing correct, the formula as written reports 100 where the percentage is 0 |
| TypingSession.RefreshStatsSpec | client/src/lib/hooks/useTypingTest.ts:395-418 | the live stats are left unchanged unless the session is active with a start time, something typed and time elapsed (`now` after the start); they are then the WPM of the correct characters over the elapsed time and the accuracy (corrected formula), 100 or 0 exactly at the shares above |
| TypingSession.Start | client/src/lib/hooks/useTypingTest.ts:421-428 | start sets active, the start time and the full duration, and nothing else |
| TypingSession.Cleared | client/src/lib/hooks/useTypingTest.ts:280-288 | the shared reset: idle at position 0 with empty lists and the full duration; mode and text kept; the invariant holds |
| TypingSession.TypeChar | client/src/lib/hooks/useTypingTest.ts:515-523 | cursor + 1; the old cursor goes to the correct list if the key equals the expected character, else to the incorrect list; the other list and every other field unchanged |
| TypingSession.TypeTab | client/src/lib/hooks/useTypingTest.ts:484-503 | only two spaces at the cursor make Tab count: cursor + 2 with both positions correct; otherwise nothing changes |
| TypingSession.Backspace | client/src/lib/hooks/useTypingTest.ts:532-548 | at cursor > 0 the cursor steps back and exactly that position leaves both lists; at 0 nothing changes |
| TypingSession.Tick | client/src/lib/hooks/useTypingTest.ts:308-316 | a non-positive time stays unchanged; otherwise it drops by exactly 1 and never below 0 |
| TypingSession.FinalStats | client/src/lib/hooks/useTypingTest.ts:243-259 | nothing typed: 0 and 0; start time known and time elapsed: the WPM of the correct characters and the accuracy (corrected formula); otherwise the last live stats |
| TypingSession.EndResult | client/src/lib/hooks/useTypingTest.ts:232-270 | a result exists iff time ran out or something was typed and the cursor reached the end; it counts the typed positions and errors, keeps the mode, reports the seconds used for an early finish, is 0 WPM / 0% when nothing was typed, and otherwise carries the recomputed WPM and accuracy (corrected formula), or the live ones floored at 0 when no time has elapsed |
| TypingSession.EndTest | client/src/lib/hooks/useTypingTest.ts:225-294 | the result above, then the cleared session and a text request; live stats kept |
| TypingSession.Expire | client/src/lib/hooks/useTypingTest.ts:330-389 | on expiry a result always exists, over the full duration and in the session's mode, 0/0 when nothing was typed, otherwise with the recomputed WPM and accuracy (corrected formula) or the live ones; then the session is cleared |
| TypingSession.ResetTest | client/src/lib/hooks/useTypingTest.ts:431-458 | reset clears the session, keeps the mode, sets stats to 0 WPM / 100% and requests a text |
| TypingSession.ChangeModeTo | client/src/lib/hooks/useTypingTest.ts:554-578 | a reset that switches to the new mode |
| TypingSession.HandleKey | client/src/lib/hooks/useTypingTest.ts:461-551 | Ctrl/Alt+Enter is a reset; any other key first starts an idle session; then Tab is `TypeTab`, Backspace is `Backspace`, a printable key at or past the end ends the test, a printable key inside the text is `TypeChar` followed by `endTest` when it reaches the end, and every other key changes nothing; only printable keys can produce a result |
| TypingSession.TypeCharAsWritten | client/src/lib/hooks/useTypingTest.ts:505-531 | as written: the same state as the intended handler, but the result is judged on the pre-keystroke record |
| TypingSession.StaleEndTestDropsResult | client/src/lib/hooks/useTypingTest.ts:524-528 | typing the last character with time left: as written no result, intended a result, same cleared state |
| TypingSession.TypeCharKeepsPartition | client/src/lib/hooks/useTypingTest.ts:515-523 | a printable key keeps every position before the cursor typed exactly once |
| TypingSession.TypeTabKeepsPartition | client/src/lib/hooks/useTypingTest.ts:494-498 | Tab keeps the partition invariant |
| TypingSession.BackspaceKeepsPartition | client/src/lib/hooks/useTypingTest.ts:534-548 | Backspace keeps the partition invariant |
| TypingSession.InitialIsValid | client/src/lib/hooks/useTypingTest.ts:53-62 | the mount state satisfies the session invariant: idle, at position 0, with the full duration |
| TypingSession.HandleKeyKeepsValid | client/src/lib/hooks/useTypingTest.ts:461-551 | every key keeps the session invariant |
| TypingSession.Apply | client/src/lib/hooks/useTypingTest.ts:210-585 | the dispatch of one event: keys go to the key handler; a click starts only an idle session; the timer ticks only an active session with a truthy start time; the stats refresh changes only the stats; an arriving text replaces only the text; duration sync gives an idle session the full duration and a text request and leaves an active one alone; only a printable key can produce a result |
| TypingSession.Step | client/src/lib/hooks/useTypingTest.ts:330-389 | the event, then the expiry effect: an active session at zero seconds is reported and cleared, otherwise the event's outcome stands; no step leaves an active session at zero, and a result always comes with a cleared session and a text request |
| TypingSession.TimeOutAlwaysReports | client/src/lib/hooks/useTypingTest.ts:296-389 | a running test whose last second ticks away reports over the full duration with every typed position, at any cursor, and is cleared with a text request |
| TypingSession.ResultOnlyOnEndOrTimeOut | client/src/lib/hooks/useTypingTest.ts:330-389 | a step reports only when a printable key ended the test or an active session's time reached zero, and a timed-out report covers the full duration |
| TypingSession.TimerNeedsRunningTest | client/src/lib/hooks/useTypingTest.ts:296-327 | without an active session and a truthy start time the timer changes nothing: an idle session never counts down or expires |
| TypingSession.DurationSyncSetsClock | client/src/lib/hooks/useTypingTest.ts:209-221 | an idle session takes the full duration and requests a text; an active one is left alone |
| TypingSession.TextArrivalChangesOnlyText | client/src/lib/hooks/useTypingTest.ts:218-220 | an arriving text replaces the text and nothing else |
| TypingSession.StatsTickRefreshes | client/src/lib/hooks/useTypingTest.ts:394-418 | the live-stats refresh leaves the session alone and sets the stats to `RefreshStats` |
| TypingSession.ApplyKeepsValid | client/src/lib/hooks/useTypingTest.ts:210-585 | every event keeps the session invariant |
| TypingSession.StepKeepsValid | client/src/lib/hooks/useTypingTest.ts:330-389 | an event followed by the expiry check keeps the session invariant |
| TypingSession.StepKeepsCursorInText | client/src/lib/hooks/useTypingTest.ts:484-548 | the cursor stays within the text unless a shorter text arrives mid-test |
| TypingSession.TypeThenBackspace | client/src/lib/hooks/useTypingTest.ts:515-548 | a character typed and then erased restores the session exactly |
| TypingSession.ClickIsIdempotent | client/src/lib/hooks/useTypingTest.ts:580-585 | a click starts an idle session, and a second click changes nothing |
| TypingSession.RestartShortcut | client/src/lib/hooks/useTypingTest.ts:463-467 | Ctrl/Alt+Enter resets whether or not a test is running |
| TypingSession.KeyPastEndEndsTest | client/src/lib/hooks/useTypingTest.ts:509-513 | a printable key at or past the end moves nothing and ends the test |
| TypingSession.TabNeverEndsTest | client/src/lib/hooks/useTypingTest.ts:484-503 | Tab reaching the end does not end the test |
| TypingSession.LastCharReports | client/src/lib/hooks/useTypingTest.ts:524-528 | the key that reaches the end ends the test with a result over the whole text and the seconds used |
| TypingSession.SilentExpiryReportsZero | client/src/lib/hooks/useTypingTest.ts:330-366 | a test with nothing typed that runs out reports 0 WPM, 0% and the full duration |
| TypingSession.CleanRunScoresFullAccuracy | client/src/lib/hooks/useTypingTest.ts:233-270 | a text typed through without errors scores 100%, 0 errors and its own length in characters |
| TypingSession.ExampleScores | client/src/lib/hooks/useTypingTest.ts:403-409 | 50 right and 10 wrong in 30 s: 20 WPM and 83% |
| TextSupply.TextCache.constructor | client/src/lib/hooks/useTypingTest.ts:41-45 | the cache starts empty and unlocked |
| TextSupply.TextCache.Queue | client/src/lib/hooks/useTypingTest.ts:144 | an untouched key holds no texts |
| TextSupply.TextCache.PreloadMode | client/src/lib/hooks/useTypingTest.ts:86-124 | a list with three or more texts is left alone; otherwise exactly the usable fetched texts, or three generated ones, the i-th being the text the i-th draw produces, are appended to that key only |
| TextSupply.TextCache.GetTextForTest | client/src/lib/hooks/useTypingTest.ts:127-192 | locked: retry with nothing changed; else the last cached text is popped (refill iff under two remain), or the first fetched text (refill), or the text the draw generates, or the failure placeholder; the lock is free on every path |
| TextSupply.TextCache.PreloadAll | client/src/lib/hooks/useTypingTest.ts:73-83 | afterwards every mode has a text for the duration and other durations are untouched |
| TypingTestController.ModeChangeCommands | client/src/components/typing/TypingTest.tsx:42-68 | flirty preview iff entering flirty; developer preview iff entering a programming mode from a non-programming one; at most one preview, always before the mode change |
| TypingTestController.DurationChangeCommands | client/src/components/typing/TypingTest.tsx:29-40 | the setter runs iff the duration differs; a reset always comes last |
| TypingTestController.DurationChangeTakesEffect | client/src/components/typing/TypingTest.tsx:29-40 | after the commands the selected duration is the one clicked |
| TypingTestController.QuietSelections | client/src/components/typing/TypingTest.tsx:50-65 | `normal`, and a move between programming languages, request no preview |
| TypingTestController.PreviewOncePerEntry | client/src/components/typing/TypingTest.tsx:44-67 | once `changeMode` ran, selecting the same mode again requests no preview |
| Storage.Merge | server/storage.ts:132 | fields named in the patch take its values; all others keep the old ones; the id is kept |
| Storage.MergeIsIdempotent | server/storage.ts:132 | applying a patch twice equals applying it once, and an empty patch changes nothing |
| Storage.TestsOf | server/storage.ts:103 | the filter keeps exactly the records of that user, each as often as in the log, as a subsequence of the log (log order kept) |
| Storage.TestsOfAppend | server/storage.ts:93-106 | a saved record comes last among its user's records: insertion order is kept |
| Storage.PrefixMultiset | server/storage.ts:148 | a prefix takes no entry more often than the list has it |
| Storage.SubMultisetOfDistinct | server/storage.ts:146-148 | entries drawn without repetition from distinct entries are distinct |
| Storage.MemStorage.constructor | server/storage.ts:67-74 | empty maps and log, all counters at 1 |
| Storage.MemStorage.GetUser | server/storage.ts:76-78 | the stored user with that id, or none |
| Storage.MemStorage.GetUserByUsername | server/storage.ts:80-84 | none iff no user has the name; otherwise the first such user in insertion order |
| Storage.MemStorage.CreateUser | server/storage.ts:86-91 | the user gets the current counter as a fresh id, the map gains exactly that entry, the counter increments |
| Storage.MemStorage.SaveTypingTest | server/storage.ts:93-99 | exactly one record, with the next id (above every earlier one) and the current time, is appended; earlier records unchanged |
| Storage.MemStorage.GetTypingTests | server/storage.ts:101-106 | a truthy user id selects exactly that user's records, each as often as logged and in log order; a missing or 0 id returns the whole log |
| Storage.MemStorage.GetUserSettings | server/storage.ts:108-110 | the stored settings for the user, or none |
| Storage.MemStorage.UpdateUserSettings | server/storage.ts:112-136 | existing settings are merged with the patch; missing settings start from the defaults with the next settings id, which is the only case that increments that counter |
| Storage.MemStorage.GetTexts | server/storage.ts:138-149 | entries of the mode's collection (normal for unknown modes) taken without repetition: one for count 1, else min(count, len), with negative counts as `slice` treats them |
| Storage.MemStorage.GetTextsAreDistinct | server/storage.ts:146-148 | distinct collection entries give distinct answers |
| ResultsView.RawWpm | client/src/components/modals/ResultsModal.tsx:22 | 12 × characters / duration, rounded; not finite exactly for a zero duration |
| ResultsView.FormatMode | client/src/components/modals/ResultsModal.tsx:28 | first character upper-cased, the rest unchanged, same length |
| ResultsView.View | client/src/components/modals/ResultsModal.tsx:18-28 | nothing is rendered iff there is no result; otherwise its raw WPM, correct characters and capitalised mode |
| ResultsView.CorrectCharsOfSessionResult | client/src/components/modals/ResultsModal.tsx:25 | for a session's result, characters − errors is the number of positions typed correctly |
| ResultsView.RoundCancels | client/src/components/modals/ResultsModal.tsx:22 | a common positive factor cancels in a rounded quotient |
| ResultsView.RawWpmMatchesLiveFormula | client/src/components/modals/ResultsModal.tsx:22 | raw WPM over whole seconds is the live WPM formula applied to all typed characters |
| ResultsView.FormatModeIdempotent | client/src/components/modals/ResultsModal.tsx:28 | capitalising twice is capitalising once |

General facts the proofs need, with no counterpart in the program, are not
listed above: `ResultsView.DivUnique` and `ResultsView.DivCancels` (integer
division), `Storage.DistinctCountsOnce` and `Storage.RepeatCountsTwice`
(multiset counts), and the arithmetic helpers of `Js`, `Randomness` and
`TypingSession`.

## Left out

- The literal practice passages are not reproduced. The client has ten plain sentences, ten romantic lines, and five code snippets each for developer, python, java, csharp and go. The server has the first three lists. The model takes the lists as a `Corpus.Library` value and relies only on their shape: exactly the listed modes, each list non-empty, no empty passage.
- `Corpus.CollectionOfAnyMode`: a mode that names a property every JavaScript object has (`constructor`, `toString`) is not modelled. Only the listed modes resolve to their own list.
- Audio playback, `preventDefault`, the `loadingText` flag and console logging: browser side effects with no bearing on the session.
- React scheduling: `useEffect`, `setInterval` and the interval handle. Each timer firing or effect run is an explicit event (`TimerTick`, `StatsTick`, `DurationSync`, `TextArrived`). Effects run one after another, so renders never interleave.
- `TypingSession.HandleKey`: when a key starts an idle session, the model's `endTest` sees the record just after the start. The code's `endTest` sees the record just before it. The two differ only if the duration changed without a sync in between.
- Floating point:
  - every threshold (1.5, 1.2, 1.1, 0.8 × target) and every `Math.round` is exact rational arithmetic;
  - `lastIndexOf(' ', target * 1.1)` is read as starting at floor(11 × target / 10);
  - `Math.floor(Math.random() * n)` ignores the rounding of the product.
- `fetch` to `/api/texts` is an input `Response`: a usable array or anything else. Requests run one after another.
- `TextSupply.TextCache.GetTextForTest`:
  - the 200 ms retry under the lock is returned as `RetryLater`;
  - the background refill is reported as a flag, and the 500 ms delay before its check is not modelled;
  - the only failure that reaches the outer `catch` is the local generator failing (`generatorFails`).
- `TextSupply.TextCache.PreloadAll`: `Promise.all` runs in parallel; the model preloads the modes in order.
- `Storage.MemStorage.GetTexts`: `count` is passed explicitly, so the default of 1 and non-integer or NaN counts are not modelled. The `duration` that server/routes.ts passes is ignored by the store, as in the code.
- `Storage.MemStorage.UpdateUserSettings`: a patch cannot set a column to `null` or `undefined`.
- `Storage.MemStorage.GetTypingTests`: the full log is returned as a value, so callers aliasing the live array is not modelled.
- TypingSession.RefreshStats: uses the corrected accuracy formula (see Findings), so an all-wrong run shows 0% live where the code shows 100%.
- TypingSession.FinalStats: uses the corrected accuracy formula, as above.
- TypingSession.EndResult: the saved accuracy is the corrected one; as written, five wrong keys with time elapsed save 100%.
- TypingSession.Expire: the saved accuracy is the corrected one, as for `EndResult`.
- String lengths and indices count Unicode scalar values, not the UTF-16 code units JavaScript counts. A key or passage character outside the Basic Multilingual Plane would count once here and twice there (`e.key.length === 1`, `text[currentPosition]`).
- `ResultsView.FormatMode`: upper-casing covers ASCII letters only, not the full Unicode case mapping.
- Route handling, the server entry points, the database connection, build configuration, the shared schema declarations, the settings hook and the presentation components are not part of this model.

## Findings

| source | as written | input that shows it | evidently intended | confidence | as-written member | corrected member |
|---|---|---|---|---|---|---|
| client/src/lib/hooks/useTypingTest.ts:409 (also 257, 354) | `Math.round((correct / total) * 100) \|\| 100` turns a rounded 0 into 100 | five keys typed, all wrong: correct 0, total 5 | 0% accuracy; `total > 0` already rules out division by zero, so the fallback only hides a legitimate 0; the session model (live stats, `EndResult`, `Expire`) uses this corrected formula | not executed; high | TypingSession.AccuracyAsWritten | TypingSession.Accuracy |
| client/src/lib/hooks/useTypingTest.ts:524-528 | `setTimeout(() => endTest(), 10)` runs the `endTest` of the render before the keystroke, so the cursor it sees is one short of the end | text "ab", keys "a" then "b" with time left | a result for the completed text, reporting the seconds used | not executed; medium | TypingSession.TypeCharAsWritten | TypingSession.HandleKey |
