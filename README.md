# Mirror Maze and Code Breaker, modelled in Dafny

The repository holds two small browser games, and this project models the
logic of both.

**Mirror Maze** (game.js, levels.js). Two players move in mirrored
directions over a grid. A key press or swipe moves player 1 by a step and
player 2 by the opposite step. The move is committed only when both target
cells are inside the grid and off every wall. A level is won when each
player stands on its own goal. The time is then recorded and the game
either schedules the next level or reports the total time.

- `Levels` holds the five-level catalog. Each wall line of levels.js
  becomes one `Column` or `Row` segment, except the two-cell lines of
  level 2 (levels.js:27, 29, 31), which stay literal pairs of cells.
- `Game` holds the direction mappings and the `MirrorMaze` class. The
  class carries the fields that game.js updates in place: `currentLevel`,
  `state` (gameState), `timer`, plus `pendingLoads`. The class invariant
  `Valid()` says both players always stand on free cells.
- The one-second `setTimeout` that loads the next level is an explicit
  step, `FirePendingLoad`. `pendingLoads` counts those still to run.

**Code Breaker** (api/daily_code.js, api/validate_guess.js). Players guess
a daily five-digit code with distinct digits.

- `DailyCode` models the generator and the GET endpoint. The seed is the
  UTC date read as the number YYYYMMDD. The Park–Miller step
  `rng := rng * 16807 mod 2147483647` runs until five different values of
  `rng mod 10` have been seen. They are kept in order of first appearance.
- `ValidateGuess` models the POST endpoint. A guess must be five digits
  with none repeated. It is then scored in two passes: exact positions,
  then right digits in the wrong place.

The generator's arithmetic stays below 2^53, so in JavaScript it is exact,
and the model uses unbounded `int`. Mirror Maze divides milliseconds by
1000 and sums the resulting floating-point seconds (game.js:149-150, 161);
the model instead keeps an integer clock parameter `now` and integer
milliseconds, so those sums are exact here and may not be in the browser.
Whether the generator loop stops for every seed is not proved.
`GenerateDailyCode` therefore takes a step budget `fuel` and answers
`None` when the budget runs out. Its contract then says that no number of
steps within the budget collects five digits.

## Model

| member | source | states |
|---|---|---|
| Levels.ZigzagPaths | levels.js:3-16 | level 1 as a value: 8×8, its starts and goals, and the four wall lines as column segments; `ZigzagPathsWellFormed` pins it down |
| Levels.SpiralMaze | levels.js:18-33 | level 2 as a value: 10×10, three column segments and three literal two-cell lines; `SpiralMazeWellFormed` pins it down |
| Levels.ComplexCrossing | levels.js:35-52 | level 3 as a value: 12×12 with its column and row segments; `ComplexCrossingWellFormed` pins it down |
| Levels.DeadEnds | levels.js:54-73 | level 4 as a value: 14×14 with its column and row segments; `DeadEndsWellFormed` pins it down |
| Levels.UltimateChallenge | levels.js:75-96 | level 5 as a value: 16×16 with its column and row segments; `UltimateChallengeWellFormed` pins it down |
| Levels.LEVELS | levels.js:1-97 | the catalog: the five levels in play order; `CatalogSizes` and `CatalogWellFormed` pin it down |
| Levels.CatalogSizes | levels.js:1-97 | there are exactly five levels, and level i has a square grid of side 8 + 2i (8, 10, 12, 14, 16) |
| Levels.GridsGrow | levels.js:1-97 | a later level's grid is never smaller than an earlier one's |
| Levels.ZigzagPathsWellFormed | levels.js:3-16 | level 1: starts, goals and walls are on the grid; no start or goal is a wall; player 2's start and goal reflect player 1's through the grid centre; neither goal is a start cell |
| Levels.SpiralMazeWellFormed | levels.js:18-33 | the same four facts for level 2 |
| Levels.ComplexCrossingWellFormed | levels.js:35-52 | the same four facts for level 3 |
| Levels.DeadEndsWellFormed | levels.js:54-73 | the same four facts for level 4 |
| Levels.UltimateChallengeWellFormed | levels.js:75-96 | the same four facts for level 5 |
| Levels.CatalogWellFormed | levels.js:1-97 | every level of the catalog is well formed, mirrored, and has its goals away from its starts |
| Levels.StartsAreFree | levels.js:1-97 | both start cells of every level are on its grid and off its walls |
| Levels.StillOnGrid | levels.js:1-97 | a cell on one level's grid is on the next level's grid |
| Levels.SegmentCells | levels.js:6-15 | a column (row) segment holds exactly the cells of that column (row) between its two ends |
| Levels.Reflect | levels.js:6-9 | the reflection of a cell is on the grid exactly when the cell is, and the two add up to (width-1, height-1) |
| Game.KeyDirection | game.js:33-47 | each arrow key maps to its step, ArrowLeft (-1,0), ArrowRight (1,0), ArrowUp (0,-1), ArrowDown (0,1), in both directions of the iff; every other key maps to nothing |
| Game.ArrowKeyRoundTrip | game.js:33-47 | every unit step has exactly one arrow key; mapping a step to its key and back, or a key to its step and back, is the identity |
| Game.SwipeDirection | game.js:63-70 | a swipe gives a unit step; it is horizontal iff abs(dx) > abs(dy); its sign is that of the chosen extent, and zero counts as negative |
| Game.SwipeAlong | game.js:63-70 | a swipe of any positive length along a unit step gives back that step |
| Game.Record | game.js:151 | writing `levelTimes[k]` sets entry k, keeps every other entry, and pads with holes when k lies past the end |
| Game.TotalAfterRecord | game.js:151-161 | after writing entry k, the total is the old total minus the old entry k (zero for a hole) plus the new time |
| Game.TotalTime | game.js:161 | `levelTimes.reduce((a, b) => a + b, 0)`: the sum of the recorded entries, skipping holes; `TotalAfterRecord` and `TotalOfHoles` pin it down |
| Game.TotalOfHoles | game.js:161 | holes add nothing to the reduced total |
| Game.StepOffGoalsAfterLevel4 | game.js:102-164 | with `currentLevel` on level 5 and the state still holding level 4's cells, both players can step left off their goals and back, so a second win on the last level follows |
| Game.StepOffGoalsOnLevel5 | game.js:102-164 | on level 5, both players can step left off their goals and back, so the completion is reported again |
| Game.MirrorMaze.constructor | game.js:2-26 | a new session is on level 0 with level 0's cells, the timer running from `now`, no recorded times, no pending load, and both players on free cells |
| Game.MirrorMaze.LoadLevel | game.js:81-96 | sets `currentLevel` to the index and copies players, goals and walls from that catalog entry; starts the timer at `now` with zero current time and keeps the recorded times; afterwards both players are on free cells |
| Game.MirrorMaze.Restart | game.js:30 | reloads the level `currentLevel` names and keeps the invariant |
| Game.MirrorMaze.FirePendingLoad | game.js:157-159 | a scheduled load consumes one pending load and loads the level `currentLevel` names when it fires |
| Game.MirrorMaze.IsValidMove | game.js:120-137 | true iff the cell is on the current level's grid and not among the walls of the game state |
| Game.MirrorMaze.CheckWinCondition | game.js:139-164 | a win needs player 1 on goal 1 and player 2 on goal 2. On a win, a running timer stops and records now − start at `levelTimes[currentLevel]`; a stopped one is left as it is. Then the level goes up by exactly one and a load is scheduled, or, on the last level, the level stays and the outcome carries the sum of the recorded times. Without a win nothing changes. The invariant is kept. |
| Game.MirrorMaze.MovePlayers | game.js:102-118 | player 1's target is p1 + (dx,dy) and player 2's is p2 − (dx,dy). If both targets are free, both move (goals and walls untouched) and the win check runs; otherwise nothing changes and no win check runs. Both players stay on free cells either way. |
| DailyCode.Lcg | api/daily_code.js:11 | one step of the generator; the result is below 2147483647 |
| DailyCode.State | api/daily_code.js:8-11 | the generator state after k steps from the seed: k applications of `Lcg`; `EmittedFrom20240115` pins down its first six digits for seed 20240115 |
| DailyCode.Emitted | api/daily_code.js:10-12 | the digits `rng % 10` of the first n steps, one per step, so there are n of them; `EmittedAreDigits` says each is a digit |
| DailyCode.InsertionOrdered | api/daily_code.js:7-13 | the `Set` filled by `add`: no longer than its input; `InsertionOrderedContents` and `InsertionOrderIsFirstAppearance` pin down its contents and order |
| DailyCode.InsertionOrderedContents | api/daily_code.js:7-13 | the `Set` filled by `add` holds each emitted value exactly once and no other |
| DailyCode.InsertionOrderIsFirstAppearance | api/daily_code.js:7-16 | the collected digits come in the order in which each first appeared |
| DailyCode.EmittedAreDigits | api/daily_code.js:12 | every emitted value `rng % 10` is a digit 0..9 |
| DailyCode.CollectedGrows | api/daily_code.js:10-14 | more steps never collect fewer digits |
| DailyCode.DigitString | api/daily_code.js:16 | `Array.from(digits).join('')`: one numeral per digit, index for index, so as long as the digits, with no repeat when the digits have none |
| DailyCode.StopIsUnique | api/daily_code.js:10 | the loop can stop after only one step count: the first at which five digits are collected |
| DailyCode.DailyCodeIsUnique | api/daily_code.js:2-17 | the daily code is a function of the seed alone |
| DailyCode.GenerateDailyCode | api/daily_code.js:2-17 | a returned code has five distinct characters, each '0'..'9', and is the daily code of the seed (the digits collected when the loop first holds five); `None` comes back exactly when no step count within the budget collects five |
| DailyCode.CodeOn20240115 | api/daily_code.js:10-16 | from seed 20240115 the loop stops after six steps (digits 9, 2, 9, 3, 0, 7) with code "92307" |
| DailyCode.IsoDay | api/daily_code.js:3 | the date as YYYY-MM-DD with zero-padded fields; `IsoDayValue` pins down what it reads as once de-hyphenated |
| DailyCode.WithoutHyphens | api/daily_code.js:4 | `replace(/-/g, '')`: never longer than its input; `WithoutHyphensMembers` and `WithoutHyphensAppend` pin it down |
| DailyCode.DecimalValue | api/daily_code.js:4 | `parseInt` of a digit string, most significant digit first; `DecimalValueAppend` and `NumeralValue` pin it down |
| DailyCode.NumeralValue | api/daily_code.js:3-4 | a zero-padded numeral reads back as the number it was printed from |
| DailyCode.DecimalValueAppend | api/daily_code.js:4 | reading the digits a+b gives value(a)·10^len(b) + value(b) |
| DailyCode.IsoDayValue | api/daily_code.js:3-4 | YYYY-MM-DD with its hyphens removed is all digits and reads as year·10000 + month·100 + day |
| DailyCode.DateSeed | api/daily_code.js:3-4 | the seed of a date is year·10000 + month·100 + day |
| DailyCode.DistinctDaysDistinctSeeds | api/daily_code.js:3-4 | different days give different seeds |
| DailyCode.StopGivesCode | api/daily_code.js:10-16 | the digits collected when the loop exits form a five-character code with no repeated character, each '0'..'9', and that code is the daily code of the seed |
| DailyCode.OutOfFuel | api/daily_code.js:10-14 | when a budget of steps collects fewer than five digits, every shorter run does too |
| DailyCode.WithoutHyphensMembers | api/daily_code.js:4 | `replace(/-/g, '')` keeps every character except '-', and only those |
| DailyCode.HandleDailyCode | api/daily_code.js:19-28 | a GET is answered 200 with the day's daily code (five distinct digits), and is not answered exactly when the budget runs out before five digits are collected; any other method gets 405 with Allow: GET |
| ValidateGuess.IsFiveDigits | api/validate_guess.js:42 | `/^\d{5}$/`: exactly five characters, each '0'..'9'; `HandleGuess` uses it for the format error |
| ValidateGuess.DistinctChars | api/validate_guess.js:47 | `new Set(guess.split('')).size`: the number of different characters; `DistinctCharsCountsRepeats` pins it down |
| ValidateGuess.DistinctCharsCountsRepeats | api/validate_guess.js:47 | `new Set(s.split('')).size` is at most the length, and equals it exactly when no character repeats |
| ValidateGuess.ExactCountFull | api/validate_guess.js:84 | all five positions match exactly when guess and code are equal |
| ValidateGuess.ExactAndMisplacedFit | api/validate_guess.js:58-82 | exact hits plus misplaced digits never exceed the number of positions |
| ValidateGuess.FirstFree | api/validate_guess.js:74-80 | the inner scan returns a code index from the start index on that is not in the set and holds the digit |
| ValidateGuess.FirstFreeIsFirst | api/validate_guess.js:74-80 | no free index holding the digit comes before the one found, and none exists when nothing is found |
| ValidateGuess.SharedPass | api/validate_guess.js:71-82 | the second pass as written: its index set always contains the exact hits and only indices of the code |
| ValidateGuess.SharedPassAtMostMisplaced | api/validate_guess.js:71-82 | as written, `correctDigit` never exceeds the number of guess positions that miss their own place but whose digit is in the code |
| ValidateGuess.SharedPassOnEqual | api/validate_guess.js:63-82 | when guess and code are equal, the first pass uses every index and the second credits nothing |
| ValidateGuess.ExactPass | api/validate_guess.js:63-69 | the first pass counts the indices where guess and code agree and collects exactly those indices |
| ValidateGuess.ScoreAsWritten | api/validate_guess.js:58-84 | as written: `correctPosition` is the number of indices where guess and code agree; `correctDigit` is what the shared-set second pass counts; their sum is at most 5; `isCorrect` holds iff `correctPosition` is 5 (api/validate_guess.js:84), which is iff guess equals code |
| ValidateGuess.AsWrittenOnEqual | api/validate_guess.js:63-84 | as written, a guess equal to the code scores (5, 0, true) |
| ValidateGuess.ScoreOf54321 | api/validate_guess.js:63-69 | guess 54321 against code 12345 has one exact hit, at index 2, and four misplaced digits |
| ValidateGuess.SharedPassUndercounts | api/validate_guess.js:71-82 | as written, that guess is credited two misplaced digits, not four |
| ValidateGuess.ScoreOf29703 | api/validate_guess.js:63-69 | guess 29703 against 92307, the code of 2024-01-15, has one exact hit, at index 3, and four misplaced digits |
| ValidateGuess.SharedPassOf29703Head | api/validate_guess.js:71-82 | as written, after guess indices 0 and 1 the set is {1, 3} and one digit is credited: guess index 1 is skipped because code index 1 was consumed |
| ValidateGuess.FirstFreeOf7In92307 | api/validate_guess.js:74-80 | with code indices 1 and 3 taken, the scan for '7' in 92307 finds index 4 |
| ValidateGuess.SharedPassOf29703Third | api/validate_guess.js:71-82 | as written, guess index 2 then claims code index 4, for two credits |
| ValidateGuess.SharedPassUndercountsOn20240115 | api/validate_guess.js:71-82 | as written, on 2024-01-15 the guess 29703 is credited two misplaced digits, not four |
| ValidateGuess.ClaimStep | api/validate_guess.js:74-78 | with no repeated digits, pairing a misplaced guess digit with its code index keeps the consumed set exact and counts one more misplaced digit |
| ValidateGuess.NoClaimStep | api/validate_guess.js:73-80 | with no repeated digits, a guess digit that finds no free code index is an exact hit or absent from the code |
| ValidateGuess.ScoreGuess | api/validate_guess.js:58-84 | corrected scorer: `correctPosition` counts the exact hits; the sum is at most 5; `isCorrect` holds iff guess equals code; with no repeated digits in guess and code, `correctDigit` counts every misplaced digit |
| ValidateGuess.ServedCodeWins | api/validate_guess.js:2-17 | the code served by the daily-code endpoint and the code scored by the guess endpoint on the same day are equal, so guessing it scores five exact hits |
| ValidateGuess.HandleGuess | api/validate_guess.js:26-90 | OPTIONS gets the preflight reply and any method but POST gets 405 with Allow: POST. A missing guess, or one that is not five digits, is rejected as a format error before the repeat check. A five-digit guess with a repeated digit is rejected as such. A guess that passes both checks is answered 200 or, when the budget runs out, not at all; a 200 body is the as-written score against the day's daily code: the exact hits, the shared-set second pass's count, and whether guess equals code. |

## Left out

- Canvas drawing, `resizeCanvas`, the animation loop and DOM text updates (game.js:74-79, 98, 166-289): display only.
- `Date.now()` and times in seconds (game.js:94, 150, 161, 171): the clock is an integer parameter `now` in milliseconds, and `currentTime`, updated only while drawing, is left as loadLevel sets it.
- The one-second delay of `setTimeout` (game.js:157-159): kept only as the separate `FirePendingLoad` step; when it fires is left to the caller.
- Touch coordinates are integers in `SwipeDirection`; the browser's fractional client coordinates are not modelled.
- `alert` and `console.log`: output side effects. The total the alert shows is the `total` carried by `GameCompleted`.
- Event listener registration (game.js:28-72): each handler is modelled as the function or method it calls.
- GenerateDailyCode: the loop runs at most `fuel` steps, because termination for every seed is not proved. The model does not show that some budget suffices for every date.
- Dates outside the years 0000–9999, and calendar validity of the day (a 31 February is accepted): `toISOString` prints other years differently.
- The CORS headers (api/validate_guess.js:20-23) and the 500 replies of both `catch` blocks: HTTP plumbing. The guess is modelled as an optional string. A non-string guess whose string form passes `/^\d{5}$/` (the number 12345, say) would reach `guess.split` and the 500 reply; falsy values and others such as 123 or {} fail the format test at api/validate_guess.js:42-43 and get the 400 format error, as a string would.
- api/leaderboard.js, puzzle-manager.js, server.js and api/config.js: remote storage, file copying, static serving and an environment read. None of them is part of this model.

During a pending load, `currentLevel` already names the next level while
the state still holds the old cells. A move then uses the next level's
bounds with the old walls and goals. Another win in that window schedules
a second load and skips the next level. In the window after level 4 it
instead reports the game complete before level 5 is played, and level 5
still loads when the timeout runs (`StepOffGoalsAfterLevel4`: stepping left
off the goals and back is possible there). Once level 5 is won, stepping off
the goals and back reports completion again (`StepOffGoalsOnLevel5`), so
completion is not signalled only once. The model keeps this behaviour as
written.

## Findings

| source | as written | input that shows it | evidently intended | confidence | as-written member | corrected member |
|---|---|---|---|---|---|---|
| api/validate_guess.js:71-82 | one `usedIndices` set records both the guess indices matched in pass 1 and the code indices consumed in pass 2; line 73 tests a guess index against it, so a guess position is skipped whenever the code position with the same number was consumed | guess 54321, code 12345: (1 exact, 2 misplaced); guess 29703 on 2024-01-15, code 92307: (1 exact, 2 misplaced) | (1 exact, 4 misplaced): every guess digit in the wrong place is credited when guess and code have no repeated digits | high (not executed) | ValidateGuess.SharedPassUndercounts | ValidateGuess.ScoreGuess |

`HandleGuess` models the endpoint as written, so its 200 body carries the
shared-set count. `ScoreGuess` is the corrected scorer; nothing in the
endpoint model calls it.
