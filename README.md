# Flappy: the game simulation of the App component

This project models the game logic of the Flappy Bird clone's single screen,
the `App` component in `app/index.tsx`. It covers:

- the bird's vertical position and velocity;
- the stream of pipe pairs that scrolls from right to left;
- the score, the high score, and the `started` and `gameOver` flags;
- the four things that change them:
  - the 16 ms game-loop tick;
  - a tap (`jump`);
  - the start and restart buttons (`startGame`);
  - the effect that raises the high score when a game ends.

The files:

- `config.dfy` (module `Config`) holds the game constants and the `Screen`. The screen size is a parameter. A valid screen has a positive width and a height above 400, so the spawn range `height - 300 - 100` is not empty.
- `pipes.dfy` (module `Pipes`) models the pipe updater of one tick as pure functions:
  - the per-pipe move and scoring test of the `map`;
  - the visibility `filter`;
  - the spawn rule.

  It also holds the invariants of the pipe list and the lemmas about the stream: order, spacing, bounds, at-most-once scoring and spawn shape. `ValidStream` covers bounds and a lower bound on spacing. `Periodic` covers the exact spawn period.
- `collision.dfy` (module `Collision`) holds the `pipes.some(...)` hit test, the ground threshold, and lemmas that restate them geometrically.
- `rules.dfy` (module `Rules`) holds the seven state variables as one `State` value. It defines each transition as a function of the previous state: `Tick`, `Jump`, `Start` and `HighScoreAfter`. It also defines the reachable-state invariant `WellFormed`, and lemmas about one tick and about runs of ticks.
- `app.dfy` (module `Component`) holds the class `App`, whose fields are the state variables.
  - `Tick`, `Jump` and `StartGame` update the fields in place. Each is proved to perform its `Rules` transition (`Rules.Tick`, `Rules.Jump`, `Rules.Start`) and to keep `Valid()`, which is `WellFormed` of the fields.
  - `RecordHighScore`, the high-score effect, updates only the high score. It sets it to `Rules.HighScoreAfter` of the current `gameOver` flag, the current score and the old high score. `Tick` calls it after it has set `gameOver`.
  - `UpdatePipes`, the `setPipes` updater, changes no field. It is a loop that moves each pipe and counts the queued `setScore(+1)` calls as it goes. It returns the new list and the count, which are proved equal to `Pipes.StepPipes` and `Pipes.Crossings`.

Modelling decisions that follow the code:

- **Pre-tick velocity.** The tick closure reads the `birdY`, `velocity` and `pipes` of the previous render, because the effect is re-installed on every change (`app/index.tsx:127`). So a tick computes `velocity' = velocity + 1.5` and `birdY' = birdY + velocity`, with the velocity from *before* the tick.
- **Pre-tick collision.** The collision test sees the bird and the pipes from before the tick.
- **Pipe order.** The pipe list is kept in spawn order: index 0 is the oldest pipe, which is also the one furthest left. So `x` *increases* along the list. Pipes are ordered by decreasing `x` only by spawn age.
- **Pipe spacing.** A pipe is spawned on the first tick on which the newest pipe, moving 5 per tick from the right edge, is left of `width - width/1.5`. That takes `K = ⌊(width/1.5)/5⌋ + 1` ticks (`Pipes.SpawnPeriod`). The newest pipe is never filtered out before then. So neighbouring pipes are exactly `5 * K` apart: more than `width/1.5`, and at most `width/1.5 + 5`. The newest pipe has moved for fewer than `K` ticks (`Pipes.Periodic`, kept by every transition as part of `Rules.WellFormed`).
- **No lookahead.** The code only ever spawns at the right edge. It keeps no lookahead of pipes beyond one spacing.
- **Scoring before filtering.** A pipe is scored in the `map`, before the `filter`. A pipe that crosses the centre line and leaves the screen in the same tick still scores.

## Model

| member | source | states |
|---|---|---|
| Pipes.Advance | app/index.tsx:73-80 | the moved pipe is exactly 5 further left with the same gap; it is marked passed iff it was already passed or its trailing edge is now left of the centre line; it scores iff its flag flips |
| Pipes.AdvanceAll | app/index.tsx:72-80 | the `map` keeps the length and order of the list and applies the per-pipe move at every position |
| Pipes.Crossings | app/index.tsx:75-76 | a tick queues at most one score increment per pipe |
| Pipes.OnScreen | app/index.tsx:81 | the `filter` never lengthens the list |
| Pipes.OnScreenKeepsVisible | app/index.tsx:81 | a pipe survives the filter iff it was in the list and part of it is still on screen (`x + 50 > 0`) |
| Pipes.OnScreenDropsOldest | app/index.tsx:81 | on a list in increasing `x`, the filter removes exactly a prefix of the oldest pipes, all off screen, and keeps the visible rest in order |
| Pipes.OnScreenKeepsUnpassed | app/index.tsx:81 | when every pipe the filter drops is already scored, the number of unscored pipes is unchanged |
| Pipes.ScaleDraw | app/index.tsx:89 | `Math.random() * range` lies in `[0, range)` for a draw in `[0, 1)` |
| Pipes.SpawnedPipe | app/index.tsx:87-91 | a spawned pipe starts at the right edge, unscored, with its gap top in `[0, height - 400)` |
| Pipes.SpacedAscending | app/index.tsx:83-92 | pipes kept more than one spacing apart are in strictly increasing `x` |
| Pipes.AdvanceAllSpaced | app/index.tsx:74 | moving every pipe by the same amount keeps the pairwise spacing |
| Pipes.AdvanceAllInBounds | app/index.tsx:73-80 | a moved pipe that is still visible keeps its bounds: not right of the spawn point, gap in range, passed iff left of centre |
| Pipes.OffScreenPassed | app/index.tsx:75-81 | a pipe the move takes off screen has been scored on that move, so no unscored pipe is ever dropped |
| Pipes.CrossingsAreFlips | app/index.tsx:75-78 | the number of score increments in a tick equals the number of pipes whose `passed` flag goes from false to true |
| Pipes.CrossingsConsumeUnpassed | app/index.tsx:75-78 | every increment uses up one unscored pipe: increments plus unscored pipes after the move equal unscored pipes before |
| Pipes.SurvivorsMoved | app/index.tsx:72-81 | the survivors of a tick are, in order, the moved versions of all but the `k` oldest pipes, and those `k` are off screen and scored |
| Pipes.StepPipes | app/index.tsx:71-95 | the `setPipes` updater as a function: move, filter, then spawn when the list is empty or its newest pipe is left of `width - width/1.5`; its properties are carried by `Pipes.StepPipesSpawn`, `Pipes.StepPipesKeepsStream`, `Pipes.StepPipesKeepsPeriod` and `Pipes.StepPipesAccounting` |
| Pipes.StepPipesSpawn | app/index.tsx:83-92 | after the updater the list is non-empty; it extends the filtered list by at most one pipe, exactly when that list is empty or its newest pipe is left of `width - width/1.5`; the new pipe is at the right edge, unscored, gap in range |
| Pipes.SpawnKeepsStream | app/index.tsx:83-92 | appending a spawned pipe when the spawn test allows it keeps the list in bounds and spaced |
| Pipes.StepPipesKeepsStream | app/index.tsx:71-95 | the whole updater keeps the stream invariant: every pipe visible, in bounds, passed iff left of centre, pairwise more than one spacing apart |
| Pipes.SpawnPeriodBounds | app/index.tsx:83-88 | `SpawnPeriod` is the least number of 5-unit moves that carries the newest pipe more than one spacing from the right edge |
| Pipes.PeriodicGaps | app/index.tsx:83-88 | in a periodic stream neighbouring pipes are more than `width/1.5` and at most `width/1.5 + 5` apart |
| Pipes.SpawnedPeriodic | app/index.tsx:87-91 | a single freshly spawned pipe forms a periodic stream, its newest pipe having moved for 0 ticks |
| Pipes.NewestSurvives | app/index.tsx:72-81 | in one tick of a non-empty periodic stream the filter never drops the newest pipe, which is the moved newest pipe, and the survivors stay exactly one period apart |
| Pipes.SpawnTest | app/index.tsx:83-86 | a pipe that has moved for `j` ticks since its spawn passes the spawn test after the next move iff `j + 1` is the spawn period |
| Pipes.SpawnEveryPeriod | app/index.tsx:83-92 | on a non-empty periodic stream the spawn test fires exactly when the newest pipe has moved for `SpawnPeriod - 1` ticks, so spawns come exactly `SpawnPeriod` ticks apart |
| Pipes.StepPipesKeepsPeriod | app/index.tsx:71-95 | the updater keeps the stream periodic: neighbours exactly `5 * SpawnPeriod` apart, the newest pipe fewer than `SpawnPeriod` moves from the right edge |
| Pipes.StepPipesAccounting | app/index.tsx:71-95 | points scored in a tick plus unscored pipes afterwards equal unscored pipes before, plus one if a pipe was spawned |
| Pipes.ScoresAtMostOnce | app/index.tsx:74-78 | over any number of ticks a single pipe earns exactly one point if it was unscored and ends left of the centre line, none otherwise, so never more than one |
| Collision.HitsPipe | app/index.tsx:103-117 | the `some` callback for one pipe, top or bottom body hit; its geometric meaning is `Collision.HitsPipeIff` |
| Collision.HitsAnyPipe | app/index.tsx:102-118 | the `some` scan over the pre-tick pipe list; it is tied to an existential by `Collision.HitsAnyPipeIff` |
| Collision.OnGround | app/index.tsx:120 | the ground threshold `birdY >= height - 80 - 64`; its boundary is stated by `Collision.GroundBoundary` |
| Collision.Crashes | app/index.tsx:120 | the game-over condition, ground or pipe hit; `Collision.NoCeiling`, `Collision.ThroughTheGap` and `Rules.TickEnds` state its meaning |
| Collision.HitsPipeIff | app/index.tsx:102-118 | a pipe is hit iff the bird overlaps it horizontally and the bird's box `[y, y + 64]` does not lie within the gap `[height, height + 300]` |
| Collision.HitsAnyPipeIff | app/index.tsx:102-118 | the `some` scan reports a hit iff some pipe of the list is hit |
| Collision.OverlapsXIff | app/index.tsx:97-115 | the strict horizontal overlap holds iff the pipe's left edge lies strictly between `centre - 75` and `centre + 25` |
| Collision.NoCeiling | app/index.tsx:102-120 | with no pipe overlapping, the game ends iff the bird is at or below the ground threshold, however high it is |
| Collision.GroundBoundary | app/index.tsx:120 | the ground threshold `height - 80 - 64` is inclusive: a bird exactly there crashes, any bird above it is not on the ground |
| Collision.ThroughTheGap | app/index.tsx:102-120 | a bird above the ground whose box lies within the gap of every overlapping pipe does not crash |
| Rules.Initial | app/index.tsx:34-41 | the first render: bird at half the screen height, at rest, no pipes, score and high score 0, not started, not over |
| Rules.HighScoreAfter | app/index.tsx:152-157 | the high score never falls, only ever becomes the score, reaches the score when the game is over, and is unchanged otherwise |
| Rules.Tick | app/index.tsx:64-124 | one tick of the game loop on the state of the previous render; its properties are carried by `Rules.TickWhenInactive`, `Rules.TickMoves`, `Rules.TickEnds`, `Rules.TickKeepsWellFormed` and `Rules.TickAccounting` |
| Rules.Jump | app/index.tsx:174-179 | the tap handler as a function; its effect is stated by `Rules.JumpEffect` and `Rules.JumpKeepsWellFormed` |
| Rules.Start | app/index.tsx:159-172 | the start button as a function; its effect is stated by `Rules.StartResets` and `Rules.StartKeepsWellFormed` |
| Rules.TickWhenInactive | app/index.tsx:64-65 | a tick changes nothing unless the game is started and not over |
| Rules.TickMoves | app/index.tsx:67-95 | a running tick adds 1.5 to the velocity, moves the bird by the pre-tick velocity, steps the pipe list, and raises the score by exactly the number of flipped `passed` flags, so never lowers it |
| Rules.TickEnds | app/index.tsx:120-123 | a running tick ends the game iff the pre-tick bird is on the ground or hits a pre-tick pipe; then it stops, and the high score becomes the larger of the old high score and the final score |
| Rules.JumpEffect | app/index.tsx:174-179 | a tap sets the velocity to -15 and changes nothing else while the game runs, and changes nothing otherwise |
| Rules.StartResets | app/index.tsx:159-172 | a start runs the game with the bird at half height and at rest, score 0, the high score kept, and a single unscored pipe at the right edge with its gap in range |
| Rules.InitialWellFormed | app/index.tsx:34-41 | the first render satisfies the reachable-state invariant |
| Rules.StartKeepsWellFormed | app/index.tsx:159-172 | a start keeps the invariant, its single pipe forming a periodic stream |
| Rules.JumpKeepsWellFormed | app/index.tsx:174-179 | a tap keeps the invariant |
| Rules.TickKeepsWellFormed | app/index.tsx:67-124 | a tick keeps the invariant: valid and periodic pipe stream, never running and over at once, pipes present once a game began, high score at least the final score |
| Rules.TickAccounting | app/index.tsx:71-95 | over a running tick, score plus unscored pipes grows by one exactly when a pipe is spawned, so each pipe contributes one point over its life and never two |
| Rules.RunWhenInactive | app/index.tsx:64-65 | any number of ticks leave a game that is not running exactly as it is |
| Rules.RunScoreMonotone | app/index.tsx:64-124 | over any run of ticks the score never falls, and once the game is over nothing changes |
| Rules.FallClosedForm | app/index.tsx:68-69 | `n` ticks of gravity with the pre-tick velocity move the bird to `y + n*v + 1.5*n*(n-1)/2` |
| Rules.RunFalls | app/index.tsx:68-69 | a run of ticks without taps that leaves the game running moves the bird along that fall and adds 1.5 per tick to the velocity |
| Rules.FirstTickHoldsHeight | app/index.tsx:162-163 | the first tick after a start leaves the bird at half height, because it moves by the reset velocity 0, and sets the velocity to 1.5 |
| Component.App.constructor | app/index.tsx:34-41 | the component's fields start at the first-render state, which satisfies the invariant |
| Component.App.Tick | app/index.tsx:67-124 | the interval callback updates the fields to exactly the `Rules.Tick` successor of the old state and keeps the invariant |
| Component.App.UpdatePipes | app/index.tsx:71-95 | the `setPipes` loop returns the moved, filtered and possibly extended list, and counts one queued `setScore` increment per pipe that crosses the centre line |
| Component.App.RecordHighScore | app/index.tsx:152-157 | the high-score effect sets the high score to `Rules.HighScoreAfter` of the flag, the score and the old high score, and changes no other field |
| Component.App.Jump | app/index.tsx:174-179 | the tap handler updates only the velocity, to exactly the `Rules.Jump` successor, and keeps the invariant |
| Component.App.StartGame | app/index.tsx:159-172 | the start button updates the fields to exactly the `Rules.Start` successor and keeps the invariant |

## Left out

- Rendering: the JSX tree, the `StyleSheet` and the image assets (`app/index.tsx:181-398`) are presentation only.
- The ground scroll animation (`app/index.tsx:43-55`) and the bird's sprite-frame interval (`app/index.tsx:57-62`) are animation with no effect on the game state.
- The high-score persistence (`app/index.tsx:129-150`) and the `saveHighScore` call in the effect are asynchronous storage I/O through a foreign library. A high score loaded from storage by `parseInt` could be any number, even NaN. The invariant `WellFormed` assumes a non-negative high score, as in a fresh component.
- `Math.random()` (`app/index.tsx:89`, `168`) is a parameter `rand` of the tick and the start, assumed to lie in `[0, 1)`.
- `Dimensions.get` is replaced by a fixed `Screen` parameter. Screens of height 400 or less, where the spawn range would be empty or negative, are not modelled.
- Timing and React semantics are not modelled:
  - the 16 ms interval;
  - render batching;
  - tearing the interval down and re-installing it on every change;
  - strict-mode double invocation of updaters.

  Each tick is one atomic step over the state of the previous render. Taps are separate steps between ticks.
- Floating point: positions and velocities are exact `real`s, not IEEE-754 doubles. Rounding of `x - 5`, `width / 1.5` and the random gap is not captured.
- `birdFrame` is left out of the state because no game rule reads it.

