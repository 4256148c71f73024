# Colour-matching game: a verified model

`app.js` is a browser game for toddlers. The screen turns a colour, and the child
taps emoji tiles of that colour among scattered tiles of three other colours. Four
correct taps fill the row of slots and move the game to the next of eight colour
stages. After the last colour comes a rainbow bonus stage, and its single rainbow
tile restarts the game. This project models the parts of `app.js` with real logic
and proves what they promise:

- `util.dfy` (module `Util`): the Fisher–Yates `shuffle` over a copy of its
  argument, `sample`, and the "pairwise distinct under a key" predicate.
- `palette.dfy` (module `Palette`): the tuning constants, the eight colour
  categories and the tile record.
- `pool.dfy` (module `Pool`): the tile-pool builders `buildChoicesForTarget`,
  `buildTilesForChoices` and `buildRainbowTiles`. Their nested loops flatten
  categories into `(colorId, emoji)` tiles and keep each key `colorId:emoji` once.
  A reference definition `PoolOf` (flatten, then de-duplicate) specifies the loops.
- `layout.dfy` (module `Layout`): the geometry of `renderBoard`. It covers
  `overlaps`, the tile-size clamp, `tryRelocate` (at most 500 random placements)
  and `resolveOverlaps` (at most 5 passes), all over an array of tile positions
  updated in place.
- `stages.dfy` (module `Stages`): the stage progression reduced to
  `(stage, rainbow, correct)`. Lemmas cover sequences of correct taps.
- `boards.dfy` (module `Boards`): what a stage shows. That is its target, its
  choices and tiles as the builders make them, and the builder calls the stage
  functions make.
- `game.dfy` (module `GameState`): the global state as the class `Game`, with
  fields `stageIndex`, `correctInStage`, `isBusy`, `currentTarget`,
  `currentChoices`, `tiles`, the per-button `disabled` marks and the drawn layout.
  Its methods are the stage transitions and the tap handler `onTilePointerDown`.
  Value-level functions (`TapOutcome`, `AfterTap`) state what a tap does to the
  input state, and the handler's contract is stated through them. Lemmas about
  those functions state the tap properties: debounce, one-shot buttons, counter
  bounds, and when a reshuffle or a restart is scheduled.

How the environment is modelled:
- `Math.random` is a nondeterministic choice: a swap index in `[0, i]`, or a real
  in `[0, 1)`. Every contract therefore holds for every random outcome.
- `window.setTimeout` callbacks are pending counters, `pendingUnlocks`,
  `pendingReshuffles` and `pendingRestarts`. The environment fires one by calling
  `UnlockBusy`, `FireReshuffle` or `FireRestart`.
- A pending reshuffle or restart fires against whatever stage is showing by then,
  as in the code.
- The board's size is the `boardW`/`boardH` fields, which change on resize.
- `renderBoard` is modelled by what the game can observe afterwards: a position per
  tile inside the padded board, a clamped tile size, and every button enabled.

Where the code and its own documentation disagree, the model follows the code:
- `overlaps(a, b, margin)` counts two tiles as colliding only when they
  interpenetrate by more than `margin` on both axes. The margin shrinks the
  collision zone rather than keeping a gap (`Layout.OverlapsMeansPenetration`).
- The `resize` listener only calls `renderBoard()`; it does not rebuild the tiles.
  The redraw creates new buttons that are all enabled, so a button tapped before a
  resize can be tapped again. The one-shot guarantee therefore holds per drawn
  board (`GameState.Game.OnResize`, `GameState.TapConsumesButton`).
- A tap that clears a stage returns before the low-water count, so it never
  schedules a reshuffle (`GameState.TapReshuffles`).

In the rainbow stage `currentTarget.id` is `"rainbow"`, and no ordinary tile carries
that colour (`Boards.RainbowColourIsSpecial`). So every tap there other than on the
rainbow tile takes the wrong-tap branch, and it can schedule a reshuffle of the
rainbow board.

## Model

| member | source | states |
|---|---|---|
| Util.Shuffle | app.js:96-103 | the result is a permutation of the argument: same length, same multiset; the argument is a value, so the caller's sequence is untouched |
| Util.Sample | app.js:104 | `shuffle(arr).slice(0, n)` has `min(n, |arr|)` elements, a sub-multiset of `arr` (drawn without replacement), and all of `arr` when it has at most `n` |
| Util.DistinctBySubMultiset | app.js:140-141 | distinctness under a key survives shuffling, truncating and sampling |
| Palette.PaletteWellFormed | app.js:28-37 | the eight categories have distinct ids free of `:` and not `"rainbow"`, and four distinct emoji each |
| Pool.Key | app.js:151 | the de-duplication key of a tile, `${c.id}:${e}` |
| Pool.KeyInjective | app.js:169 | with `:`-free colour ids, equal keys `${c.id}:${e}` mean equal colour and emoji |
| Pool.Dedup | app.js:149-156 | the reference de-duplication: walk the tiles in order and keep a tile only when no earlier kept tile has its key |
| Pool.PoolOf | app.js:146-156 | the reference pool of a list of categories: their tiles in loop order, de-duplicated by key |
| Pool.FlattenMembers | app.js:150-153 | the flattened tiles are exactly the ordinary tiles showing an emoji of one of the categories |
| Pool.DedupProperties | app.js:149-156 | the de-duplicated pool repeats no key, invents no tile and loses no key |
| Pool.PoolComplete | app.js:149-156 | every ordinary tile of the categories survives de-duplication |
| Pool.PoolOfWellFormed | app.js:146-157 | over well-formed categories nothing is dropped: four tiles per category |
| Pool.CollectCategory | app.js:150-155 | after the inner loop over one more category, the pool is the reference `Dedup` of every tile seen so far and `seen` holds exactly its keys |
| Pool.CollectUnique | app.js:146-157 | the nested `seen`-set loops build exactly `PoolOf(cs)` |
| Pool.Without | app.js:139 | `COLORS.filter(c => c.id !== id)`: the categories whose id differs, in their order |
| Pool.WithoutProperties | app.js:139 | `COLORS.filter(c => c.id !== id)` keeps exactly the categories with another id |
| Pool.OthersInPalette | app.js:139 | every palette colour has seven others to sample from |
| Pool.BuildChoicesForTarget | app.js:138-142 | the choices contain the target, number `1 + min(3, others)`, have pairwise distinct ids, and every other choice is a palette colour with a different id |
| Pool.BuildTilesForChoices | app.js:144-161 | `min(MAX_TILES, |pool|)` tiles drawn from the pool (all of it when it fits), no key twice, every tile an ordinary tile of a chosen colour |
| Pool.AddRainbowTiles | app.js:179-181 | the loop appends the rainbow tile `RAINBOW_COUNT` times |
| Pool.RainbowShuffled | app.js:176-182 | any order of pool tiles plus one rainbow tile has exactly one rainbow tile, no key twice and only palette tiles besides |
| Pool.BuildRainbowTiles | app.js:163-183 | `min(MAX_TILES - 1, |pool|) + 1 <= MAX_TILES` tiles, exactly `RAINBOW_COUNT` rainbow tiles, every other tile an ordinary palette tile, no key twice |
| Pool.RainbowPoolSize | app.js:163-177 | the full palette pool has 32 tiles, so `buildRainbowTiles` keeps 31 of them besides the rainbow tile |
| Layout.RectAt | app.js:210 | the rectangle `{ left:x, top:y, right:x+size, bottom:y+size }` of a tile at `(x, y)` |
| Layout.Overlaps | app.js:193-200 | `overlaps(a, b, margin)` as written: the rectangles collide unless one lies at or beyond an edge of the other moved inwards by `margin` |
| Layout.OverlapsSymmetric | app.js:193-200 | `overlaps(a, b, m) == overlaps(b, a, m)` |
| Layout.OverlapsZeroMargin | app.js:193-200 | with margin 0, `overlaps` holds exactly when the two rectangles share an interior point |
| Layout.OverlapsMeansPenetration | app.js:193-200 | for tiles larger than the margin, `overlaps` holds exactly when they interpenetrate by more than the margin on both axes |
| Layout.MarginShrinksCollisions | app.js:193-200 | a larger margin only removes collisions |
| Layout.TileSize | app.js:259 | the clamp `max(40, min(96, approx))` lies in [40, 96] and is `approx` inside that range |
| Layout.TileSizeMonotone | app.js:259 | the clamp is monotone in `approx` |
| Layout.MaxCoord | app.js:204-205 | the largest left (top) coordinate `max(pad, extent - size - pad)`, never below the padding |
| Layout.Scaled | app.js:208-209 | `pad + random * (max - pad)` lies in `[pad, max]`, below `max` when `max > pad` |
| Layout.HitsOther | app.js:212-217 | the scan reports a hit exactly when the candidate overlaps some tile other than the one being moved |
| Layout.TryRelocate | app.js:202-225 | only the moved tile can change; on success it lies in the padded board and overlaps no other tile; on failure nothing changes |
| Layout.RelocationClears | app.js:218-222 | a successful relocation creates no collision, and the moved tile collides with no other tile |
| Layout.ResolvePass | app.js:231-245 | one pass only puts tiles inside the padded board and creates no collision. A tile with no colliding earlier tile stays put, so the first tile never moves. Every pair still colliding afterwards is recorded in `unresolved`, and every recorded pair collided at the start of the pass. A pass that moved nothing changed nothing, and then the colliding pairs are exactly the recorded ones |
| Layout.ResolveRow | app.js:234-243 | the inner loop over the pairs `(i, j)`, `j > i`, carries the pass's bookkeeping from row `i` to row `i + 1`: tiles kept or inside the board, no new collision, isolated tiles kept, every colliding examined pair recorded, only pairs that collided at the start of the pass recorded |
| Layout.ExaminePair | app.js:235-242 | examining one pair keeps the same bookkeeping: only the later tile moves, and only when the pair collides; a success creates no collision; a failure records a pair that collides |
| Layout.ResolveOverlaps | app.js:227-247 | between 1 and 5 passes, 5 unless a pass moved nothing. Every tile is where it was or inside the padded board. No collision is created, and a tile with no colliding earlier tile stays put. Every pair still colliding is recorded in `unresolved` by the last pass, and every recorded pair collided at the start; after an early stop the colliding pairs are exactly the recorded ones |
| Layout.RenderLayout | app.js:256-291 | one position per tile, the clamped size, and every tile inside the padded board |
| Stages.Next | app.js:373-380 | `nextStage()` with `RAINBOW_STAGE` set: the following colour stage, or the rainbow stage after the last one keeping `stageIndex`, with the counter reset |
| Stages.AfterCorrect | app.js:330-336 | a correct tap counts one more, and at `NEED_CORRECT` the stage moves on as `Next` says |
| Stages.NextValid | app.js:373-380 | leaving a colour stage goes to the next colour stage, or to the rainbow stage after the last one, with a zero counter |
| Stages.AfterCorrectValid | app.js:330-336 | a correct tap keeps `0 <= correctInStage < NEED_CORRECT` and either counts one more or clears the stage |
| Stages.TapsAdd | app.js:330-336 | taps compose: `a` taps then `b` taps are `a + b` taps |
| Stages.StageNeedsFourTaps | app.js:330-336 | exactly four correct taps clear a fresh colour stage, and fewer leave it in place |
| Stages.TapsFromStart | app.js:330-336 | from a restart, `n < 32` correct taps leave the game in stage `n / 4` with `n % 4` slots filled |
| Stages.RainbowAfterAllStages | app.js:373-380 | the rainbow stage is reached by exactly the 32nd correct tap after a restart |
| Boards.OrdinaryBoardShowsTarget | app.js:144-161 | every colour stage shows all 16 tiles of its four choices, so all four tiles of its target |
| Boards.BuildStage | app.js:353-355 | the builder calls of `startStage(i)` give `COLORS[i]`'s choices and an ordinary board for them |
| Boards.BuildRainbowBoard | app.js:365 | `buildRainbowTiles()` gives a rainbow board whose only rainbow-coloured tile is the special one |
| Boards.BuildBoard | app.js:383-387 | the builder choice of `reshuffleCurrent()` keeps the stage showing what it calls for |
| Boards.RainbowColourIsSpecial | app.js:163-183 | on the rainbow board, a tile coloured `"rainbow"` is the special rainbow tile |
| GameState.CountEnabled | app.js:344 | the number of enabled buttons is at most the number of buttons |
| GameState.CountEnabledDisable | app.js:300 | disabling an enabled button lowers the count by exactly one |
| GameState.CountEnabledFresh | app.js:276 | a freshly drawn board has every button enabled |
| GameState.ReactOutcome | app.js:313-341 | the branch of an accepted tap: the rainbow tile, a wrong colour, the `NEED_CORRECT`-th correct tap, or another correct tap |
| GameState.TapOutcome | app.js:304-341 | the branch of a tap: refused while busy or on a disabled button, otherwise `ReactOutcome` |
| GameState.AfterReact | app.js:313-347 | the input state after each branch: a restart scheduled; a reshuffle scheduled at low water; the counter incremented; or a new board of enabled buttons with a zero counter |
| GameState.AfterTap | app.js:304-347 | the input state after a tap: unchanged when refused, otherwise locked, the button disabled, then `AfterReact` |
| GameState.TapIgnored | app.js:308-309 | a tap is refused exactly while busy or on a disabled button, and a refused tap changes nothing |
| GameState.TapLocks | app.js:311-312 | every accepted tap sets `isBusy` and schedules exactly one unlock |
| GameState.TapConsumesButton | app.js:309-312 | after an accepted tap that does not clear the stage, a second tap on the same button is refused even once unlocked, and one fewer button is enabled |
| GameState.TapCounter | app.js:327-336 | `0 <= correctInStage < NEED_CORRECT` after every tap; a matching tap counts as `Stages.AfterCorrect` says; any other tap leaves the counter alone |
| GameState.TapRestarts | app.js:315-320 | a restart is scheduled by the rainbow tile and by nothing else |
| GameState.TapReshuffles | app.js:343-347 | a reshuffle is scheduled exactly by a counted or wrong tap that leaves at most `RESHUFFLE_WHEN_LEFT` enabled buttons |
| GameState.TapClears | app.js:332-336 | a clearing tap leaves a board with every button enabled |
| GameState.Game.Valid | app.js:45-50 | between events the progress is valid: a colour stage index, a counter below `NEED_CORRECT`, and the rainbow stage only after the last colour stage |
| GameState.Game.constructor | app.js:422-423 | page load ends in stage 0 with a zero counter, no lock, no timers pending, a valid state and every button enabled |
| GameState.Game.ResetSlots | app.js:124 | the counter is zero and nothing else changes |
| GameState.Game.RenderBoard | app.js:249-292 | every button enabled, one position per tile inside the padded board; the stage is untouched |
| GameState.Game.StartStage | app.js:351-360 | `stageIndex = i`, `currentTarget = COLORS[i]`, zero counter, a valid state with fresh buttons |
| GameState.Game.StartRainbowStage | app.js:362-371 | the rainbow target, no choices, zero counter, a rainbow board with fresh buttons; `stageIndex` untouched |
| GameState.Game.NextStage | app.js:373-380 | the progress moves as `Stages.Next` says, into a valid state with fresh buttons |
| GameState.Game.ReshuffleCurrent | app.js:382-389 | only the tiles and the drawn board change; the state stays valid and every button is enabled |
| GameState.Game.RestartGame | app.js:391-393 | back to stage 0 with a zero counter, a valid state |
| GameState.Game.LockShort | app.js:295-298 | `isBusy` is set and one more unlock is pending |
| GameState.Game.DisableButton | app.js:299-302 | exactly the tapped button is marked disabled |
| GameState.Game.CountCorrect | app.js:330-337 | the counter moves as `Stages.AfterCorrect` says; the stage clears exactly at `NEED_CORRECT`, onto a fresh board; otherwise the stage and board are unchanged |
| GameState.Game.CheckLowWater | app.js:343-347 | one reshuffle is scheduled exactly when at most `RESHUFFLE_WHEN_LEFT` buttons are enabled |
| GameState.Game.OnTilePointerDown | app.js:304-348 | the branch taken is `TapOutcome` and the new input state is `AfterTap`; the stage and board are unchanged unless the tap clears the stage, which advances as `Stages.AfterCorrect` says; the state stays valid |
| GameState.Game.AcceptTap | app.js:311-347 | an accepted tap locks, disables the button and then reacts as `AfterReact` says |
| GameState.Game.React | app.js:313-347 | the rainbow tile schedules a restart; any other tile is judged |
| GameState.Game.Judge | app.js:324-347 | a matching tile counts or clears the stage; otherwise wrong; a non-clearing tap checks the low-water mark |
| GameState.Game.UnlockBusy | app.js:297 | the lock is released and one pending unlock is consumed |
| GameState.Game.FireReshuffle | app.js:346 | the current stage gets new tiles on a fresh board and stays valid |
| GameState.Game.FireRestart | app.js:319 | the game restarts at stage 0, valid, with fresh buttons |
| GameState.Game.OnResize | app.js:396-399 | the state stays valid; with tiles, the board is redrawn for the new size and every button is enabled again; with none, only the size is recorded |

## Left out

- Audio (`ensureAudio`, `beep`, the `sfx*` functions, `playFileSound`): browser
  APIs with no effect on the game state.
- DOM and animation effects: `toast`, `applyQuestionColor`, the slot texts of
  `resetSlots` and `fillNextSlot`, `playClearRing`, `sparkleSlots`, and the rainbow
  body class. They have no effect on the game state.
- DOM element creation, event wiring and `getRect`'s `parseFloat`/`getComputedStyle`
  reads. A button's position is a `Pos`, and its size is the shared tile size that
  `renderBoard` sets.
- The `Math.sqrt` estimate of the tile size (line 258). It is floating point, so it
  is an arbitrary integer input to the clamp. Coordinates are reals, not IEEE
  doubles.
- Util.Shuffle: only the permutation is proved, not that the draws are uniform.
  Uniformity is a property of `Math.random`, which is a nondeterministic choice
  here.
- Layout.ResolveOverlaps: the model does not promise a collision-free board. The
  code does not either; after five busy passes tiles may still collide.
- The `RAINBOW_STAGE = false` branch of `nextStage` (`sfxWin(); restartGame()`).
  The constant is `true`, so that branch is dead code.
- `getMaxTilesByScreen` reads the window width and returns 32 regardless; it is
  the constant `MAX_TILES`.
- The timers' delays (`BUSY_MS`, 900 ms, 120 ms) and their real-time order.
  Timers are pending counters that the environment may fire in any order.
- Service-worker registration: I/O outside the game.
