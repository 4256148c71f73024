/** The game's global state and its transitions (app.js lines 44-50, 122-126 and
    294-393) as one object: the stage being played, its target and choices, the
    tiles on the board, the per-button `disabled` marks and the tap lock.

    `window.setTimeout` callbacks are not run by the model: scheduling one counts it
    as pending, and the environment fires a pending one by calling `UnlockBusy`,
    `FireReshuffle` or `FireRestart`. `renderBoard` keeps what the game can observe
    of the board: every button enabled again and a laid-out position per tile. */
module GameState {
  import opened Util
  import opened Palette
  import opened Pool
  import opened Layout
  import opened Boards
  import Stages

  /** Which branch of `onTilePointerDown` a tap took. */
  datatype Feedback = Ignored | RainbowHit | Correct | Cleared | Wrong

  /** The number of buttons not marked disabled:
      `querySelectorAll(".emoji-btn:not(.disabled)").length`. */
  function CountEnabled(disabled: seq<bool>): (n: nat)
    ensures n <= |disabled|
  {
    if disabled == [] then 0
    else CountEnabled(disabled[..|disabled| - 1]) + (if disabled[|disabled| - 1] then 0 else 1)
  }

  /** Marking an enabled button disabled lowers the count by exactly one. */
  lemma {:induction false} CountEnabledDisable(disabled: seq<bool>, i: nat)
    requires i < |disabled| && !disabled[i]
    ensures CountEnabled(disabled[i := true]) == CountEnabled(disabled) - 1
    decreases |disabled|
  {
    var last := |disabled| - 1;
    var d' := disabled[i := true];
    if i < last {
      assert d'[..last] == disabled[..last][i := true];
      CountEnabledDisable(disabled[..last], i);
    } else {
      assert d'[..last] == disabled[..last];
    }
  }

  /** The disabled marks of a freshly drawn board of `n` tiles: none. */
  function AllEnabled(n: nat): seq<bool> {
    seq(n, _ => false)
  }

  /** A freshly drawn board has every button enabled. */
  lemma {:induction false} CountEnabledFresh(n: nat)
    ensures CountEnabled(AllEnabled(n)) == n
  {
    if n > 0 {
      assert AllEnabled(n)[..n - 1] == AllEnabled(n - 1);
      CountEnabledFresh(n - 1);
    }
  }

  /** What a tap reads and writes besides the stage itself: the tap lock
      (`isBusy`), the buttons' disabled marks, `correctInStage` and the timers
      scheduled and not yet fired. */
  datatype Input = Input(busy: bool, disabled: seq<bool>, correct: int,
                         unlocks: nat, reshuffles: nat, restarts: nat)

  /** The branch an accepted tap on tile `t` takes (lines 313-347), when the current
      target's id is `target`. */
  function ReactOutcome(s: Input, t: Tile, target: string): Feedback {
    if t.special == "rainbow" then RainbowHit
    else if t.colorId != target then Wrong
    else if s.correct + 1 >= NEED_CORRECT then Cleared
    else Correct
  }

  /** The branch `onTilePointerDown` takes for button `idx` showing tile `t`. */
  function TapOutcome(s: Input, idx: int, t: Tile, target: string): Feedback
    requires 0 <= idx < |s.disabled|
  {
    if s.busy || s.disabled[idx] then Ignored else ReactOutcome(s, t, target)
  }

  /** `lockShort()` and `disableButton(btn)`: input locked, one more unlock pending,
      button `idx` disabled. */
  function Accepted(s: Input, idx: int): Input
    requires 0 <= idx < |s.disabled|
  {
    s.(busy := true, unlocks := s.unlocks + 1, disabled := s.disabled[idx := true])
  }

  /** The input state after the branch for tile `t`: the rainbow tile schedules a
      restart; a matching tile counts; a counted or wrong tap schedules a reshuffle
      once at most `RESHUFFLE_WHEN_LEFT` buttons are enabled; a clearing tap moves to a
      new board of `boardSize` enabled buttons with a zero counter. */
  function AfterReact(s: Input, t: Tile, target: string, boardSize: nat): Input {
    var low := if CountEnabled(s.disabled) <= RESHUFFLE_WHEN_LEFT then 1 else 0;
    match ReactOutcome(s, t, target)
    case RainbowHit => s.(restarts := s.restarts + 1)
    case Wrong => s.(reshuffles := s.reshuffles + low)
    case Correct => s.(correct := s.correct + 1, reshuffles := s.reshuffles + low)
    case Cleared => s.(disabled := AllEnabled(boardSize), correct := 0)
    case Ignored => s
  }

  /** The input state after a tap on button `idx`: unchanged when refused, otherwise
      accepted and then the branch for its tile. */
  function AfterTap(s: Input, idx: int, t: Tile, target: string, boardSize: nat): Input
    requires 0 <= idx < |s.disabled|
  {
    if s.busy || s.disabled[idx] then s else AfterReact(Accepted(s, idx), t, target, boardSize)
  }

  /** A tap is refused exactly while input is locked or on a disabled button, and a
      refused tap changes nothing. */
  lemma TapIgnored(s: Input, idx: int, t: Tile, target: string, boardSize: nat)
    requires 0 <= idx < |s.disabled|
    ensures TapOutcome(s, idx, t, target) == Ignored <==> s.busy || s.disabled[idx]
    ensures TapOutcome(s, idx, t, target) == Ignored ==> AfterTap(s, idx, t, target, boardSize) == s
  {
  }

  /** Every accepted tap locks input and schedules exactly one unlock. */
  lemma TapLocks(s: Input, idx: int, t: Tile, target: string, boardSize: nat)
    requires 0 <= idx < |s.disabled|
    requires TapOutcome(s, idx, t, target) != Ignored
    ensures AfterTap(s, idx, t, target, boardSize).busy
    ensures AfterTap(s, idx, t, target, boardSize).unlocks == s.unlocks + 1
  {
  }

  /** A button takes one tap: on the same board, a second tap on it is refused even
      once the lock has been released, and one fewer button is enabled. */
  lemma TapConsumesButton(s: Input, idx: int, t: Tile, target: string, boardSize: nat)
    requires 0 <= idx < |s.disabled|
    requires TapOutcome(s, idx, t, target) !in {Ignored, Cleared}
    ensures var s' := AfterTap(s, idx, t, target, boardSize);
      && |s'.disabled| == |s.disabled|
      && TapOutcome(s'.(busy := false), idx, t, target) == Ignored
      && CountEnabled(s'.disabled) == CountEnabled(s.disabled) - 1
  {
    CountEnabledDisable(s.disabled, idx);
  }

  /** Between taps `0 <= correctInStage < NEED_CORRECT`: a matching tap counts one more
      or clears the stage and starts the next one from zero, as `Stages.AfterCorrect`
      says; every other tap leaves the counter alone. */
  lemma TapCounter(s: Input, idx: int, t: Tile, target: string, boardSize: nat, stage: int)
    requires 0 <= idx < |s.disabled| && 0 <= s.correct < NEED_CORRECT
    ensures var s' := AfterTap(s, idx, t, target, boardSize);
      && 0 <= s'.correct < NEED_CORRECT
      && (TapOutcome(s, idx, t, target) in {Correct, Cleared} ==>
            s'.correct == Stages.AfterCorrect(Stages.Progress(stage, false, s.correct)).correct)
      && (TapOutcome(s, idx, t, target) !in {Correct, Cleared} ==> s'.correct == s.correct)
  {
  }

  /** A restart is scheduled by the rainbow tile and by nothing else. */
  lemma TapRestarts(s: Input, idx: int, t: Tile, target: string, boardSize: nat)
    requires 0 <= idx < |s.disabled|
    ensures AfterTap(s, idx, t, target, boardSize).restarts ==
            s.restarts + (if TapOutcome(s, idx, t, target) == RainbowHit then 1 else 0)
  {
  }

  /** A reshuffle is scheduled exactly by a counted or wrong tap on a board that had at
      most `RESHUFFLE_WHEN_LEFT + 1` enabled buttons before it. */
  lemma TapReshuffles(s: Input, idx: int, t: Tile, target: string, boardSize: nat)
    requires 0 <= idx < |s.disabled|
    ensures var s' := AfterTap(s, idx, t, target, boardSize);
      && s.reshuffles <= s'.reshuffles <= s.reshuffles + 1
      && (s'.reshuffles == s.reshuffles + 1 <==>
            TapOutcome(s, idx, t, target) in {Correct, Wrong} &&
            CountEnabled(s.disabled) <= RESHUFFLE_WHEN_LEFT + 1)
  {
    if !s.disabled[idx] {
      CountEnabledDisable(s.disabled, idx);
    }
  }

  /** A clearing tap leaves a fresh board: every button enabled. */
  lemma TapClears(s: Input, idx: int, t: Tile, target: string, boardSize: nat)
    requires 0 <= idx < |s.disabled|
    requires TapOutcome(s, idx, t, target) == Cleared
    ensures CountEnabled(AfterTap(s, idx, t, target, boardSize).disabled) == boardSize
  {
    CountEnabledFresh(boardSize);
  }

  /** The stage and its board: the stage index, target and choices, the tiles and
      where `renderBoard` put them. */
  datatype Scene = Scene(stage: int, target: Target, choices: seq<Color>, tiles: seq<Tile>,
                         positions: seq<Pos>, size: int)

  class Game {
    var stageIndex: int
    var correctInStage: int
    var isBusy: bool
    var currentTarget: Target
    var currentChoices: seq<Color>
    var tiles: seq<Tile>

    /** `dataset.disabled === "1"` of the button for each tile. */
    var disabled: seq<bool>
    /** Where `renderBoard` put each tile, and the tile size it chose. */
    var positions: seq<Pos>
    var tileSize: int
    /** The board's client rectangle, read by `renderBoard`. */
    var boardW: real
    var boardH: real

    /** Timers scheduled and not yet fired: `lockShort`'s unlock, the reshuffle of
        line 346 and the restart of line 319. */
    var pendingUnlocks: nat
    var pendingReshuffles: nat
    var pendingRestarts: nat

    function Progress(): Stages.Progress
      reads this`stageIndex, this`currentTarget, this`correctInStage
    {
      Stages.Progress(stageIndex, currentTarget.RainbowTarget?, correctInStage)
    }

    /** The tap-related part of the state. */
    function Inputs(): Input
      reads this`isBusy, this`disabled, this`correctInStage
      reads this`pendingUnlocks, this`pendingReshuffles, this`pendingRestarts
    {
      Input(isBusy, disabled, correctInStage, pendingUnlocks, pendingReshuffles, pendingRestarts)
    }

    /** The stage being played and the board as drawn. */
    function Shown(): Scene
      reads this`stageIndex, this`currentTarget, this`currentChoices, this`tiles
      reads this`positions, this`tileSize
    {
      Scene(stageIndex, currentTarget, currentChoices, tiles, positions, tileSize)
    }

    /** The cheap part of the invariant, which every tap keeps: the stage names a
        colour, the counter is below `NEED_CORRECT`, the rainbow stage comes last and
        shows only one rainbow-coloured button, there is one button per tile, and the
        board is laid out inside the padded board. */
    ghost predicate Core()
      reads this`stageIndex, this`correctInStage, this`currentTarget, this`tiles
      reads this`disabled, this`positions, this`tileSize, this`boardW, this`boardH
    {
      && 0 <= stageIndex < |COLORS|
      && 0 <= correctInStage < NEED_CORRECT
      && (currentTarget.RainbowTarget? ==>
            stageIndex == |COLORS| - 1 && correctInStage == 0 && RainbowOnlySpecial(tiles))
      && |disabled| == |tiles|
      && Drawn(positions, |tiles|, tileSize, boardW, boardH)
    }

    /** The board shows what the stage calls for. */
    ghost predicate Showing()
      reads this`stageIndex, this`currentTarget, this`currentChoices, this`tiles
    {
      StageShows(stageIndex, currentTarget, currentChoices, tiles)
    }

    /** What holds between events. */
    ghost predicate Valid()
      reads this`stageIndex, this`correctInStage, this`currentTarget, this`currentChoices, this`tiles
      reads this`disabled, this`positions, this`tileSize, this`boardW, this`boardH
      ensures Valid() ==> Stages.ValidProgress(Progress())
    {
      Core() && Showing()
    }

    /** Page load (lines 45-50 and 423): the globals' initial values followed by `restartGame()`,
        that is `startStage(0)`. Its steps are written out with the same builders
        `StartStage` and `RenderBoard` use, so that the new object is whole before its
        fields are read. */
    constructor(w: real, h: real)
      ensures Valid() && Progress() == Stages.START
      ensures currentTarget == ColorTarget(COLORS[0])
      ensures !isBusy && pendingUnlocks == 0 && pendingReshuffles == 0 && pendingRestarts == 0
      ensures disabled == AllEnabled(|tiles|)
      ensures boardW == w && boardH == h
    {
      var choices, board := BuildStage(0);
      var approx: int :| true;
      var pos, size := RenderLayout(|board|, w, h, approx);
      stageIndex := 0;
      correctInStage := 0;
      isBusy := false;
      currentTarget := ColorTarget(COLORS[0]);
      currentChoices := choices;
      tiles := board;
      disabled := AllEnabled(|board|);
      positions := pos[..];
      tileSize := size;
      boardW, boardH := w, h;
      pendingUnlocks, pendingReshuffles, pendingRestarts := 0, 0, 0;
    }

    // Each method below names in `modifies` exactly the fields it may change; every
    // other field keeps its value.

    /** The counter part of `resetSlots()`; the slot texts are display only. */
    method ResetSlots()
      modifies this`correctInStage
      ensures correctInStage == 0
    {
      correctInStage := 0;
    }

    /** What `renderBoard()` leaves behind that the game can see: new, enabled buttons
        for the current tiles, laid out by `Layout.RenderLayout`. The tile size comes
        from the `Math.sqrt` estimate of line 258, which is not modelled: any integer
        may arrive as `approx`, and the clamp keeps the size in [40, 96]. */
    method RenderBoard()
      modifies this`disabled, this`positions, this`tileSize
      ensures disabled == AllEnabled(|tiles|)
      ensures Drawn(positions, |tiles|, tileSize, boardW, boardH)
    {
      var approx: int :| true;
      var pos, size := RenderLayout(|tiles|, boardW, boardH, approx);
      positions := pos[..];
      tileSize := size;
      disabled := AllEnabled(|tiles|);
    }

    /** `startStage(i)`: target `COLORS[i]`, four fresh choices, their tiles, a zero
        counter and a new board. */
    method StartStage(i: int)
      requires 0 <= i < |COLORS|
      modifies this`stageIndex, this`currentTarget, this`currentChoices, this`tiles, this`correctInStage
      modifies this`disabled, this`positions, this`tileSize
      ensures stageIndex == i && currentTarget == ColorTarget(COLORS[i]) && correctInStage == 0
      ensures Valid()
      ensures disabled == AllEnabled(|tiles|)
    {
      var choices, board := BuildStage(i);
      stageIndex, currentTarget, currentChoices, tiles := i, ColorTarget(COLORS[i]), choices, board;
      assert Showing();
      ResetSlots();
      RenderBoard();
    }

    /** `startRainbowStage()`: the rainbow target, no choices, the rainbow tiles, a zero
        counter and a new board. `stageIndex` is left as it was. */
    method StartRainbowStage()
      modifies this`currentTarget, this`currentChoices, this`tiles, this`correctInStage
      modifies this`disabled, this`positions, this`tileSize
      ensures currentTarget == RainbowTarget && currentChoices == [] && correctInStage == 0
      ensures RainbowBoard(tiles) && disabled == AllEnabled(|tiles|)
      ensures Drawn(positions, |tiles|, tileSize, boardW, boardH)
      ensures stageIndex == |COLORS| - 1 ==> Valid()
    {
      var board := BuildRainbowBoard();
      currentTarget, currentChoices, tiles := RainbowTarget, [], board;
      ResetSlots();
      RenderBoard();
    }

    /** `nextStage()`: the following colour stage, or the rainbow stage after the last
        one. Called with the counter just having reached `NEED_CORRECT`, so only the
        stage index is required to be in range. */
    method NextStage()
      requires 0 <= stageIndex < |COLORS|
      modifies this`stageIndex, this`currentTarget, this`currentChoices, this`tiles, this`correctInStage
      modifies this`disabled, this`positions, this`tileSize
      ensures Progress() == Stages.Next(old(Progress()))
      ensures Valid()
      ensures disabled == AllEnabled(|tiles|)
    {
      if stageIndex < |COLORS| - 1 {
        StartStage(stageIndex + 1);
      } else {
        StartRainbowStage();
      }
    }

    /** `reshuffleCurrent()`: new tiles for the same stage and a new board. Its frame
        is the whole promise that nothing else about the stage changes. */
    method ReshuffleCurrent()
      requires Valid()
      modifies this`tiles, this`disabled, this`positions, this`tileSize
      ensures Valid()
      ensures disabled == AllEnabled(|tiles|)
    {
      tiles := BuildBoard(stageIndex, currentTarget, currentChoices);
      RenderBoard();
    }

    /** `restartGame()`: back to the first colour stage. */
    method RestartGame()
      modifies this`stageIndex, this`currentTarget, this`currentChoices, this`tiles, this`correctInStage
      modifies this`disabled, this`positions, this`tileSize
      ensures Valid() && Progress() == Stages.START
      ensures currentTarget == ColorTarget(COLORS[0])
      ensures disabled == AllEnabled(|tiles|)
    {
      StartStage(0);
    }

    /** `lockShort()`: refuse taps until the scheduled unlock fires. */
    method LockShort()
      modifies this`isBusy, this`pendingUnlocks
      ensures isBusy && pendingUnlocks == old(pendingUnlocks) + 1
    {
      isBusy := true;
      pendingUnlocks := pendingUnlocks + 1;
    }

    /** `disableButton(btn)`: the button of tile `idx` takes no further taps. */
    method DisableButton(idx: int)
      requires 0 <= idx < |disabled|
      modifies this`disabled
      ensures disabled == old(disabled)[idx := true]
    {
      disabled := disabled[idx := true];
    }

    /** A tap on a tile of the target colour (lines 330-337): count it, and on the
        `NEED_CORRECT`-th go to the next stage. */
    method CountCorrect() returns (cleared: bool)
      requires Core() && currentTarget.ColorTarget?
      modifies this`stageIndex, this`currentTarget, this`currentChoices, this`tiles, this`correctInStage
      modifies this`disabled, this`positions, this`tileSize
      ensures Core()
      ensures cleared ==> Showing()
      ensures Progress() == Stages.AfterCorrect(old(Progress()))
      ensures cleared <==> old(correctInStage) + 1 >= NEED_CORRECT
      ensures cleared ==> Inputs() == old(Inputs()).(disabled := AllEnabled(|tiles|), correct := 0)
      ensures !cleared ==> Inputs() == old(Inputs()).(correct := old(correctInStage) + 1)
      ensures !cleared ==> Shown() == old(Shown())
    {
      correctInStage := correctInStage + 1;
      cleared := correctInStage >= NEED_CORRECT;
      if cleared {
        NextStage();
      }
    }

    /** Lines 343-347: schedule a reshuffle when few enabled buttons are left. */
    method CheckLowWater()
      modifies this`pendingReshuffles
      ensures Inputs() == old(Inputs()).(reshuffles := old(pendingReshuffles) +
                            (if CountEnabled(disabled) <= RESHUFFLE_WHEN_LEFT then 1 else 0))
    {
      var remaining := CountEnabled(disabled);
      if remaining <= RESHUFFLE_WHEN_LEFT {
        pendingReshuffles := pendingReshuffles + 1;  // setTimeout(() => reshuffleCurrent(), 120)
      }
    }

    /** `onTilePointerDown` on the button of tile `idx`: the branch taken and the new
        input state are the ones `TapOutcome` and `AfterTap` give; the stage and its
        board stay as they are unless the tap clears the stage, which moves on as
        `Stages.AfterCorrect` says. */
    method OnTilePointerDown(idx: int) returns (fb: Feedback)
      requires Valid() && 0 <= idx < |tiles|
      modifies this`stageIndex, this`currentTarget, this`currentChoices, this`tiles, this`correctInStage
      modifies this`disabled, this`positions, this`tileSize
      modifies this`isBusy, this`pendingUnlocks, this`pendingReshuffles, this`pendingRestarts
      ensures Valid()
      ensures fb == TapOutcome(old(Inputs()), idx, old(tiles[idx]), TargetId(old(currentTarget)))
      ensures Inputs() == AfterTap(old(Inputs()), idx, old(tiles[idx]), TargetId(old(currentTarget)), |tiles|)
      ensures fb != Cleared ==> Shown() == old(Shown())
      ensures fb == Cleared ==> Progress() == Stages.AfterCorrect(old(Progress()))
    {
      if isBusy {
        return Ignored;
      }
      if disabled[idx] {
        return Ignored;
      }
      fb := AcceptTap(idx);
    }

    /** Lines 311-347: a tap that gets past both guards. */
    method AcceptTap(idx: int) returns (fb: Feedback)
      requires Core() && 0 <= idx < |tiles| && !disabled[idx]
      modifies this`stageIndex, this`currentTarget, this`currentChoices, this`tiles, this`correctInStage
      modifies this`disabled, this`positions, this`tileSize
      modifies this`isBusy, this`pendingUnlocks, this`pendingReshuffles, this`pendingRestarts
      ensures Core()
      ensures fb == Cleared ==> Showing()
      ensures fb == ReactOutcome(old(Inputs()), old(tiles[idx]), TargetId(old(currentTarget)))
      ensures Inputs() ==
                AfterReact(Accepted(old(Inputs()), idx), old(tiles[idx]), TargetId(old(currentTarget)), |tiles|)
      ensures fb != Cleared ==> Shown() == old(Shown())
      ensures fb == Cleared ==> Progress() == Stages.AfterCorrect(old(Progress()))
    {
      ghost var s0 := Inputs();
      LockShort();
      DisableButton(idx);
      assert Inputs() == Accepted(s0, idx);
      fb := React(idx);
    }

    /** Lines 313-347: what the tapped tile does once the tap is accepted. */
    method React(idx: int) returns (fb: Feedback)
      requires Core() && 0 <= idx < |tiles|
      modifies this`stageIndex, this`currentTarget, this`currentChoices, this`tiles, this`correctInStage
      modifies this`disabled, this`positions, this`tileSize, this`pendingReshuffles, this`pendingRestarts
      ensures Core()
      ensures fb == Cleared ==> Showing()
      ensures fb == ReactOutcome(old(Inputs()), old(tiles[idx]), TargetId(old(currentTarget)))
      ensures Inputs() == AfterReact(old(Inputs()), old(tiles[idx]), TargetId(old(currentTarget)), |tiles|)
      ensures fb != Cleared ==> Shown() == old(Shown())
      ensures fb == Cleared ==> Progress() == Stages.AfterCorrect(old(Progress()))
    {
      if tiles[idx].special == "rainbow" {
        pendingRestarts := pendingRestarts + 1;  // setTimeout(() => restartGame(), 900)
        return RainbowHit;
      }
      fb := Judge(idx);
    }

    /** Lines 323-347: an ordinary tile, right or wrong. */
    method Judge(idx: int) returns (fb: Feedback)
      requires Core() && 0 <= idx < |tiles| && tiles[idx].special != "rainbow"
      modifies this`stageIndex, this`currentTarget, this`currentChoices, this`tiles, this`correctInStage
      modifies this`disabled, this`positions, this`tileSize, this`pendingReshuffles
      ensures Core()
      ensures fb == Cleared ==> Showing()
      ensures fb == ReactOutcome(old(Inputs()), old(tiles[idx]), TargetId(old(currentTarget)))
      ensures Inputs() == AfterReact(old(Inputs()), old(tiles[idx]), TargetId(old(currentTarget)), |tiles|)
      ensures fb != Cleared ==> Shown() == old(Shown())
      ensures fb == Cleared ==> Progress() == Stages.AfterCorrect(old(Progress()))
    {
      var isCorrect := tiles[idx].colorId == TargetId(currentTarget);
      if isCorrect {
        var cleared := CountCorrect();
        if cleared {
          return Cleared;
        }
      }
      CheckLowWater();
      fb := if isCorrect then Correct else Wrong;
    }

    /** The unlock timer of `lockShort()` fires. */
    method UnlockBusy()
      requires pendingUnlocks > 0
      modifies this`isBusy, this`pendingUnlocks
      ensures !isBusy && pendingUnlocks == old(pendingUnlocks) - 1
    {
      isBusy := false;
      pendingUnlocks := pendingUnlocks - 1;
    }

    /** A scheduled `reshuffleCurrent()` fires, for whatever stage is showing by then. */
    method FireReshuffle()
      requires Valid() && pendingReshuffles > 0
      modifies this`tiles, this`disabled, this`positions, this`tileSize, this`pendingReshuffles
      ensures Valid()
      ensures disabled == AllEnabled(|tiles|)
      ensures pendingReshuffles == old(pendingReshuffles) - 1
    {
      ReshuffleCurrent();
      pendingReshuffles := pendingReshuffles - 1;
    }

    /** The restart scheduled by the rainbow tile fires. */
    method FireRestart()
      requires pendingRestarts > 0
      modifies this`stageIndex, this`currentTarget, this`currentChoices, this`tiles, this`correctInStage
      modifies this`disabled, this`positions, this`tileSize, this`pendingRestarts
      ensures Valid() && Progress() == Stages.START
      ensures disabled == AllEnabled(|tiles|)
      ensures pendingRestarts == old(pendingRestarts) - 1
    {
      RestartGame();
      pendingRestarts := pendingRestarts - 1;
    }

    /** The `resize` listener (lines 396-399): redraw the board for the new size when
        there are tiles. The redraw gives every tile a new, enabled button. */
    method OnResize(w: real, h: real)
      requires Valid()
      modifies this`boardW, this`boardH, this`disabled, this`positions, this`tileSize
      ensures boardW == w && boardH == h
      ensures Valid()
      ensures |tiles| > 0 ==> disabled == AllEnabled(|tiles|)
      ensures |tiles| == 0 ==> disabled == old(disabled)
    {
      assert Showing();
      boardW, boardH := w, h;
      if |tiles| == 0 {
        return;
      }
      RenderBoard();
    }
  }
}
