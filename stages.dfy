/** The stage progression of app.js (lines 351-393) reduced to the values it depends
    on: the stage index, whether the rainbow bonus stage is showing, and the number of
    correct taps in the current stage. The game object reports its progress as a
    `Progress`, so the facts below are facts about the game. */
module Stages {
  import opened Palette

  datatype Progress = Progress(stage: int, rainbow: bool, correct: int)

  /** Where `restartGame()` puts the game: `startStage(0)` with a fresh counter. */
  const START := Progress(0, false, 0)

  /** The index of the last colour stage, `COLORS.length - 1`. */
  function LastStage(): int { |COLORS| - 1 }

  /** The counter is below `NEED_CORRECT` between taps, the stage names a colour, and
      the rainbow stage only follows the last colour stage and never counts taps. */
  ghost predicate ValidProgress(p: Progress) {
    && 0 <= p.stage <= LastStage()
    && 0 <= p.correct < NEED_CORRECT
    && (p.rainbow ==> p.stage == LastStage() && p.correct == 0)
  }

  /** `nextStage()` with `RAINBOW_STAGE` set: the following colour stage, or the rainbow
      stage after the last one (keeping `stageIndex`). Both reset the counter through
      `resetSlots()`. */
  function Next(p: Progress): Progress {
    if p.stage < LastStage() then Progress(p.stage + 1, false, 0)
    else Progress(p.stage, true, 0)
  }

  /** The counter part of a correct tap (lines 330-336): count it, and when the stage
      target is reached move on. */
  function AfterCorrect(p: Progress): Progress {
    var q := Progress(p.stage, p.rainbow, p.correct + 1);
    if q.correct >= NEED_CORRECT then Next(q) else q
  }

  /** `n` correct taps in a row. */
  function Taps(p: Progress, n: nat): Progress
    decreases n
  {
    if n == 0 then p else Taps(AfterCorrect(p), n - 1)
  }

  /** Leaving a colour stage keeps the progress valid and moves strictly forward. */
  lemma NextValid(p: Progress)
    requires ValidProgress(p) && !p.rainbow
    ensures ValidProgress(Next(p))
    ensures Next(p).correct == 0
    ensures Next(p).stage > p.stage || (Next(p).rainbow && Next(p).stage == LastStage())
  {
  }

  /** A correct tap in a colour stage keeps `0 <= correctInStage < NEED_CORRECT`, and
      it either counts one more in the same stage or clears the stage. */
  lemma AfterCorrectValid(p: Progress)
    requires ValidProgress(p) && !p.rainbow
    ensures ValidProgress(AfterCorrect(p))
    ensures AfterCorrect(p) == Progress(p.stage, false, p.correct + 1) ||
            (p.correct + 1 == NEED_CORRECT && AfterCorrect(p) == Next(p))
  {
  }

  /** Taps compose: `a` taps and then `b` more are `a + b` taps. */
  lemma {:induction false} TapsAdd(p: Progress, a: nat, b: nat)
    ensures Taps(p, a + b) == Taps(Taps(p, a), b)
    decreases a
  {
    if a > 0 {
      TapsAdd(AfterCorrect(p), a - 1, b);
    }
  }

  /** Exactly `NEED_CORRECT` correct taps clear a fresh colour stage, and fewer stay put. */
  lemma {:induction false} StageNeedsFourTaps(p: Progress, k: nat)
    requires ValidProgress(p) && !p.rainbow && p.correct == 0
    requires k <= NEED_CORRECT
    ensures k < NEED_CORRECT ==> Taps(p, k) == Progress(p.stage, false, k)
    ensures k == NEED_CORRECT ==> Taps(p, k) == Next(p)
  {
    if k > 0 {
      StageNeedsFourTaps(p, k - 1);
      TapsAdd(p, k - 1, 1);
      assert Taps(Taps(p, k - 1), 1) == AfterCorrect(Taps(p, k - 1));
    }
  }

  /** From a restart, every run of fewer than 32 correct taps is in colour stage
      `n / 4` with `n % 4` slots filled. */
  lemma {:induction false} TapsFromStart(n: nat)
    requires n < |COLORS| * NEED_CORRECT
    ensures Taps(START, n) == Progress(n / NEED_CORRECT, false, n % NEED_CORRECT)
  {
    if n > 0 {
      TapsFromStart(n - 1);
      TapsAdd(START, n - 1, 1);
      assert Taps(Taps(START, n - 1), 1) == AfterCorrect(Taps(START, n - 1));
    }
  }

  /** The rainbow stage is reached by exactly the 32nd correct tap after a restart:
      eight colour stages of four. */
  lemma RainbowAfterAllStages()
    ensures Taps(START, |COLORS| * NEED_CORRECT) == Progress(LastStage(), true, 0)
    ensures forall n: nat :: n < |COLORS| * NEED_CORRECT ==> !Taps(START, n).rainbow
  {
    var n := |COLORS| * NEED_CORRECT - 1;
    TapsFromStart(n);
    TapsAdd(START, n, 1);
    assert Taps(Taps(START, n), 1) == AfterCorrect(Taps(START, n));
    forall m: nat | m < |COLORS| * NEED_CORRECT ensures !Taps(START, m).rainbow {
      TapsFromStart(m);
    }
  }
}
