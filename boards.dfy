/** What a stage shows (app.js lines 122-183 and 351-379): its target, the choices
    `buildChoicesForTarget` picks for it and the tiles the builders lay out, as
    facts about values that the game object keeps as its invariant. */
module Boards {
  import opened Util
  import opened Palette
  import opened Pool

  /** `currentTarget`: a colour of `COLORS`, or `{ id: "rainbow" }` in the bonus stage. */
  datatype Target = ColorTarget(color: Color) | RainbowTarget

  /** `currentTarget.id`. */
  function TargetId(t: Target): string {
    match t
    case ColorTarget(c) => c.id
    case RainbowTarget => "rainbow"
  }

  // The predicates below spell `DistinctBy` out as a first-order quantifier, so
  // that the game object's invariant does not carry function values.

  /** What `buildChoicesForTarget` returns for a palette colour: the target and three
      other palette colours, no id twice. */
  ghost predicate ChoicesFor(target: Color, choices: seq<Color>) {
    && target in choices
    && |choices| == CHOICES_PER_STAGE
    && (forall a, b :: 0 <= a < b < |choices| ==> choices[a].id != choices[b].id)
    && (forall c :: c in choices ==> c == target || (c in COLORS && c.id != target.id))
  }

  /** What `buildTilesForChoices(choices)` returns. */
  ghost predicate OrdinaryBoard(tiles: seq<Tile>, choices: seq<Color>) {
    && |tiles| == Min(MAX_TILES, |PoolOf(choices)|)
    && multiset(tiles) <= multiset(PoolOf(choices))
    && (|PoolOf(choices)| <= MAX_TILES ==> multiset(tiles) == multiset(PoolOf(choices)))
    && (forall a, b :: 0 <= a < b < |tiles| ==> Key(tiles[a]) != Key(tiles[b]))
    && (forall t :: t in tiles ==> FromColors(t, choices))
  }

  /** What `buildRainbowTiles()` returns. */
  ghost predicate RainbowBoard(tiles: seq<Tile>) {
    && |tiles| <= MAX_TILES
    && multiset(tiles)[RAINBOW_TILE] == RAINBOW_COUNT
    && (forall t :: t in tiles ==> t == RAINBOW_TILE || FromColors(t, COLORS))
    && (forall a, b :: 0 <= a < b < |tiles| ==> Key(tiles[a]) != Key(tiles[b]))
  }

  /** The stage itself: colour stage `i` targets `COLORS[i]` with choices as
      `buildChoicesForTarget` makes them; the rainbow stage follows the last colour
      stage and has no choices. */
  ghost predicate StageOf(i: int, target: Target, choices: seq<Color>) {
    match target
    case ColorTarget(c) => 0 <= i < |COLORS| && c == COLORS[i] && ChoicesFor(c, choices)
    case RainbowTarget => i == |COLORS| - 1 && choices == []
  }

  /** What the board shows in a stage: the tiles the builders make for it. */
  ghost predicate StageShows(i: int, target: Target, choices: seq<Color>, tiles: seq<Tile>) {
    && StageOf(i, target, choices)
    && match target
       case ColorTarget(_) => OrdinaryBoard(tiles, choices)
       case RainbowTarget => RainbowBoard(tiles)
  }

  /** Every colour stage can be finished: its board shows all sixteen tiles of the
      four choices, so in particular all four tiles of the target colour. */
  lemma OrdinaryBoardShowsTarget(k: nat, choices: seq<Color>, tiles: seq<Tile>)
    requires k < |COLORS|
    requires ChoicesFor(COLORS[k], choices) && OrdinaryBoard(tiles, choices)
    ensures |tiles| == CHOICES_PER_STAGE * 4
    ensures forall e :: e in COLORS[k].emojis ==> Tile(e, COLORS[k].id, "") in tiles
  {
    var target := COLORS[k];
    PaletteWellFormed();
    assert WellFormedColors(choices) by {
      forall c | c in choices ensures c in COLORS {
      }
    }
    PoolOfWellFormed(choices);
    forall e | e in target.emojis ensures Tile(e, target.id, "") in tiles {
      var t := Tile(e, target.id, "");
      assert EmojiOf(t, target);
      PoolComplete(choices, t);
      assert t in multiset(PoolOf(choices));
    }
  }

  /** The builder calls of `startStage(i)`: `buildChoicesForTarget(COLORS[i])`, which
      always finds three other colours, then `buildTilesForChoices` on the result. */
  method BuildStage(i: nat) returns (choices: seq<Color>, tiles: seq<Tile>)
    requires i < |COLORS|
    ensures StageShows(i, ColorTarget(COLORS[i]), choices, tiles)
  {
    choices := BuildChoicesForTarget(COLORS[i]);
    tiles := BuildTilesForChoices(choices);
    OthersInPalette(i);
  }

  /** `buildRainbowTiles()`, with what the rainbow stage relies on. */
  method BuildRainbowBoard() returns (tiles: seq<Tile>)
    ensures RainbowBoard(tiles) && RainbowOnlySpecial(tiles)
  {
    tiles := BuildRainbowTiles();
    RainbowColourIsSpecial(tiles);
  }

  /** The builder choice of `reshuffleCurrent()`: the rainbow tiles when the target's
      id is `"rainbow"`, otherwise new tiles for the same choices. Either way the
      stage keeps showing what it calls for. */
  method BuildBoard(i: int, target: Target, choices: seq<Color>) returns (tiles: seq<Tile>)
    requires StageOf(i, target, choices)
    ensures StageShows(i, target, choices, tiles)
    ensures target.RainbowTarget? ==> RainbowOnlySpecial(tiles)
  {
    IdsPlain();
    if TargetId(target) == "rainbow" {
      tiles := BuildRainbowBoard();
    } else {
      tiles := BuildTilesForChoices(choices);
    }
  }

  /** No button but the special one carries the colour `"rainbow"`. */
  ghost predicate RainbowOnlySpecial(tiles: seq<Tile>) {
    forall k :: 0 <= k < |tiles| && tiles[k].colorId == "rainbow" ==> tiles[k].special == "rainbow"
  }

  /** On the rainbow board the only tile coloured `"rainbow"` is the special one, so an
      ordinary tile never matches the rainbow target. */
  lemma RainbowColourIsSpecial(tiles: seq<Tile>)
    requires RainbowBoard(tiles)
    ensures RainbowOnlySpecial(tiles)
  {
    IdsPlain();
    forall k | 0 <= k < |tiles| && tiles[k].colorId == "rainbow" ensures tiles[k].special == "rainbow" {
      assert tiles[k] in tiles;
    }
  }
}
