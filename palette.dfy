/** The game's fixed data (app.js lines 10-37): tuning constants, the eight colour
    categories and the tile record the builders produce. */
module Palette {
  import opened Util

  const CHOICES_PER_STAGE := 4
  const NEED_CORRECT := 4
  const RAINBOW_COUNT := 1
  const RESHUFFLE_WHEN_LEFT := 4
  const NEAR_MARGIN := 12
  /** `getMaxTilesByScreen()` ignores the window width it reads and returns 32. */
  const MAX_TILES := 32

  /** A colour category: its id, display colour and its four emoji. */
  datatype Color = Color(id: string, hex: string, emojis: seq<string>)

  /** A board tile as the builders create it: `{ emoji, colorId, special }`;
      `special` is `""` for an ordinary tile and `"rainbow"` for the bonus tile. */
  datatype Tile = Tile(emoji: string, colorId: string, special: string)

  const COLORS: seq<Color> := [
    Color("red",    "#ff3b30",   ["🍎", "🍓", "📮", "🌹"]),
    Color("blue",   "#0a84ff",   ["🐳", "🐬", "🌍", "🚙"]),
    Color("yellow", "#ffd60a",   ["🐝", "🌻", "🍋", "🧀"]),
    Color("green",  "#34c759",   ["🦖", "🥦", "🥝", "🐸"]),
    Color("purple", "#782aa0ff", ["🍇", "🍆", "💜", "☂️"]),
    Color("orange", "#ff6a00",   ["🍊", "🦊", "🎃", "🥕"]),
    Color("pink",   "#ff97aaff", ["🌸", "🎀", "🍧", "🦩"]),
    Color("brown",  "#70331cff", ["🐿", "🌰", "🧸", "🥔"])
  ]

  /** The tile `buildRainbowTiles` adds (`{ emoji:"🌈", colorId:"rainbow", special:"rainbow" }`). */
  const RAINBOW_TILE := Tile("🌈", "rainbow", "rainbow")

  function IdOf(c: Color): string { c.id }

  function Identity(e: string): string { e }

  /** What the builders and the stage machine rely on about a list of categories:
      distinct ids, none containing the key separator `:` or equal to the rainbow
      marker, and four distinct emoji per category. */
  ghost predicate WellFormedColors(cs: seq<Color>) {
    && DistinctBy(cs, IdOf)
    && (forall c :: c in cs ==> ':' !in c.id && c.id != "rainbow")
    && (forall c :: c in cs ==> |c.emojis| == 4 && DistinctBy(c.emojis, Identity))
  }

  /** The emoji of category `k` are pairwise distinct. */
  lemma EmojisDistinct(k: nat)
    requires k < |COLORS|
    ensures DistinctBy(COLORS[k].emojis, Identity)
  {
    var e := COLORS[k].emojis;
    assert |e| == 4;
    assert e[0] != e[1] && e[0] != e[2] && e[0] != e[3];
    assert e[1] != e[2] && e[1] != e[3] && e[2] != e[3];
  }

  lemma IdsDistinct()
    ensures DistinctBy(COLORS, IdOf)
  {
  }

  lemma IdsPlain()
    ensures forall c :: c in COLORS ==> ':' !in c.id && c.id != "rainbow"
  {
  }

  lemma PaletteWellFormed()
    ensures |COLORS| == 8
    ensures WellFormedColors(COLORS)
  {
    IdsDistinct();
    IdsPlain();
    forall k | 0 <= k < |COLORS| ensures |COLORS[k].emojis| == 4 && DistinctBy(COLORS[k].emojis, Identity) {
      EmojisDistinct(k);
    }
  }
}
