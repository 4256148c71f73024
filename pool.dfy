/** The tile-pool builders of app.js (lines 138-183): choosing the stage's four
    colours, flattening categories into `(colorId, emoji)` tiles de-duplicated by
    the key `colorId:emoji`, shuffling and truncating. */
module Pool {
  import opened Util
  import opened Palette

  // ---------------------------------------------------------------------------
  // Keys

  /** The de-duplication key `${c.id}:${e}` of a tile. */
  function Key(t: Tile): string { t.colorId + ":" + t.emoji }

  /** The keys of `ts`: what the builders' `seen` set holds after pushing `ts`. */
  ghost function KeySet(ts: seq<Tile>): set<string> {
    if ts == [] then {} else KeySet(ts[..|ts| - 1]) + {Key(ts[|ts| - 1])}
  }

  lemma {:induction false} KeySetMembers(ts: seq<Tile>, k: string)
    ensures k in KeySet(ts) <==> exists t :: t in ts && Key(t) == k
  {
    if ts != [] {
      var init, last := ts[..|ts| - 1], ts[|ts| - 1];
      assert ts == init + [last];
      KeySetMembers(init, k);
    }
  }

  /** Position of the first `:` in `s` (`|s|` when there is none). */
  function ColonAt(s: string): (n: nat)
    ensures n <= |s|
  {
    if s == [] then 0 else if s[0] == ':' then 0 else 1 + ColonAt(s[1..])
  }

  lemma {:induction false} ColonAtAfterPrefix(c: string, e: string)
    requires ':' !in c
    ensures ColonAt(c + ":" + e) == |c|
  {
    if c != [] {
      assert (c + ":" + e)[1..] == c[1..] + ":" + e;
      ColonAtAfterPrefix(c[1..], e);
    } else {
      assert c + ":" + e == [':'] + e;
    }
  }

  /** With colour ids free of `:`, equal keys mean equal colour and emoji: the
      string key identifies the pair the builders mean to de-duplicate. */
  lemma KeyInjective(a: Tile, b: Tile)
    requires ':' !in a.colorId && ':' !in b.colorId
    ensures Key(a) == Key(b) <==> a.colorId == b.colorId && a.emoji == b.emoji
  {
    if Key(a) == Key(b) {
      var s := Key(a);
      ColonAtAfterPrefix(a.colorId, a.emoji);
      ColonAtAfterPrefix(b.colorId, b.emoji);
      var n := |a.colorId|;
      assert a.colorId == s[..n] && b.colorId == s[..n];
      assert a.emoji == s[n + 1..] && b.emoji == s[n + 1..];
    }
  }

  // ---------------------------------------------------------------------------
  // Flattening categories into tiles

  /** The ordinary tiles of one category, in emoji order. */
  function TilesOf(c: Color): seq<Tile> {
    seq(|c.emojis|, k requires 0 <= k < |c.emojis| => Tile(c.emojis[k], c.id, ""))
  }

  /** Every `(colorId, emoji)` tile of the first `n` categories of `cs`, category
      by category: the order in which the builders' nested loops visit them. */
  function FlattenUpTo(cs: seq<Color>, n: nat): seq<Tile>
    requires n <= |cs|
  {
    if n == 0 then [] else FlattenUpTo(cs, n - 1) + TilesOf(cs[n - 1])
  }

  function Flatten(cs: seq<Color>): seq<Tile> { FlattenUpTo(cs, |cs|) }

  /** `t` shows an emoji of category `c`, under `c`'s id. */
  ghost predicate EmojiOf(t: Tile, c: Color) {
    c.id == t.colorId && t.emoji in c.emojis
  }

  /** `t` is an ordinary tile showing an emoji of one of the categories `cs`. */
  ghost predicate FromColors(t: Tile, cs: seq<Color>) {
    t.special == "" && exists c :: c in cs && EmojiOf(t, c)
  }

  /** The flattened prefix holds exactly the ordinary tiles of its categories. */
  lemma {:induction false} FlattenUpToMembers(cs: seq<Color>, n: nat, t: Tile)
    requires n <= |cs|
    ensures t in FlattenUpTo(cs, n) <==> t.special == "" && exists k :: 0 <= k < n && EmojiOf(t, cs[k])
  {
    if n > 0 {
      var last := cs[n - 1];
      FlattenUpToMembers(cs, n - 1, t);
      if t in TilesOf(last) {
        var k :| 0 <= k < |last.emojis| && TilesOf(last)[k] == t;
        assert t.emoji == last.emojis[k];
        assert EmojiOf(t, cs[n - 1]);
      }
      if t.special == "" && EmojiOf(t, last) {
        var k :| 0 <= k < |last.emojis| && last.emojis[k] == t.emoji;
        assert TilesOf(last)[k] == t;
      }
    }
  }

  lemma FlattenMembers(cs: seq<Color>, t: Tile)
    ensures t in Flatten(cs) <==> FromColors(t, cs)
  {
    FlattenUpToMembers(cs, |cs|, t);
    if FromColors(t, cs) {
      var c :| c in cs && EmojiOf(t, c);
      var k :| 0 <= k < |cs| && cs[k] == c;
    }
  }

  lemma {:induction false} FlattenUpToLength(cs: seq<Color>, n: nat)
    requires n <= |cs|
    requires forall c :: c in cs ==> |c.emojis| == 4
    ensures |FlattenUpTo(cs, n)| == 4 * n
  {
    if n > 0 {
      FlattenUpToLength(cs, n - 1);
    }
  }

  /** Over well-formed categories no key repeats, so nothing needs dropping. */
  lemma {:induction false} FlattenUpToDistinct(cs: seq<Color>, n: nat)
    requires n <= |cs|
    requires WellFormedColors(cs)
    ensures DistinctBy(FlattenUpTo(cs, n), Key)
  {
    if n > 0 {
      var last := cs[n - 1];
      FlattenUpToDistinct(cs, n - 1);
      var a, b := FlattenUpTo(cs, n - 1), TilesOf(last);
      forall i, j | 0 <= i < j < |b| ensures Key(b[i]) != Key(b[j]) {
        KeyInjective(b[i], b[j]);
        assert Identity(last.emojis[i]) != Identity(last.emojis[j]);
      }
      forall x, y | x in a && y in b ensures Key(x) != Key(y) {
        FlattenUpToMembers(cs, n - 1, x);
        var k :| 0 <= k < n - 1 && EmojiOf(x, cs[k]);
        assert IdOf(cs[k]) != IdOf(cs[n - 1]);
        KeyInjective(x, y);
      }
      DistinctByConcat(a, b, Key);
    }
  }

  // ---------------------------------------------------------------------------
  // De-duplication

  lemma KeySetSnoc(s: seq<Tile>, t: Tile)
    ensures KeySet(s + [t]) == KeySet(s) + {Key(t)}
  {
    assert (s + [t])[..|s|] == s;
  }

  /** The pool the `seen`-set loops build: each key kept at its first occurrence. */
  ghost function Dedup(ts: seq<Tile>): seq<Tile> {
    if ts == [] then []
    else
      var r0 := Dedup(ts[..|ts| - 1]);
      var t := ts[|ts| - 1];
      if Key(t) in KeySet(r0) then r0 else r0 + [t]
  }

  /** De-duplication keeps no key twice, invents no tile and loses no key. */
  lemma {:induction false} DedupProperties(ts: seq<Tile>)
    ensures DistinctBy(Dedup(ts), Key)
    ensures forall t :: t in Dedup(ts) ==> t in ts
    ensures KeySet(Dedup(ts)) == KeySet(ts)
  {
    if ts != [] {
      var init, t := ts[..|ts| - 1], ts[|ts| - 1];
      var r0 := Dedup(init);
      DedupProperties(init);
      assert ts == init + [t];
      KeySetSnoc(init, t);
      KeySetSnoc(r0, t);
      if Key(t) !in KeySet(r0) {
        forall x | x in r0 ensures Key(x) != Key(t) {
          KeySetMembers(r0, Key(x));
        }
        DistinctByConcat(r0, [t], Key);
      }
    }
  }

  /** A sequence without repeated keys is its own de-duplication. */
  lemma {:induction false} DedupOfDistinct(ts: seq<Tile>)
    requires DistinctBy(ts, Key)
    ensures Dedup(ts) == ts
  {
    if ts != [] {
      var init, t := ts[..|ts| - 1], ts[|ts| - 1];
      DistinctBySnoc(ts, Key);
      DedupOfDistinct(init);
      KeySetMembers(init, Key(t));
      assert ts == init + [t];
    }
  }

  /** The de-duplicated pool of the categories `cs`. */
  ghost function PoolOf(cs: seq<Color>): seq<Tile> { Dedup(Flatten(cs)) }

  /** Over well-formed categories the pool is the full flattening, four tiles each. */
  lemma PoolOfWellFormed(cs: seq<Color>)
    requires WellFormedColors(cs)
    ensures PoolOf(cs) == Flatten(cs)
    ensures |PoolOf(cs)| == 4 * |cs|
  {
    FlattenUpToDistinct(cs, |cs|);
    DedupOfDistinct(Flatten(cs));
    FlattenUpToLength(cs, |cs|);
  }

  /** Every pooled tile is an ordinary tile of one of the categories. */
  lemma PoolSound(cs: seq<Color>, t: Tile)
    requires t in PoolOf(cs)
    ensures FromColors(t, cs)
  {
    DedupProperties(Flatten(cs));
    FlattenMembers(cs, t);
  }

  /** With `:`-free ids, no tile of the categories is lost to de-duplication. */
  lemma PoolComplete(cs: seq<Color>, t: Tile)
    requires forall c :: c in cs ==> ':' !in c.id
    requires FromColors(t, cs)
    ensures t in PoolOf(cs)
  {
    FlattenMembers(cs, t);
    DedupProperties(Flatten(cs));
    KeySetMembers(Flatten(cs), Key(t));
    KeySetMembers(PoolOf(cs), Key(t));
    var u :| u in PoolOf(cs) && Key(u) == Key(t);
    assert u in Flatten(cs);
    FlattenMembers(cs, u);
    var c :| c in cs && EmojiOf(t, c);
    var d :| d in cs && EmojiOf(u, d);
    KeyInjective(t, u);
  }

  /** One more tile either is dropped, its key being known, or is appended. */
  lemma DedupSnoc(s: seq<Tile>, t: Tile)
    ensures Dedup(s + [t]) == if Key(t) in KeySet(Dedup(s)) then Dedup(s) else Dedup(s) + [t]
  {
    assert (s + [t])[..|s|] == s;
  }

  lemma PrefixSnoc<T>(done: seq<T>, ts: seq<T>, j: nat)
    requires j < |ts|
    ensures done + ts[..j + 1] == (done + ts[..j]) + [ts[j]]
  {
    assert ts[..j + 1] == ts[..j] + [ts[j]];
  }

  /** The inner loop of the builders for one category `c`: skip an emoji whose
      key is already in `seen`, otherwise record the key and push the tile. */
  method CollectCategory(c: Color, ghost done: seq<Tile>, pool0: seq<Tile>, seen0: set<string>)
    returns (pool: seq<Tile>, seen: set<string>)
    requires pool0 == Dedup(done) && seen0 == KeySet(pool0)
    ensures pool == Dedup(done + TilesOf(c)) && seen == KeySet(pool)
  {
    pool, seen := pool0, seen0;
    ghost var visited := done;
    var j := 0;
    while j < |c.emojis|
      invariant 0 <= j <= |c.emojis|
      invariant visited == done + TilesOf(c)[..j]
      invariant pool == Dedup(visited) && seen == KeySet(pool)
    {
      var e := c.emojis[j];
      var key := c.id + ":" + e;
      ghost var t := Tile(e, c.id, "");
      DedupSnoc(visited, t);
      if key !in seen {
        KeySetSnoc(pool, t);
        seen := seen + {key};
        pool := pool + [Tile(e, c.id, "")];
      }
      PrefixSnoc(done, TilesOf(c), j);
      visited := visited + [t];
      j := j + 1;
    }
    assert TilesOf(c)[..j] == TilesOf(c);
  }

  /** The nested loops shared by `buildTilesForChoices` and `buildRainbowTiles`:
      every emoji of every category, in order, each key kept once. */
  method CollectUnique(cs: seq<Color>) returns (pool: seq<Tile>)
    ensures pool == PoolOf(cs)
  {
    pool := [];
    var seen: set<string> := {};
    var i := 0;
    while i < |cs|
      invariant 0 <= i <= |cs|
      invariant pool == Dedup(FlattenUpTo(cs, i))
      invariant seen == KeySet(pool)
    {
      pool, seen := CollectCategory(cs[i], FlattenUpTo(cs, i), pool, seen);
      i := i + 1;
    }
  }

  // ---------------------------------------------------------------------------
  // Choosing the stage's colours

  /** `cs.filter(c => c.id !== id)`. */
  function Without(cs: seq<Color>, id: string): seq<Color> {
    if cs == [] then [] else (if cs[0].id != id then [cs[0]] else []) + Without(cs[1..], id)
  }

  /** The filter keeps exactly the categories with another id, each as often as before. */
  lemma {:induction false} WithoutProperties(cs: seq<Color>, id: string)
    ensures forall c :: c in Without(cs, id) <==> c in cs && c.id != id
    ensures multiset(Without(cs, id)) <= multiset(cs)
  {
    if cs != [] {
      WithoutProperties(cs[1..], id);
      assert cs == [cs[0]] + cs[1..];
    }
  }

  /** Filtering out an id that no category carries keeps every category. */
  lemma {:induction false} WithoutAbsent(cs: seq<Color>, id: string)
    requires forall c :: c in cs ==> c.id != id
    ensures Without(cs, id) == cs
  {
    if cs != [] {
      WithoutAbsent(cs[1..], id);
      assert cs == [cs[0]] + cs[1..];
    }
  }

  /** With distinct ids, filtering out the id of a member drops exactly one category. */
  lemma {:induction false} WithoutPresent(cs: seq<Color>, k: nat)
    requires DistinctBy(cs, IdOf) && k < |cs|
    ensures |Without(cs, cs[k].id)| == |cs| - 1
  {
    var id := cs[k].id;
    var rest := cs[1..];
    assert DistinctBy(rest, IdOf) by {
      forall i, j | 0 <= i < j < |rest| ensures IdOf(rest[i]) != IdOf(rest[j]) {
        assert rest[i] == cs[i + 1] && rest[j] == cs[j + 1];
      }
    }
    if k == 0 {
      forall c | c in rest ensures c.id != id {
        var i :| 0 <= i < |rest| && rest[i] == c;
        assert IdOf(cs[0]) != IdOf(cs[i + 1]);
      }
      WithoutAbsent(rest, id);
    } else {
      assert IdOf(cs[0]) != IdOf(cs[k]);
      assert rest[k - 1] == cs[k];
      WithoutPresent(rest, k - 1);
    }
  }

  /** Every palette colour has seven others. */
  lemma OthersInPalette(k: nat)
    requires k < |COLORS|
    ensures |Without(COLORS, COLORS[k].id)| == |COLORS| - 1
  {
    PaletteWellFormed();
    WithoutPresent(COLORS, k);
  }

  /** The target together with colours sampled from the others of a palette with
      distinct ids: distinct ids again, every extra colour a palette colour. */
  lemma TargetWithPicks(palette: seq<Color>, target: Color, picks: seq<Color>)
    requires DistinctBy(palette, IdOf)
    requires multiset(picks) <= multiset(Without(palette, target.id))
    ensures DistinctBy([target] + picks, IdOf)
    ensures forall c :: c in [target] + picks ==> c == target || (c in palette && c.id != target.id)
  {
    var others := Without(palette, target.id);
    WithoutProperties(palette, target.id);
    DistinctBySubMultiset(palette, others, IdOf);
    DistinctBySubMultiset(others, picks, IdOf);
    forall c | c in picks ensures c in palette && c.id != target.id {
      assert c in multiset(others);
    }
    DistinctByConcat([target], picks, IdOf);
  }

  /** `buildChoicesForTarget`: the target plus `CHOICES_PER_STAGE - 1` other
      colours sampled without replacement, shuffled together. */
  method BuildChoicesForTarget(target: Color) returns (choices: seq<Color>)
    ensures target in choices
    ensures |choices| == 1 + Min(CHOICES_PER_STAGE - 1, |Without(COLORS, target.id)|)
    ensures forall c :: c in choices ==> c == target || (c in COLORS && c.id != target.id)
    ensures DistinctBy(choices, IdOf)
  {
    var others := Without(COLORS, target.id);
    var picks := Sample(others, CHOICES_PER_STAGE - 1);
    var all := [target] + picks;
    choices := Shuffle(all);
    assert target in multiset(choices) by { assert all[0] == target; }
    IdsDistinct();
    TargetWithPicks(COLORS, target, picks);
    forall c | c in choices ensures c == target || (c in COLORS && c.id != target.id) {
      assert c in multiset(all);
    }
    DistinctBySubMultiset(all, choices, IdOf);
  }

  // ---------------------------------------------------------------------------
  // Building the board's tiles

  /** `buildTilesForChoices`: the de-duplicated tiles of the chosen colours,
      shuffled and cut to `min(MAX_TILES, pool.length)`. */
  method BuildTilesForChoices(choices: seq<Color>) returns (r: seq<Tile>)
    ensures |r| == Min(MAX_TILES, |PoolOf(choices)|)
    ensures multiset(r) <= multiset(PoolOf(choices))
    ensures |PoolOf(choices)| <= MAX_TILES ==> multiset(r) == multiset(PoolOf(choices))
    ensures DistinctBy(r, Key)
    ensures forall t :: t in r ==> FromColors(t, choices)
  {
    var pool := CollectUnique(choices);
    r := Sample(pool, MAX_TILES);
    DedupProperties(Flatten(choices));
    DistinctBySubMultiset(pool, r, Key);
    forall t | t in r ensures FromColors(t, choices) {
      assert t in multiset(pool);
      PoolSound(choices, t);
    }
  }

  /** The rainbow tile's key differs from that of every ordinary palette tile. */
  lemma RainbowKeyFresh(palette: seq<Color>, t: Tile)
    requires forall c :: c in palette ==> ':' !in c.id && c.id != "rainbow"
    requires FromColors(t, palette)
    ensures Key(t) != Key(RAINBOW_TILE)
  {
    var c :| c in palette && EmojiOf(t, c);
    KeyInjective(t, RAINBOW_TILE);
  }

  /** Tiles drawn from a palette's pool plus one rainbow tile: no key twice, one
      rainbow tile, every other tile an ordinary palette tile. */
  lemma RainbowPicked(palette: seq<Color>, base: seq<Tile>)
    requires forall c :: c in palette ==> ':' !in c.id && c.id != "rainbow"
    requires multiset(base) <= multiset(PoolOf(palette))
    ensures DistinctBy(base + [RAINBOW_TILE], Key)
    ensures multiset(base + [RAINBOW_TILE])[RAINBOW_TILE] == 1
    ensures forall t :: t in base + [RAINBOW_TILE] ==> t == RAINBOW_TILE || FromColors(t, palette)
  {
    DedupProperties(Flatten(palette));
    DistinctBySubMultiset(PoolOf(palette), base, Key);
    forall t | t in base ensures FromColors(t, palette) && Key(t) != Key(RAINBOW_TILE) {
      assert t in multiset(PoolOf(palette));
      PoolSound(palette, t);
      RainbowKeyFresh(palette, t);
    }
    DistinctByConcat(base, [RAINBOW_TILE], Key);
  }

  /** Any order of palette tiles plus one rainbow tile is a rainbow board. */
  lemma RainbowShuffled(base: seq<Tile>, r: seq<Tile>)
    requires multiset(base) <= multiset(PoolOf(COLORS))
    requires multiset(r) == multiset(base + [RAINBOW_TILE])
    ensures multiset(r)[RAINBOW_TILE] == RAINBOW_COUNT
    ensures forall t :: t in r ==> t == RAINBOW_TILE || FromColors(t, COLORS)
    ensures DistinctBy(r, Key)
  {
    IdsPlain();
    RainbowPicked(COLORS, base);
    forall t | t in r ensures t == RAINBOW_TILE || FromColors(t, COLORS) {
      assert t in multiset(base + [RAINBOW_TILE]);
    }
    DistinctBySubMultiset(base + [RAINBOW_TILE], r, Key);
  }

  /** The loop of lines 179-181: push `RAINBOW_COUNT` rainbow tiles. */
  method AddRainbowTiles(base: seq<Tile>) returns (picked: seq<Tile>)
    ensures picked == base + [RAINBOW_TILE]
  {
    picked := base;
    var i := 0;
    while i < RAINBOW_COUNT
      invariant 0 <= i <= RAINBOW_COUNT
      invariant picked == base + seq(i, _ => RAINBOW_TILE)
    {
      picked := picked + [RAINBOW_TILE];
      i := i + 1;
    }
    assert seq(RAINBOW_COUNT, _ => RAINBOW_TILE) == [RAINBOW_TILE];
  }

  /** `buildRainbowTiles`: the de-duplicated tiles of every colour, shuffled and
      cut to `MAX_TILES - RAINBOW_COUNT`, then `RAINBOW_COUNT` rainbow tiles, the
      whole shuffled again. */
  method BuildRainbowTiles() returns (r: seq<Tile>)
    ensures |r| == Min(MAX_TILES - RAINBOW_COUNT, |PoolOf(COLORS)|) + RAINBOW_COUNT
    ensures |r| <= MAX_TILES
    ensures multiset(r)[RAINBOW_TILE] == RAINBOW_COUNT
    ensures forall t :: t in r ==> t == RAINBOW_TILE || FromColors(t, COLORS)
    ensures DistinctBy(r, Key)
  {
    var pool := CollectUnique(COLORS);
    var base := Sample(pool, MAX_TILES - RAINBOW_COUNT);
    var picked := AddRainbowTiles(base);
    r := Shuffle(picked);
    RainbowShuffled(base, r);
  }

  /** All 32 palette tiles exist, so a rainbow board always holds 32 tiles. */
  lemma RainbowPoolSize()
    ensures |PoolOf(COLORS)| == 32
  {
    PaletteWellFormed();
    PoolOfWellFormed(COLORS);
  }
}
