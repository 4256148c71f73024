/** The board layout of app.js (lines 193-292): the overlap test on tile rectangles,
    the tile-size clamp, the bounded random relocation of one tile and the bounded
    pairwise passes that try to pull overlapping tiles apart.

    A button's on-screen position (`style.left`, `style.top`) is a `Pos`; every tile
    is a square of the shared `tileSize`, which is what `getRect` reads back. The
    board's buttons are an array of positions updated in place. `Math.random()` is
    a nondeterministic choice of a real in [0, 1). */
module Layout {
  import opened Palette

  /** Inner padding of the board (`const pad = 6`, lines 203 and 262). */
  const PAD: real := 6.0
  /** Random placements `tryRelocate` tries before giving up (line 207). */
  const RELOCATE_TRIES := 500
  /** Passes `resolveOverlaps` makes at most (line 230). */
  const RESOLVE_PASSES := 5

  datatype Pos = Pos(x: real, y: real)

  /** `{ left, top, right, bottom }` as `getRect` and `tryRelocate` build it. */
  datatype Rect = Rect(left: real, top: real, right: real, bottom: real)

  function RectAt(p: Pos, size: real): Rect {
    Rect(p.x, p.y, p.x + size, p.y + size)
  }

  /** `overlaps(a, b, margin)` exactly as written: the rectangles collide unless one
      of the four separating comparisons holds. */
  predicate Overlaps(a: Rect, b: Rect, margin: real) {
    !(a.right <= b.left + margin ||
      a.left >= b.right - margin ||
      a.bottom <= b.top + margin ||
      a.top >= b.bottom - margin)
  }

  lemma OverlapsSymmetric(a: Rect, b: Rect, margin: real)
    ensures Overlaps(a, b, margin) == Overlaps(b, a, margin)
  {
  }

  ghost predicate InInterior(x: real, y: real, r: Rect) {
    r.left < x < r.right && r.top < y < r.bottom
  }

  function Max(a: real, b: real): real { if a >= b then a else b }
  function MinR(a: real, b: real): real { if a <= b then a else b }

  /** With no margin, `overlaps` holds exactly when two proper rectangles (tiles have
      a positive size) share an interior point. */
  lemma OverlapsZeroMargin(a: Rect, b: Rect)
    requires a.left < a.right && a.top < a.bottom
    requires b.left < b.right && b.top < b.bottom
    ensures Overlaps(a, b, 0.0) <==> exists x: real, y: real :: InInterior(x, y, a) && InInterior(x, y, b)
  {
    if Overlaps(a, b, 0.0) {
      var x := (Max(a.left, b.left) + MinR(a.right, b.right)) / 2.0;
      var y := (Max(a.top, b.top) + MinR(a.bottom, b.bottom)) / 2.0;
      assert InInterior(x, y, a) && InInterior(x, y, b);
    }
  }

  /** How far two intervals interpenetrate (negative when they are apart). */
  function Depth(lo1: real, hi1: real, lo2: real, hi2: real): real {
    MinR(hi1, hi2) - Max(lo1, lo2)
  }

  /** What the margin means: for rectangles wider and taller than the margin (every
      tile: `tileSize` is at least 40 and the margin is 12), `overlaps` holds exactly
      when they interpenetrate by more than the margin on both axes. So a positive
      margin lets tiles overlap a little before they count as colliding; it does not
      keep a gap between them. */
  lemma OverlapsMeansPenetration(a: Rect, b: Rect, margin: real)
    requires a.right - a.left > margin && b.right - b.left > margin
    requires a.bottom - a.top > margin && b.bottom - b.top > margin
    ensures Overlaps(a, b, margin) <==>
              Depth(a.left, a.right, b.left, b.right) > margin &&
              Depth(a.top, a.bottom, b.top, b.bottom) > margin
  {
  }

  /** A larger margin only removes collisions. */
  lemma MarginShrinksCollisions(a: Rect, b: Rect, m1: real, m2: real)
    requires m1 <= m2 && Overlaps(a, b, m2)
    ensures Overlaps(a, b, m1)
  {
  }

  /** `Math.max(40, Math.min(96, approx))` (line 259); `approx` is the
      `Math.floor(Math.sqrt(...) * 0.85)` of line 258, taken as an input. */
  function TileSize(approx: int): (s: int)
    ensures 40 <= s <= 96
    ensures 40 <= approx <= 96 ==> s == approx
    ensures approx < 40 ==> s == 40
    ensures approx > 96 ==> s == 96
  {
    if 96 <= approx then 96 else if approx <= 40 then 40 else approx
  }

  lemma TileSizeMonotone(a: int, b: int)
    requires a <= b
    ensures TileSize(a) <= TileSize(b)
  {
  }

  /** `Math.max(pad, extent - tileSize - pad)`: the largest left (top) coordinate. */
  function MaxCoord(extent: real, size: real): (m: real)
    ensures m >= PAD
  {
    Max(PAD, extent - size - PAD)
  }

  /** A position both placement rules can produce: inside `[pad, maxX] x [pad, maxY]`. */
  ghost predicate InBox(p: Pos, boardW: real, boardH: real, size: real) {
    PAD <= p.x <= MaxCoord(boardW, size) && PAD <= p.y <= MaxCoord(boardH, size)
  }

  /** A drawn board of `n` tiles: one position per tile, a clamped tile size and
      every tile inside the padded board. */
  ghost predicate Drawn(ps: seq<Pos>, n: int, size: int, boardW: real, boardH: real) {
    && |ps| == n
    && 40 <= size <= 96
    && (forall k :: 0 <= k < |ps| ==> InBox(ps[k], boardW, boardH, size as real))
  }

  /** `pad + Math.random() * (max - pad)` with `u` the random draw. */
  function Scaled(u: real, hi: real): (c: real)
    requires 0.0 <= u < 1.0 && PAD <= hi
    ensures PAD <= c <= hi
    ensures PAD < hi ==> c < hi
  {
    var d := hi - PAD;
    ScaleBelow(u, d);
    PAD + u * d
  }

  lemma ScaleBelow(u: real, d: real)
    requires 0.0 <= u < 1.0 && 0.0 <= d
    ensures 0.0 <= u * d <= d
    ensures 0.0 < d ==> u * d < d
  {
    assert d - u * d == (1.0 - u) * d;
  }

  /** Rectangle `r` collides with none of the tiles other than `self`. */
  ghost predicate ClearOfOthers(ps: seq<Pos>, self: int, r: Rect, size: real, margin: real) {
    forall k :: 0 <= k < |ps| && k != self ==> !Overlaps(r, RectAt(ps[k], size), margin)
  }

  /** The inner loop of `tryRelocate` (lines 212-217): scan the other buttons and
      stop at the first one the candidate rectangle overlaps. */
  method HitsOther(pos: array<Pos>, self: int, r: Rect, size: real, margin: real) returns (hit: bool)
    ensures hit <==> !ClearOfOthers(pos[..], self, r, size, margin)
  {
    hit := false;
    var k := 0;
    while k < pos.Length
      invariant 0 <= k <= pos.Length
      invariant forall q :: 0 <= q < k && q != self ==> !Overlaps(r, RectAt(pos[q], size), margin)
    {
      if k != self && Overlaps(r, RectAt(pos[k], size), margin) {
        assert pos[..][k] == pos[k];
        hit := true;
        return;
      }
      k := k + 1;
    }
  }

  /** `tryRelocate(btn, others, boardW, boardH, tileSize, margin)`: up to 500 random
      placements inside the padded board; the first one that overlaps no other tile
      is written to the tile and reported with `true`. Only the tile `idx` can move. */
  method TryRelocate(pos: array<Pos>, idx: nat, boardW: real, boardH: real, size: real, margin: real)
    returns (ok: bool)
    requires idx < pos.Length
    modifies pos
    ensures forall k :: 0 <= k < pos.Length && k != idx ==> pos[k] == old(pos[k])
    ensures ok ==> InBox(pos[idx], boardW, boardH, size)
    ensures ok ==> ClearOfOthers(pos[..], idx, RectAt(pos[idx], size), size, margin)
    ensures !ok ==> pos[..] == old(pos[..])
  {
    var maxX := MaxCoord(boardW, size);
    var maxY := MaxCoord(boardH, size);
    var k := 0;
    while k < RELOCATE_TRIES
      invariant 0 <= k <= RELOCATE_TRIES
      invariant pos[..] == old(pos[..])
    {
      var u :| 0.0 <= u < 1.0;  // Math.random()
      var v :| 0.0 <= v < 1.0;  // Math.random()
      var x := Scaled(u, maxX);
      var y := Scaled(v, maxY);
      var r := RectAt(Pos(x, y), size);
      var hit := HitsOther(pos, idx, r, size, margin);
      if !hit {
        ghost var before := pos[..];
        pos[idx] := Pos(x, y);
        assert forall q :: 0 <= q < pos.Length && q != idx ==> pos[..][q] == before[q];
        return true;
      }
      k := k + 1;
    }
    return false;
  }

  /** The pairs `(p, q)`, `p < q`, that one pass has already examined (every pair
      before `(i, j)` in the pass's order) collide exactly when they are recorded in
      `unresolved`. */
  ghost predicate ExaminedAgree(ps: seq<Pos>, size: real, unresolved: set<(int, int)>, i: int, j: int) {
    forall p, q :: 0 <= p < q < |ps| && (p < i || (p == i && q < j)) ==>
      (Overlaps(RectAt(ps[p], size), RectAt(ps[q], size), NEAR_MARGIN as real) <==> (p, q) in unresolved)
  }

  /** Every tile is where it was or was placed inside the padded board. */
  ghost predicate KeptOrBoxed(ps: seq<Pos>, ps0: seq<Pos>, boardW: real, boardH: real, size: real)
    requires |ps| == |ps0|
  {
    forall k :: 0 <= k < |ps| ==> ps[k] == ps0[k] || InBox(ps[k], boardW, boardH, size)
  }

  /** Tiles `p` and `q` are both on the board and collide as `resolveOverlaps` tests it. */
  ghost predicate Colliding(ps: seq<Pos>, size: real, p: int, q: int) {
    0 <= p < |ps| && 0 <= q < |ps| && Overlaps(RectAt(ps[p], size), RectAt(ps[q], size), NEAR_MARGIN as real)
  }

  /** Every examined pair `(p, q)` (every pair before `(i, j)` in a pass's order) that
      collides is recorded in `unresolved`. With `i == |ps|` that is every pair. */
  ghost predicate Accounted(ps: seq<Pos>, size: real, unresolved: set<(int, int)>, i: int, j: int) {
    forall p, q :: 0 <= p < q < |ps| && (p < i || (p == i && q < j)) && Colliding(ps, size, p, q) ==>
      (p, q) in unresolved
  }

  /** Every recorded pair `(p, q)`, `p < q`, is one that collided in `ps0`. */
  ghost predicate Recorded(ps0: seq<Pos>, size: real, u: set<(int, int)>) {
    forall pr :: pr in u ==> 0 <= pr.0 < pr.1 < |ps0| && Colliding(ps0, size, pr.0, pr.1)
  }

  /** Every pair that collides in `ps` already collided in `ps0`. */
  ghost predicate NoNewCollisions(ps: seq<Pos>, ps0: seq<Pos>, size: real) {
    forall p, q :: 0 <= p < q < |ps| && Colliding(ps, size, p, q) ==> Colliding(ps0, size, p, q)
  }

  /** Tile `k` collides with no tile of a lower index. */
  ghost predicate IsolatedBelow(ps: seq<Pos>, size: real, k: int) {
    forall l :: 0 <= l < k ==> !Colliding(ps, size, l, k)
  }

  /** Every tile that collided with no tile of a lower index in `ps0` is where it was. */
  ghost predicate IsolatedKept(ps: seq<Pos>, ps0: seq<Pos>, size: real) {
    forall k :: 0 <= k < |ps| && k < |ps0| && IsolatedBelow(ps0, size, k) ==> ps[k] == ps0[k]
  }

  /** A successful `tryRelocate` of tile `j` creates no collision, and the moved tile
      collides with no other tile. */
  lemma RelocationClears(ps: seq<Pos>, mid: seq<Pos>, j: int, size: real)
    requires |ps| == |mid| && 0 <= j < |ps|
    requires forall k :: 0 <= k < |ps| && k != j ==> ps[k] == mid[k]
    requires ClearOfOthers(ps, j, RectAt(ps[j], size), size, NEAR_MARGIN as real)
    ensures NoNewCollisions(ps, mid, size)
    ensures forall k :: 0 <= k < |ps| && k != j ==> !Colliding(ps, size, k, j)
  {
    forall k | 0 <= k < |ps| && k != j ensures !Colliding(ps, size, k, j) {
      OverlapsSymmetric(RectAt(ps[k], size), RectAt(ps[j], size), NEAR_MARGIN as real);
    }
    forall p, q | 0 <= p < q < |ps| && Colliding(ps, size, p, q) ensures Colliding(mid, size, p, q) {
      assert p != j && q != j;
      assert ps[p] == mid[p] && ps[q] == mid[q];
    }
  }

  lemma NoNewCollisionsChain(ps: seq<Pos>, mid: seq<Pos>, ps0: seq<Pos>, size: real)
    requires |ps| == |mid| == |ps0|
    requires NoNewCollisions(mid, ps0, size) && NoNewCollisions(ps, mid, size)
    ensures NoNewCollisions(ps, ps0, size)
  {
  }

  /** A pair recorded as colliding at the start of a pass also collided at the start
      of the first pass, since no pass creates a collision. */
  lemma RecordedChain(mid: seq<Pos>, ps0: seq<Pos>, size: real, u: set<(int, int)>)
    requires |mid| == |ps0|
    requires Recorded(mid, size, u) && NoNewCollisions(mid, ps0, size)
    ensures Recorded(ps0, size, u)
  {
    forall pr | pr in u ensures 0 <= pr.0 < pr.1 < |ps0| && Colliding(ps0, size, pr.0, pr.1) {
      assert Colliding(mid, size, pr.0, pr.1);
    }
  }

  /** Keeping isolated tiles composes over passes, since a pass creates no collision. */
  lemma IsolatedKeptChain(ps: seq<Pos>, mid: seq<Pos>, ps0: seq<Pos>, size: real)
    requires |ps| == |mid| == |ps0|
    requires NoNewCollisions(mid, ps0, size)
    requires IsolatedKept(mid, ps0, size) && IsolatedKept(ps, mid, size)
    ensures IsolatedKept(ps, ps0, size)
  {
    forall k | 0 <= k < |ps| && IsolatedBelow(ps0, size, k) ensures ps[k] == ps0[k] {
      assert IsolatedBelow(mid, size, k);
    }
  }

  /** The pass's bookkeeping across one examined pair `(i, j)`: a pair that collides
      afterwards collided before, or is `(i, j)` itself and recorded; only tile `j`
      can have moved, and only when it collided with tile `i`. */
  lemma PairStep(after: seq<Pos>, before: seq<Pos>, ps0: seq<Pos>, size: real,
                 u0: set<(int, int)>, u1: set<(int, int)>, i: int, j: int)
    requires |after| == |before| == |ps0| && 0 <= i < j < |after|
    requires Accounted(before, size, u0, i, j)
    requires NoNewCollisions(before, ps0, size) && IsolatedKept(before, ps0, size)
    requires Recorded(ps0, size, u0)
    requires u1 == u0 || (u1 == u0 + {(i, j)} && Colliding(before, size, i, j))
    requires forall k :: 0 <= k < |after| && k != j ==> after[k] == before[k]
    requires after[j] == before[j] || Colliding(before, size, i, j)
    requires after == before || NoNewCollisions(after, before, size)
    requires u0 <= u1 && ((i, j) in u1 || !Colliding(after, size, i, j))
    ensures Accounted(after, size, u1, i, j + 1)
    ensures NoNewCollisions(after, ps0, size) && IsolatedKept(after, ps0, size)
    ensures Recorded(ps0, size, u1)
  {
    if after[j] != before[j] || u1 != u0 {
      assert Colliding(ps0, size, i, j);
    }
  }

  /** One pass of `resolveOverlaps` (lines 231-245): for every pair `i < j` in order,
      when the two tiles overlap, try to relocate the later one. `moved` counts the
      successful relocations. A relocation never creates a collision and only ever
      moves the later tile of a colliding pair, so every pair still colliding after the
      pass is one whose relocation ran out of tries, and a tile that collided with no
      earlier tile stays put. A pass with `moved == 0` changed nothing, and then the
      pairs that collide are exactly those whose relocation failed. */
  method ResolvePass(pos: array<Pos>, boardW: real, boardH: real, size: real)
    returns (moved: nat, ghost unresolved: set<(int, int)>)
    modifies pos
    ensures pos.Length > 0 ==> pos[0] == old(pos[0])
    ensures KeptOrBoxed(pos[..], old(pos[..]), boardW, boardH, size)
    ensures Accounted(pos[..], size, unresolved, pos.Length, 0)
    ensures NoNewCollisions(pos[..], old(pos[..]), size)
    ensures IsolatedKept(pos[..], old(pos[..]), size)
    ensures Recorded(old(pos[..]), size, unresolved)
    ensures moved == 0 ==> pos[..] == old(pos[..])
    ensures moved == 0 ==> ExaminedAgree(pos[..], size, unresolved, pos.Length, 0)
  {
    ghost var ps0 := pos[..];
    moved := 0;
    unresolved := {};
    var i := 0;
    while i < pos.Length
      invariant 0 <= i <= pos.Length
      invariant PassBook(pos[..], ps0, boardW, boardH, size, moved, unresolved, i, 0)
    {
      moved, unresolved := ResolveRow(pos, i, boardW, boardH, size, ps0, moved, unresolved);
      i := i + 1;
    }
    assert IsolatedBelow(ps0, size, 0);
  }

  /** The bookkeeping of a pass that has examined every pair before `(i, j)`. */
  ghost predicate PassBook(ps: seq<Pos>, ps0: seq<Pos>, boardW: real, boardH: real, size: real,
                           moved: nat, u: set<(int, int)>, i: int, j: int)
  {
    && |ps| == |ps0|
    && KeptOrBoxed(ps, ps0, boardW, boardH, size)
    && (moved == 0 ==> ps == ps0 && ExaminedAgree(ps, size, u, i, j))
    && (forall pr :: pr in u ==> 0 <= pr.0 < i || (pr.0 == i && pr.1 < j))
    && Accounted(ps, size, u, i, j)
    && NoNewCollisions(ps, ps0, size)
    && IsolatedKept(ps, ps0, size)
    && Recorded(ps0, size, u)
  }

  /** The inner loop of one pass (lines 234-243): the pairs `(i, j)` for every `j > i`,
      in order, with the pass's bookkeeping carried from row `i` to row `i + 1`. */
  method ResolveRow(pos: array<Pos>, i: int, boardW: real, boardH: real, size: real,
                    ghost ps0: seq<Pos>, moved0: nat, ghost u0: set<(int, int)>)
    returns (moved: nat, ghost unresolved: set<(int, int)>)
    requires 0 <= i < pos.Length
    requires PassBook(pos[..], ps0, boardW, boardH, size, moved0, u0, i, 0)
    modifies pos
    ensures PassBook(pos[..], ps0, boardW, boardH, size, moved, unresolved, i + 1, 0)
  {
    moved, unresolved := moved0, u0;
    var n := pos.Length;
    var j := i + 1;
    while j < n
      invariant i + 1 <= j <= n
      invariant PassBook(pos[..], ps0, boardW, boardH, size, moved, unresolved, i, j)
    {
      moved, unresolved := ExaminePair(pos, i, j, boardW, boardH, size, ps0, moved, unresolved);
      j := j + 1;
    }
  }

  /** The body of the inner loop for the pair `(i, j)` (lines 235-242): when the two
      tiles overlap, try to move tile `j`; count a success and record a failure. */
  method ExaminePair(pos: array<Pos>, i: int, j: int, boardW: real, boardH: real, size: real,
                     ghost ps0: seq<Pos>, moved0: nat, ghost u0: set<(int, int)>)
    returns (moved: nat, ghost unresolved: set<(int, int)>)
    requires 0 <= i < j < pos.Length
    requires PassBook(pos[..], ps0, boardW, boardH, size, moved0, u0, i, j)
    modifies pos
    ensures PassBook(pos[..], ps0, boardW, boardH, size, moved, unresolved, i, j + 1)
  {
    moved, unresolved := moved0, u0;
    ghost var before := pos[..];
    var a := RectAt(pos[i], size);
    var b := RectAt(pos[j], size);
    if Overlaps(a, b, NEAR_MARGIN as real) {
      var ok := TryRelocate(pos, j, boardW, boardH, size, NEAR_MARGIN as real);
      if ok {
        moved := moved + 1;
        KeptOrBoxedStep(pos[..], before, ps0, j, boardW, boardH, size);
        RelocationClears(pos[..], before, j, size);
      } else {
        unresolved := unresolved + {(i, j)};
      }
    }
    PairStep(pos[..], before, ps0, size, u0, unresolved, i, j);
  }

  lemma KeptOrBoxedStep(ps: seq<Pos>, mid: seq<Pos>, ps0: seq<Pos>, j: int,
                        boardW: real, boardH: real, size: real)
    requires |ps| == |mid| == |ps0| && 0 <= j < |ps|
    requires KeptOrBoxed(mid, ps0, boardW, boardH, size)
    requires forall k :: 0 <= k < |ps| && k != j ==> ps[k] == mid[k]
    requires InBox(ps[j], boardW, boardH, size)
    ensures KeptOrBoxed(ps, ps0, boardW, boardH, size)
  {
    forall k | 0 <= k < |ps| ensures ps[k] == ps0[k] || InBox(ps[k], boardW, boardH, size) {
      if k != j {
        assert ps[k] == mid[k];
      }
    }
  }

  /** `resolveOverlaps(buttons, boardW, boardH, tileSize)`: at most five passes,
      stopping after the first pass that moved nothing. The first tile never moves,
      every moved tile lies in the padded board, no collision is ever created, a tile
      that collided with no earlier tile stays put, and every pair still colliding is
      one the last pass could not pull apart; when the loop stopped early these are
      exactly the pairs of its last pass that could not be pulled apart. */
  method ResolveOverlaps(pos: array<Pos>, boardW: real, boardH: real, size: real)
    returns (ghost passes: nat, ghost settled: bool, ghost unresolved: set<(int, int)>)
    modifies pos
    ensures 1 <= passes <= RESOLVE_PASSES
    ensures !settled ==> passes == RESOLVE_PASSES
    ensures pos.Length > 0 ==> pos[0] == old(pos[0])
    ensures KeptOrBoxed(pos[..], old(pos[..]), boardW, boardH, size)
    ensures settled ==> ExaminedAgree(pos[..], size, unresolved, pos.Length, 0)
    ensures Accounted(pos[..], size, unresolved, pos.Length, 0)
    ensures NoNewCollisions(pos[..], old(pos[..]), size)
    ensures IsolatedKept(pos[..], old(pos[..]), size)
    ensures Recorded(old(pos[..]), size, unresolved)
  {
    passes := 0;
    settled := false;
    unresolved := {};
    var pass := 0;
    while pass < RESOLVE_PASSES
      invariant 0 <= pass <= RESOLVE_PASSES && passes == pass
      invariant pos.Length > 0 ==> pos[0] == old(pos[0])
      invariant KeptOrBoxed(pos[..], old(pos[..]), boardW, boardH, size)
      invariant passes > 0 ==> Accounted(pos[..], size, unresolved, pos.Length, 0)
      invariant passes > 0 ==> Recorded(old(pos[..]), size, unresolved)
      invariant NoNewCollisions(pos[..], old(pos[..]), size)
      invariant IsolatedKept(pos[..], old(pos[..]), size)
    {
      ghost var before := pos[..];
      var moved;
      moved, unresolved := ResolvePass(pos, boardW, boardH, size);
      KeptOrBoxedChain(pos[..], before, old(pos[..]), boardW, boardH, size);
      IsolatedKeptChain(pos[..], before, old(pos[..]), size);
      RecordedChain(before, old(pos[..]), size, unresolved);
      NoNewCollisionsChain(pos[..], before, old(pos[..]), size);
      passes := passes + 1;
      if moved == 0 {
        settled := true;
        break;
      }
      pass := pass + 1;
    }
  }

  lemma KeptOrBoxedChain(ps: seq<Pos>, mid: seq<Pos>, ps0: seq<Pos>, boardW: real, boardH: real, size: real)
    requires |ps| == |mid| == |ps0|
    requires KeptOrBoxed(mid, ps0, boardW, boardH, size)
    requires KeptOrBoxed(ps, mid, boardW, boardH, size)
    ensures KeptOrBoxed(ps, ps0, boardW, boardH, size)
  {
    forall k | 0 <= k < |ps| ensures ps[k] == ps0[k] || InBox(ps[k], boardW, boardH, size) {
      assert ps[k] == mid[k] || InBox(ps[k], boardW, boardH, size);
    }
  }

  /** The geometry of `renderBoard` (lines 256-291): clamp the tile size, drop every
      tile at a random spot in the padded board, then run `resolveOverlaps`. Every
      tile ends inside the padded board. */
  method RenderLayout(count: nat, boardW: real, boardH: real, approx: int)
    returns (pos: array<Pos>, size: int)
    ensures fresh(pos) && pos.Length == count
    ensures size == TileSize(approx)
    ensures forall k :: 0 <= k < count ==> InBox(pos[k], boardW, boardH, size as real)
  {
    size := TileSize(approx);
    var s := size as real;
    var maxX := MaxCoord(boardW, s);
    var maxY := MaxCoord(boardH, s);
    pos := new Pos[count](_ => Pos(PAD, PAD));
    var idx := 0;
    while idx < count
      invariant 0 <= idx <= count
      invariant forall k :: 0 <= k < idx ==> InBox(pos[k], boardW, boardH, s)
    {
      var u :| 0.0 <= u < 1.0;  // Math.random()
      var v :| 0.0 <= v < 1.0;  // Math.random()
      pos[idx] := Pos(Scaled(u, maxX), Scaled(v, maxY));
      idx := idx + 1;
    }
    ghost var placed := pos[..];
    assert forall k :: 0 <= k < count ==> InBox(placed[k], boardW, boardH, s);
    ghost var passes, settled, unresolved;
    passes, settled, unresolved := ResolveOverlaps(pos, boardW, boardH, s);
    forall k | 0 <= k < count ensures InBox(pos[k], boardW, boardH, s) {
      assert pos[..][k] == pos[k];
    }
  }
}
