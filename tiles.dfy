/** The tile buffer of the simulation: a row-major vector of tiles over a
    rectangular region of the ground cross-section, with the coordinate
    translation and the read-only queries the flow engine makes of it. */
module Tiles {

  /** One cell of the cross-section. Water marks every tile that flow has
      reached; still and flowing water are not told apart here. */
  datatype Tile = Clay | Sand | Water

  /** The rectangle [minX, minX + width) x [minY, maxY]. */
  datatype Region = Region(minX: nat, width: nat, minY: nat, maxY: nat)
  {
    predicate WellFormed() { width > 0 && minY <= maxY }

    function Height(): nat
      requires minY <= maxY
    {
      maxY - minY + 1
    }

    /** Number of tiles in the region. */
    function Size(): nat
      requires minY <= maxY
    {
      width * Height()
    }

    /** The rightmost column, `min_x + width - 1`. */
    function MaxX(): nat
      requires width > 0
    {
      minX + width - 1
    }

    predicate Contains(x: nat, y: nat) {
      minX <= x < minX + width && minY <= y <= maxY
    }
  }

  /** A region together with its tiles, stored row after row. */
  datatype Grid = Grid(region: Region, tiles: seq<Tile>)

  /** The buffer holds exactly one tile per coordinate of the region. */
  predicate Shaped(g: Grid) {
    g.region.WellFormed() && |g.tiles| == g.region.Size()
  }

  lemma MulMonotone(a: nat, b: nat, w: nat)
    requires a <= b
    ensures a * w <= b * w
  {
    var d := b - a;
    assert b * w == a * w + d * w;
  }

  lemma DivModUnique(a: nat, w: nat, q: nat, m: nat)
    requires 0 <= m < w && a == q * w + m
    ensures a / w == q && a % w == m
  {
    var q', m' := a / w, a % w;
    assert a == q' * w + m';
    if q' > q {
      MulMonotone(q + 1, q', w);
    } else if q' < q {
      MulMonotone(q' + 1, q, w);
    }
  }

  lemma RowMajor(row: nat, col: nat, w: nat, h: nat)
    requires row < h && col < w
    ensures row * w + col < w * h
    ensures (row * w + col) / w == row && (row * w + col) % w == col
  {
    MulMonotone(row + 1, h, w);
    assert (row + 1) * w == row * w + w;
    DivModUnique(row * w + col, w, row, col);
  }

  /** `get_index`: the position of (x, y) in the row-major buffer, below
      the buffer length. */
  function Index(r: Region, x: nat, y: nat): (i: nat)
    requires r.WellFormed() && r.Contains(x, y)
    ensures i < r.Size()
  {
    RowMajor(y - r.minY, x - r.minX, r.width, r.Height());
    (y - r.minY) * r.width + (x - r.minX)
  }

  /** An index decodes back to its coordinates: its row is the quotient and
      its column the remainder by the width. */
  lemma IndexDecodes(r: Region, x: nat, y: nat)
    requires r.WellFormed() && r.Contains(x, y)
    ensures Index(r, x, y) / r.width == y - r.minY && Index(r, x, y) % r.width == x - r.minX
  {
    RowMajor(y - r.minY, x - r.minX, r.width, r.Height());
  }

  /** Every buffer position is the index of some coordinate of the region. */
  lemma IndexOnto(r: Region, i: nat) returns (x: nat, y: nat)
    requires r.WellFormed() && i < r.Size()
    ensures r.Contains(x, y) && Index(r, x, y) == i
  {
    var q, m := i / r.width, i % r.width;
    assert i == q * r.width + m;
    if q >= r.Height() {
      MulMonotone(r.Height(), q, r.width);
    }
    x, y := r.minX + m, r.minY + q;
  }

  /** `get_index` is injective on the region: distinct coordinates never
      share a tile. */
  lemma IndexInjective(r: Region, x: nat, y: nat, x': nat, y': nat)
    requires r.WellFormed() && r.Contains(x, y) && r.Contains(x', y')
    requires Index(r, x, y) == Index(r, x', y')
    ensures x == x' && y == y'
  {
    IndexDecodes(r, x, y);
    IndexDecodes(r, x', y');
  }

  /** `get` */
  function Get(g: Grid, x: nat, y: nat): Tile
    requires Shaped(g) && g.region.Contains(x, y)
  {
    g.tiles[Index(g.region, x, y)]
  }

  /** `set`: exactly the tile at (x, y) changes. Storing Water over a tile
      that is not Clay only lets the water grow. */
  function Set(g: Grid, x: nat, y: nat, t: Tile): (g': Grid)
    requires Shaped(g) && g.region.Contains(x, y)
    ensures Shaped(g') && g'.region == g.region
    ensures Get(g', x, y) == t
    ensures forall a: nat, b: nat {:trigger Get(g', a, b)} :: g.region.Contains(a, b) && (a != x || b != y) ==> Get(g', a, b) == Get(g, a, b)
    ensures t == Water && Get(g, x, y) != Clay ==> Grows(g, g')
  {
    var g' := g.(tiles := g.tiles[Index(g.region, x, y) := t]);
    forall a, b | g.region.Contains(a, b) && (a != x || b != y)
      ensures Get(g', a, b) == Get(g, a, b)
    {
      if Index(g.region, a, b) == Index(g.region, x, y) {
        IndexInjective(g.region, a, b, x, y);
      }
    }
    g'
  }

  /** g' arises from g by turning Sand tiles into Water and nothing else:
      the region is the same, clay stays exactly where it was, and water
      never goes away (so no tile ever becomes Sand). */
  predicate Grows(g: Grid, g': Grid) {
    g'.region == g.region && |g'.tiles| == |g.tiles| &&
    forall i :: 0 <= i < |g.tiles| ==>
      (g.tiles[i] == Clay <==> g'.tiles[i] == Clay) &&
      (g.tiles[i] == Water ==> g'.tiles[i] == Water)
  }

  /** Clay lies only in interior columns: the leftmost and rightmost column of
      the region are free of it, so every clay tile has a neighbour column on
      each side inside the region. */
  predicate MarginsClear(g: Grid)
    requires Shaped(g)
  {
    forall a: nat, b: nat {:trigger Get(g, a, b)} ::
      (g.region.minX <= a < g.region.minX + g.region.width && g.region.minY <= b <= g.region.maxY &&
       Get(g, a, b) == Clay) ==> g.region.minX < a < g.region.MaxX()
  }

  lemma GrowsTransitive(g: Grid, g': Grid, g'': Grid)
    requires Grows(g, g') && Grows(g', g'')
    ensures Grows(g, g'')
  {
  }

  /** Growth keeps clay out of the margin columns. */
  lemma GrowsKeepsMargins(g: Grid, g': Grid)
    requires Shaped(g) && MarginsClear(g) && Grows(g, g')
    ensures Shaped(g') && MarginsClear(g')
  {
    forall a: nat, b: nat | g.region.Contains(a, b) && Get(g', a, b) == Clay
      ensures g.region.minX < a < g.region.MaxX()
    {
      assert g.tiles[Index(g.region, a, b)] == Clay;
      assert Get(g, a, b) == Clay;
    }
  }

  /** Number of Water tiles, counted front to back as `count_water` does. */
  function WaterCount(s: seq<Tile>): (n: nat)
    ensures n <= |s|
  {
    if s == [] then 0
    else WaterCount(s[..|s| - 1]) + (if s[|s| - 1] == Water then 1 else 0)
  }

  /** The count is the multiplicity of Water in the buffer. */
  lemma {:induction false} WaterCountIsMultiplicity(s: seq<Tile>)
    ensures WaterCount(s) == multiset(s)[Water]
  {
    if s != [] {
      var n := |s| - 1;
      assert s == s[..n] + [s[n]];
      WaterCountIsMultiplicity(s[..n]);
    }
  }

  /** Where every Water tile of s is Water in t, t holds at least as much water. */
  lemma {:induction false} WaterCountMonotone(s: seq<Tile>, t: seq<Tile>)
    requires |s| == |t|
    requires forall i :: 0 <= i < |s| && s[i] == Water ==> t[i] == Water
    ensures WaterCount(s) <= WaterCount(t)
  {
    if s != [] {
      var n := |s| - 1;
      WaterCountMonotone(s[..n], t[..n]);
    }
  }

  /** Growth never lowers the water count. */
  lemma GrowsWaterCount(g: Grid, g': Grid)
    requires Grows(g, g')
    ensures WaterCount(g.tiles) <= WaterCount(g'.tiles)
  {
    WaterCountMonotone(g.tiles, g'.tiles);
  }

  /** Scanning left from (x, y) across Water tiles ends on a Sand tile: the
      row leaks to the left. */
  ghost predicate OpenLeft(g: Grid, x: nat, y: nat)
    requires Shaped(g) && g.region.Contains(x, y)
  {
    exists l :: g.region.minX <= l <= x && Get(g, l, y) == Sand &&
      forall k :: l < k <= x ==> Get(g, k, y) == Water
  }

  /** Scanning right from (x, y) across Water tiles ends on a Sand tile. */
  ghost predicate OpenRight(g: Grid, x: nat, y: nat)
    requires Shaped(g) && g.region.Contains(x, y)
  {
    exists r :: x <= r <= g.region.MaxX() && Get(g, r, y) == Sand &&
      forall k :: x <= k < r ==> Get(g, k, y) == Water
  }

  /** The row through (x, y) is a full waterline: on neither side does the run
      of Water from x end on Sand (it ends on Clay, or stays Water up to the
      region's edge). */
  ghost predicate FullWaterline(g: Grid, x: nat, y: nat)
    requires Shaped(g) && g.region.Contains(x, y)
  {
    !OpenLeft(g, x, y) && !OpenRight(g, x, y)
  }
}
