/** The flow and backtrack state machines as functions on the whole
    simulation state: what one call of `tick_flow`, `tick_backtrack` and
    `tick` does to the tiles and to the two worklists. */
module Steps {
  import opened Tiles

  /** A coordinate (x, y); y grows downwards. */
  type Coord = (nat, nat)

  /** The simulation state: the grid, the flow frontier `queue` (first in,
      first out) and the `backtrack` stack (pushed and popped at its end). */
  datatype World = World(grid: Grid, queue: seq<Coord>, backtrack: seq<Coord>)

  /** The invariant every step keeps: the buffer matches the region, clay
      stays out of the margin columns, every frontier entry lies in the
      region, and every backtrack entry lies in the region above its bottom
      row (only a fall pushes one, from a row above the bottom). */
  predicate Valid(w: World) {
    Shaped(w.grid) && MarginsClear(w.grid) &&
    (forall c :: c in w.queue ==> w.grid.region.Contains(c.0, c.1)) &&
    (forall c :: c in w.backtrack ==> w.grid.region.Contains(c.0, c.1) && c.1 < w.grid.region.maxY)
  }

  /** A clay tile is never in the first or last column. */
  lemma ClayIsInterior(g: Grid, x: nat, y: nat)
    requires Shaped(g) && MarginsClear(g) && g.region.Contains(x, y)
    requires Get(g, x, y) == Clay
    ensures g.region.minX < x < g.region.MaxX()
  {
  }

  /** Dropping the front of the frontier keeps the invariant. */
  lemma PopFrontKeeps(w: World)
    requires Valid(w) && w.queue != []
    ensures Valid(w.(queue := w.queue[1..]))
  {
    forall c | c in w.queue[1..] ensures c in w.queue {
      var i :| 0 <= i < |w.queue[1..]| && w.queue[1..][i] == c;
      assert w.queue[i + 1] == c;
    }
  }

  /** Dropping the top of the backtrack stack keeps the invariant. */
  lemma PopBackKeeps(w: World)
    requires Valid(w) && w.backtrack != []
    ensures Valid(w.(backtrack := w.backtrack[..|w.backtrack| - 1]))
  {
    var n := |w.backtrack| - 1;
    forall c | c in w.backtrack[..n] ensures c in w.backtrack {
      var i :| 0 <= i < n && w.backtrack[..n][i] == c;
      assert w.backtrack[i] == c;
    }
  }

  /** Storing Water over a tile that is not Clay keeps the invariant and
      only adds water, whether or not the position is also queued. */
  lemma WaterKeeps(w: World, x: nat, y: nat)
    requires Valid(w) && w.grid.region.Contains(x, y) && Get(w.grid, x, y) != Clay
    ensures var g' := Set(w.grid, x, y, Water);
      Grows(w.grid, g') && Valid(w.(grid := g')) && Valid(w.(grid := g', queue := w.queue + [(x, y)]))
  {
    GrowsKeepsMargins(w.grid, Set(w.grid, x, y, Water));
  }

  /** `tick_flow`: pop the front of the frontier; fall into the tile below
      when it is Sand or Water, otherwise (Clay below) spread into the Sand
      neighbours on the left and then the right. A position on or past the
      bottom row just drains. */
  function FlowStep(w: World): (w': World)
    requires Valid(w) && w.queue != []
    ensures Valid(w') && Grows(w.grid, w'.grid)
    ensures w'.backtrack == w.backtrack || w'.backtrack == w.backtrack + [w.queue[0]]
    ensures |w.queue| - 1 <= |w'.queue| <= |w.queue| + 1 && w'.queue[..|w.queue| - 1] == w.queue[1..]
  {
    var (x, y) := w.queue[0];
    var popped := w.(queue := w.queue[1..]);
    if y > w.grid.region.maxY then popped
    else if y < w.grid.region.maxY then
      if Get(w.grid, x, y + 1) != Clay then Fall(popped, x, y)
      else Spread(popped, x, y)
    else popped
  }

  /** Which of the three outcomes a flow step takes, by the popped position. */
  lemma FlowStepCases(w: World, x: nat, y: nat)
    requires Valid(w) && w.queue != [] && w.queue[0] == (x, y)
    ensures y >= w.grid.region.maxY ==> FlowStep(w) == w.(queue := w.queue[1..])
    ensures y < w.grid.region.maxY && Get(w.grid, x, y + 1) != Clay ==>
              FlowStep(w) == Fall(w.(queue := w.queue[1..]), x, y)
    ensures y < w.grid.region.maxY && Get(w.grid, x, y + 1) == Clay ==>
              FlowStep(w) == Spread(w.(queue := w.queue[1..]), x, y)
  {
    PopFrontKeeps(w);
    var popped := w.(queue := w.queue[1..]);
    if y >= w.grid.region.maxY {
      assert FlowStep(w) == popped;
    } else if Get(w.grid, x, y + 1) != Clay {
      assert FlowStep(w) == Fall(popped, x, y);
    } else {
      assert FlowStep(w) == Spread(popped, x, y);
    }
  }

  /** Falling from (x, y): the tile below becomes Water and joins the back of
      the frontier, and (x, y) is pushed on the backtrack stack. */
  function Fall(w: World, x: nat, y: nat): (w': World)
    requires Valid(w) && w.grid.region.Contains(x, y) && y < w.grid.region.maxY
    requires Get(w.grid, x, y + 1) != Clay
    ensures Valid(w') && Grows(w.grid, w'.grid) && w'.backtrack == w.backtrack + [(x, y)]
    ensures w'.queue == w.queue + [(x, y + 1)]
  {
    World(Set(w.grid, x, y + 1, Water), w.queue + [(x, y + 1)], w.backtrack + [(x, y)])
  }

  /** Spreading over the Clay below (x, y): into the left neighbour, then
      into the right one. */
  function Spread(w: World, x: nat, y: nat): (w': World)
    requires Valid(w) && w.grid.region.Contains(x, y) && y < w.grid.region.maxY
    requires Get(w.grid, x, y + 1) == Clay
    ensures Valid(w') && Grows(w.grid, w'.grid) && w'.backtrack == w.backtrack
    ensures |w.queue| <= |w'.queue| <= |w.queue| + 2 && w'.queue[..|w.queue|] == w.queue
  {
    ClayIsInterior(w.grid, x, y + 1);
    var afterLeft := SpreadInto(w, x - 1, y);
    var w' := SpreadInto(afterLeft, x + 1, y);
    assert w'.queue[..|w.queue|] == w.queue by {
      assert w'.queue[..|afterLeft.queue|] == afterLeft.queue;
    }
    w'
  }

  /** Spreading is the sideways step to the left, then to the right. */
  lemma SpreadSteps(w: World, x: nat, y: nat, left: nat, right: nat)
    requires Valid(w) && w.grid.region.Contains(x, y) && y < w.grid.region.maxY
    requires Get(w.grid, x, y + 1) == Clay
    requires 0 < x && left == x - 1 && right == x + 1
    ensures w.grid.region.Contains(left, y) && w.grid.region.Contains(right, y)
    ensures Spread(w, x, y) == SpreadInto(SpreadInto(w, left, y), right, y)
  {
    ClayIsInterior(w.grid, x, y + 1);
  }

  /** Water spreading sideways into (x, y): a Sand tile there becomes Water
      and joins the back of the frontier; any other tile stops it. */
  function SpreadInto(w: World, x: nat, y: nat): (w': World)
    requires Valid(w) && w.grid.region.Contains(x, y)
    ensures Valid(w') && Grows(w.grid, w'.grid) && w'.backtrack == w.backtrack
    ensures |w.queue| <= |w'.queue| <= |w.queue| + 1 && w'.queue[..|w.queue|] == w.queue
  {
    if Get(w.grid, x, y) == Sand
    then w.(grid := Set(w.grid, x, y, Water), queue := w.queue + [(x, y)])
    else w
  }

  /** The front of the frontier lies in the region, so the `y > max_y`
      test of `tick_flow` never fires and only the bottom row drains. */
  lemma FrontInRegion(w: World)
    requires Valid(w) && w.queue != []
    ensures w.grid.region.Contains(w.queue[0].0, w.queue[0].1)
    ensures w.queue[0].1 <= w.grid.region.maxY
  {
    assert w.queue[0] in w.queue;
  }

  /** The top of the backtrack stack lies in the region above its bottom
      row, so the `y >= max_y` part of the boundary test never fires. */
  lemma TopAboveBottom(w: World)
    requires Valid(w) && w.backtrack != []
    ensures var (x, y) := w.backtrack[|w.backtrack| - 1];
      w.grid.region.Contains(x, y) && y < w.grid.region.maxY
  {
    assert w.backtrack[|w.backtrack| - 1] in w.backtrack;
  }

  /** At or below the bottom row, the popped position drains: nothing but
      the frontier changes. */
  lemma FlowStepDrains(w: World)
    requires Valid(w) && w.queue != [] && w.queue[0].1 >= w.grid.region.maxY
    ensures FlowStep(w) == w.(queue := w.queue[1..])
  {
  }

  /** Falling: the tile below becomes Water, every other tile is unchanged,
      the tile below joins the back of the frontier and the popped position
      is pushed on the backtrack stack. */
  lemma FlowStepFalls(w: World)
    requires Valid(w) && w.queue != []
    requires w.queue[0].1 < w.grid.region.maxY
    requires Get(w.grid, w.queue[0].0, w.queue[0].1 + 1) != Clay
    ensures var (x, y) := w.queue[0];
      var w' := FlowStep(w);
      Get(w'.grid, x, y + 1) == Water &&
      (forall a: nat, b: nat {:trigger Get(w'.grid, a, b)} :: w.grid.region.Contains(a, b) && (a, b) != (x, y + 1) ==>
         Get(w'.grid, a, b) == Get(w.grid, a, b)) &&
      w'.queue == w.queue[1..] + [(x, y + 1)] &&
      w'.backtrack == w.backtrack + [(x, y)]
  {
    var (x, y) := w.queue[0];
    FlowStepCases(w, x, y);
  }

  /** Spreading over clay: each Sand neighbour, left then right, becomes
      Water and joins the frontier in that order; no other tile changes and
      the backtrack stack is untouched. */
  lemma FlowStepSpreads(w: World)
    requires Valid(w) && w.queue != []
    requires w.queue[0].1 < w.grid.region.maxY
    requires Get(w.grid, w.queue[0].0, w.queue[0].1 + 1) == Clay
    ensures var (x, y) := w.queue[0];
      var w' := FlowStep(w);
      w.grid.region.minX < x < w.grid.region.MaxX() &&
      var leftOpen := Get(w.grid, x - 1, y) == Sand;
      var rightOpen := Get(w.grid, x + 1, y) == Sand;
      Get(w'.grid, x - 1, y) == (if leftOpen then Water else Get(w.grid, x - 1, y)) &&
      Get(w'.grid, x + 1, y) == (if rightOpen then Water else Get(w.grid, x + 1, y)) &&
      (forall a: nat, b: nat {:trigger Get(w'.grid, a, b)} :: w.grid.region.Contains(a, b) && (a, b) != (x - 1, y) && (a, b) != (x + 1, y) ==>
         Get(w'.grid, a, b) == Get(w.grid, a, b)) &&
      w'.queue == w.queue[1..] + (if leftOpen then [(x - 1, y)] else []) + (if rightOpen then [(x + 1, y)] else []) &&
      w'.backtrack == w.backtrack
  {
    var (x, y) := w.queue[0];
    FlowStepCases(w, x, y);
    PopFrontKeeps(w);
    var popped := w.(queue := w.queue[1..]);
    SpreadEffect(popped, x, y);
    assert FlowStep(w) == Spread(popped, x, y);
  }

  /** Spreading from (x, y) over the Clay below, tile by tile. */
  lemma SpreadEffect(w: World, x: nat, y: nat)
    requires Valid(w) && w.grid.region.Contains(x, y) && y < w.grid.region.maxY
    requires Get(w.grid, x, y + 1) == Clay
    ensures w.grid.region.minX < x < w.grid.region.MaxX()
    ensures var w' := Spread(w, x, y);
      var leftOpen := Get(w.grid, x - 1, y) == Sand;
      var rightOpen := Get(w.grid, x + 1, y) == Sand;
      Get(w'.grid, x - 1, y) == (if leftOpen then Water else Get(w.grid, x - 1, y)) &&
      Get(w'.grid, x + 1, y) == (if rightOpen then Water else Get(w.grid, x + 1, y)) &&
      (forall a: nat, b: nat {:trigger Get(w'.grid, a, b)} :: w.grid.region.Contains(a, b) && (a, b) != (x - 1, y) && (a, b) != (x + 1, y) ==>
         Get(w'.grid, a, b) == Get(w.grid, a, b)) &&
      w'.queue == w.queue + (if leftOpen then [(x - 1, y)] else []) + (if rightOpen then [(x + 1, y)] else []) &&
      w'.backtrack == w.backtrack
  {
    ClayIsInterior(w.grid, x, y + 1);
    var left, right := x - 1, x + 1;
    SpreadSteps(w, x, y, left, right);
    SpreadIntoEffect(w, left, y);
    SpreadIntoEffect(SpreadInto(w, left, y), right, y);
  }

  /** What one sideways step does: Water and a frontier entry at (x, y)
      exactly when the tile there is Sand, and nothing else. */
  lemma SpreadIntoEffect(w: World, x: nat, y: nat)
    requires Valid(w) && w.grid.region.Contains(x, y)
    ensures var w' := SpreadInto(w, x, y);
      var open := Get(w.grid, x, y) == Sand;
      Get(w'.grid, x, y) == (if open then Water else Get(w.grid, x, y)) &&
      (forall a: nat, b: nat {:trigger Get(w'.grid, a, b)} :: w.grid.region.Contains(a, b) && (a, b) != (x, y) ==>
         Get(w'.grid, a, b) == Get(w.grid, a, b)) &&
      w'.queue == w.queue + (if open then [(x, y)] else []) &&
      w'.backtrack == w.backtrack
  {
  }

  /** The leftward sweep of `tick_backtrack` on row y, from column `left`:
      while neither the tile nor the one below it is Clay and the left edge
      is not reached, store Water and step left; then, unless the tile
      reached is Clay, store Water there and queue it. */
  function SweepLeft(w: World, left: nat, y: nat): (w': World)
    requires Valid(w) && w.grid.region.Contains(left, y) && y < w.grid.region.maxY
    ensures Shaped(w'.grid) && w'.grid.region == w.grid.region
    decreases left
  {
    if Get(w.grid, left, y + 1) != Clay && Get(w.grid, left, y) != Clay && left > w.grid.region.minX then
      SweepLeft(w.(grid := Set(w.grid, left, y, Water)), left - 1, y)
    else if Get(w.grid, left, y) != Clay then
      w.(grid := Set(w.grid, left, y, Water), queue := w.queue + [(left, y)])
    else
      w
  }

  /** The leftward sweep keeps the invariant and only adds water. */
  lemma {:induction false} SweepLeftKeeps(w: World, left: nat, y: nat)
    requires Valid(w) && w.grid.region.Contains(left, y) && y < w.grid.region.maxY
    ensures Valid(SweepLeft(w, left, y)) && Grows(w.grid, SweepLeft(w, left, y).grid)
    ensures SweepLeft(w, left, y).backtrack == w.backtrack
    decreases left
  {
    if Get(w.grid, left, y + 1) != Clay && Get(w.grid, left, y) != Clay && left > w.grid.region.minX {
      var next := left - 1;
      SweepLeftMoves(w, left, y, next);
      WaterKeeps(w, left, y);
      var w1 := w.(grid := Set(w.grid, left, y, Water));
      SweepLeftKeeps(w1, next, y);
      GrowsTransitive(w.grid, w1.grid, SweepLeft(w1, next, y).grid);
    } else {
      SweepLeftStops(w, left, y);
      if Get(w.grid, left, y) != Clay {
        WaterKeeps(w, left, y);
      }
    }
  }

  /** Only row y at columns up to `left` changes. */
  lemma {:induction false} SweepLeftFrame(w: World, left: nat, y: nat)
    requires Valid(w) && w.grid.region.Contains(left, y) && y < w.grid.region.maxY
    ensures forall a: nat, b: nat {:trigger Get(SweepLeft(w, left, y).grid, a, b)} ::
              w.grid.region.Contains(a, b) && (b != y || a > left) ==>
              Get(SweepLeft(w, left, y).grid, a, b) == Get(w.grid, a, b)
    decreases left
  {
    if Get(w.grid, left, y + 1) != Clay && Get(w.grid, left, y) != Clay && left > w.grid.region.minX {
      var next := left - 1;
      SweepLeftMoves(w, left, y, next);
      var w1 := w.(grid := Set(w.grid, left, y, Water));
      SweepLeftFrame(w1, next, y);
    } else {
      SweepLeftStops(w, left, y);
    }
  }

  /** At most one coordinate of row y, at or left of `left`, is appended to
      the frontier. */
  lemma {:induction false} SweepLeftQueue(w: World, left: nat, y: nat)
    requires Valid(w) && w.grid.region.Contains(left, y) && y < w.grid.region.maxY
    ensures var q := SweepLeft(w, left, y).queue;
      |w.queue| <= |q| <= |w.queue| + 1 && q[..|w.queue|] == w.queue &&
      forall i :: |w.queue| <= i < |q| ==> q[i].1 == y && q[i].0 <= left
    decreases left
  {
    if Get(w.grid, left, y + 1) != Clay && Get(w.grid, left, y) != Clay && left > w.grid.region.minX {
      var next := left - 1;
      SweepLeftMoves(w, left, y, next);
      var w1 := w.(grid := Set(w.grid, left, y, Water));
      SweepLeftQueue(w1, next, y);
    } else {
      SweepLeftStops(w, left, y);
    }
  }

  /** The rightward sweep, the mirror image of SweepLeft. */
  function SweepRight(w: World, right: nat, y: nat): (w': World)
    requires Valid(w) && w.grid.region.Contains(right, y) && y < w.grid.region.maxY
    ensures Shaped(w'.grid) && w'.grid.region == w.grid.region
    decreases w.grid.region.MaxX() - right
  {
    if Get(w.grid, right, y + 1) != Clay && Get(w.grid, right, y) != Clay && right < w.grid.region.MaxX() then
      SweepRight(w.(grid := Set(w.grid, right, y, Water)), right + 1, y)
    else if Get(w.grid, right, y) != Clay then
      w.(grid := Set(w.grid, right, y, Water), queue := w.queue + [(right, y)])
    else
      w
  }

  /** The rightward sweep keeps the invariant and only adds water. */
  lemma {:induction false} SweepRightKeeps(w: World, right: nat, y: nat)
    requires Valid(w) && w.grid.region.Contains(right, y) && y < w.grid.region.maxY
    ensures Valid(SweepRight(w, right, y)) && Grows(w.grid, SweepRight(w, right, y).grid)
    ensures SweepRight(w, right, y).backtrack == w.backtrack
    decreases w.grid.region.MaxX() - right
  {
    if Get(w.grid, right, y + 1) != Clay && Get(w.grid, right, y) != Clay && right < w.grid.region.MaxX() {
      var next := right + 1;
      SweepRightMoves(w, right, y, next);
      WaterKeeps(w, right, y);
      var w1 := w.(grid := Set(w.grid, right, y, Water));
      SweepRightKeeps(w1, next, y);
      GrowsTransitive(w.grid, w1.grid, SweepRight(w1, next, y).grid);
    } else {
      SweepRightStops(w, right, y);
      if Get(w.grid, right, y) != Clay {
        WaterKeeps(w, right, y);
      }
    }
  }

  /** Only row y at columns from `right` on changes. */
  lemma {:induction false} SweepRightFrame(w: World, right: nat, y: nat)
    requires Valid(w) && w.grid.region.Contains(right, y) && y < w.grid.region.maxY
    ensures forall a: nat, b: nat {:trigger Get(SweepRight(w, right, y).grid, a, b)} ::
              w.grid.region.Contains(a, b) && (b != y || a < right) ==>
              Get(SweepRight(w, right, y).grid, a, b) == Get(w.grid, a, b)
    decreases w.grid.region.MaxX() - right
  {
    if Get(w.grid, right, y + 1) != Clay && Get(w.grid, right, y) != Clay && right < w.grid.region.MaxX() {
      var next := right + 1;
      SweepRightMoves(w, right, y, next);
      var w1 := w.(grid := Set(w.grid, right, y, Water));
      SweepRightFrame(w1, next, y);
    } else {
      SweepRightStops(w, right, y);
    }
  }

  /** At most one coordinate of row y, at or right of `right`, is appended
      to the frontier. */
  lemma {:induction false} SweepRightQueue(w: World, right: nat, y: nat)
    requires Valid(w) && w.grid.region.Contains(right, y) && y < w.grid.region.maxY
    ensures var q := SweepRight(w, right, y).queue;
      |w.queue| <= |q| <= |w.queue| + 1 && q[..|w.queue|] == w.queue &&
      forall i :: |w.queue| <= i < |q| ==> q[i].1 == y && q[i].0 >= right
    decreases w.grid.region.MaxX() - right
  {
    if Get(w.grid, right, y + 1) != Clay && Get(w.grid, right, y) != Clay && right < w.grid.region.MaxX() {
      var next := right + 1;
      SweepRightMoves(w, right, y, next);
      var w1 := w.(grid := Set(w.grid, right, y, Water));
      SweepRightQueue(w1, next, y);
    } else {
      SweepRightStops(w, right, y);
    }
  }

  /** A sweep along row y passes column k: neither the tile nor the one
      below it is Clay. */
  predicate Passes(g: Grid, k: nat, y: nat)
    requires Shaped(g) && g.region.Contains(k, y) && y < g.region.maxY
  {
    Get(g, k, y + 1) != Clay && Get(g, k, y) != Clay
  }

  /** Row y lets the leftward sweep pass every column in (l, left]. */
  ghost predicate LeftRun(g: Grid, l: nat, left: nat, y: nat)
    requires Shaped(g) && g.region.Contains(left, y) && y < g.region.maxY
  {
    forall k :: l < k <= left && g.region.minX <= k ==> Passes(g, k, y)
  }

  /** Row y lets the rightward sweep pass every column in [right, r). */
  ghost predicate RightRun(g: Grid, right: nat, r: nat, y: nat)
    requires Shaped(g) && g.region.Contains(right, y) && y < g.region.maxY
  {
    forall k :: right <= k < r && k <= g.region.MaxX() ==> Passes(g, k, y)
  }

  /** A sweep along row y stops at column c: it does not pass c, or c is
      the column `edge` of the region. */
  predicate StopsAt(g: Grid, c: nat, y: nat, edge: nat)
    requires Shaped(g) && g.region.Contains(c, y) && y < g.region.maxY
  {
    !Passes(g, c, y) || c == edge
  }

  /** The stop column of the leftward sweep from `left`: the nearest column
      at or left of `left` where it stops. */
  lemma {:induction false} LeftStop(g: Grid, left: nat, y: nat) returns (l: nat)
    requires Shaped(g) && g.region.Contains(left, y) && y < g.region.maxY
    ensures g.region.minX <= l <= left && LeftRun(g, l, left, y) && StopsAt(g, l, y, g.region.minX)
    decreases left
  {
    if Get(g, left, y + 1) != Clay && Get(g, left, y) != Clay && left > g.region.minX {
      var next := left - 1;
      l := LeftStop(g, next, y);
      forall k | l < k <= left && g.region.minX <= k
        ensures Passes(g, k, y)
      {
        if k != left {
          assert l < k <= next;
        }
      }
    } else {
      l := left;
    }
  }

  /** The stop column of the rightward sweep from `right`. */
  lemma {:induction false} RightStop(g: Grid, right: nat, y: nat) returns (r: nat)
    requires Shaped(g) && g.region.Contains(right, y) && y < g.region.maxY
    ensures right <= r <= g.region.MaxX() && RightRun(g, right, r, y) && StopsAt(g, r, y, g.region.MaxX())
    decreases g.region.MaxX() - right
  {
    if Get(g, right, y + 1) != Clay && Get(g, right, y) != Clay && right < g.region.MaxX() {
      var next := right + 1;
      r := RightStop(g, next, y);
      forall k | right <= k < r && k <= g.region.MaxX()
        ensures Passes(g, k, y)
      {
        if k != right {
          assert next <= k < r;
        }
      }
    } else {
      r := right;
    }
  }

  /** After one iteration of the leftward sweep the stop column is the same:
      the run and the stop test only read columns left of the tile stored. */
  lemma LeftRunMoves(w: World, left: nat, y: nat, l: nat, next: nat)
    requires Valid(w) && w.grid.region.Contains(left, y) && y < w.grid.region.maxY
    requires w.grid.region.minX <= l <= left && LeftRun(w.grid, l, left, y) && StopsAt(w.grid, l, y, w.grid.region.minX)
    requires Get(w.grid, left, y + 1) != Clay && Get(w.grid, left, y) != Clay && left > w.grid.region.minX
    requires next == left - 1
    ensures var g1 := Set(w.grid, left, y, Water);
      w.grid.region.minX <= l <= next && g1.region.Contains(next, y) &&
      LeftRun(g1, l, next, y) && StopsAt(g1, l, y, w.grid.region.minX) && Get(g1, l, y) == Get(w.grid, l, y)
  {
    assert l != left;
    var g1 := Set(w.grid, left, y, Water);
    forall k | l < k <= next && w.grid.region.minX <= k
      ensures Passes(g1, k, y)
    {
      assert k != left && l < k <= left && Passes(w.grid, k, y);
      assert Get(g1, k, y + 1) == Get(w.grid, k, y + 1);
      assert Get(g1, k, y) == Get(w.grid, k, y);
    }
    assert Get(g1, l, y + 1) == Get(w.grid, l, y + 1);
    assert Get(g1, l, y) == Get(w.grid, l, y);
  }

  /** After one iteration of the rightward sweep the stop column is the same. */
  lemma RightRunMoves(w: World, right: nat, y: nat, r: nat, next: nat)
    requires Valid(w) && w.grid.region.Contains(right, y) && y < w.grid.region.maxY
    requires right <= r <= w.grid.region.MaxX() && RightRun(w.grid, right, r, y) && StopsAt(w.grid, r, y, w.grid.region.MaxX())
    requires Get(w.grid, right, y + 1) != Clay && Get(w.grid, right, y) != Clay && right < w.grid.region.MaxX()
    requires next == right + 1
    ensures var g1 := Set(w.grid, right, y, Water);
      next <= r <= w.grid.region.MaxX() && g1.region.Contains(next, y) &&
      RightRun(g1, next, r, y) && StopsAt(g1, r, y, w.grid.region.MaxX()) && Get(g1, r, y) == Get(w.grid, r, y)
  {
    assert r != right;
    var g1 := Set(w.grid, right, y, Water);
    forall k | next <= k < r && k <= w.grid.region.MaxX()
      ensures Passes(g1, k, y)
    {
      assert k != right && right <= k < r && Passes(w.grid, k, y);
      assert Get(g1, k, y + 1) == Get(w.grid, k, y + 1);
      assert Get(g1, k, y) == Get(w.grid, k, y);
    }
    assert Get(g1, r, y + 1) == Get(w.grid, r, y + 1);
    assert Get(g1, r, y) == Get(w.grid, r, y);
  }

  /** Where the leftward sweep does not take a step, `left` is its own stop
      column. */
  lemma LeftStopHere(w: World, left: nat, y: nat, l: nat)
    requires Valid(w) && w.grid.region.Contains(left, y) && y < w.grid.region.maxY
    requires w.grid.region.minX <= l <= left && LeftRun(w.grid, l, left, y) && StopsAt(w.grid, l, y, w.grid.region.minX)
    requires !(Get(w.grid, left, y + 1) != Clay && Get(w.grid, left, y) != Clay && left > w.grid.region.minX)
    ensures l == left
  {
    assert l < left ==> Passes(w.grid, left, y);
  }

  /** Where the rightward sweep does not take a step, `right` is its own
      stop column. */
  lemma RightStopHere(w: World, right: nat, y: nat, r: nat)
    requires Valid(w) && w.grid.region.Contains(right, y) && y < w.grid.region.maxY
    requires right <= r <= w.grid.region.MaxX() && RightRun(w.grid, right, r, y) && StopsAt(w.grid, r, y, w.grid.region.MaxX())
    requires !(Get(w.grid, right, y + 1) != Clay && Get(w.grid, right, y) != Clay && right < w.grid.region.MaxX())
    ensures r == right
  {
    assert right < r ==> Passes(w.grid, right, y);
  }

  /** The tile the leftward sweep with stop column l leaves at (a, y):
      Water on (l, left], Water at l unless it is Clay, the old tile
      elsewhere. */
  lemma {:induction false} SweepLeftTile(w: World, left: nat, y: nat, l: nat, a: nat)
    requires Valid(w) && w.grid.region.Contains(left, y) && y < w.grid.region.maxY
    requires w.grid.region.minX <= l <= left && LeftRun(w.grid, l, left, y) && StopsAt(w.grid, l, y, w.grid.region.minX)
    requires w.grid.region.Contains(a, y)
    ensures Get(SweepLeft(w, left, y).grid, a, y) ==
      if l < a <= left then Water
      else if a == l then (if Get(w.grid, l, y) == Clay then Clay else Water)
      else Get(w.grid, a, y)
    decreases left
  {
    if Get(w.grid, left, y + 1) != Clay && Get(w.grid, left, y) != Clay && left > w.grid.region.minX {
      var next := left - 1;
      SweepLeftMoves(w, left, y, next);
      LeftRunMoves(w, left, y, l, next);
      var w1 := w.(grid := Set(w.grid, left, y, Water));
      SweepLeftTile(w1, next, y, l, a);
      if a != left {
        assert Get(w1.grid, a, y) == Get(w.grid, a, y);
      }
    } else {
      LeftStopHere(w, left, y, l);
      SweepLeftStops(w, left, y);
    }
  }

  /** The leftward sweep with stop column l queues (l, y) exactly when it is
      not Clay, and nothing else. */
  lemma {:induction false} SweepLeftQueues(w: World, left: nat, y: nat, l: nat)
    requires Valid(w) && w.grid.region.Contains(left, y) && y < w.grid.region.maxY
    requires w.grid.region.minX <= l <= left && LeftRun(w.grid, l, left, y) && StopsAt(w.grid, l, y, w.grid.region.minX)
    ensures SweepLeft(w, left, y).queue == w.queue + (if Get(w.grid, l, y) == Clay then [] else [(l, y)])
    decreases left
  {
    if Get(w.grid, left, y + 1) != Clay && Get(w.grid, left, y) != Clay && left > w.grid.region.minX {
      var next := left - 1;
      SweepLeftMoves(w, left, y, next);
      LeftRunMoves(w, left, y, l, next);
      var w1 := w.(grid := Set(w.grid, left, y, Water));
      SweepLeftQueues(w1, next, y, l);
    } else {
      LeftStopHere(w, left, y, l);
      SweepLeftStops(w, left, y);
    }
  }

  /** The tile the rightward sweep with stop column r leaves at (a, y). */
  lemma {:induction false} SweepRightTile(w: World, right: nat, y: nat, r: nat, a: nat)
    requires Valid(w) && w.grid.region.Contains(right, y) && y < w.grid.region.maxY
    requires right <= r <= w.grid.region.MaxX() && RightRun(w.grid, right, r, y) && StopsAt(w.grid, r, y, w.grid.region.MaxX())
    requires w.grid.region.Contains(a, y)
    ensures Get(SweepRight(w, right, y).grid, a, y) ==
      if right <= a < r then Water
      else if a == r then (if Get(w.grid, r, y) == Clay then Clay else Water)
      else Get(w.grid, a, y)
    decreases w.grid.region.MaxX() - right
  {
    if Get(w.grid, right, y + 1) != Clay && Get(w.grid, right, y) != Clay && right < w.grid.region.MaxX() {
      var next := right + 1;
      SweepRightMoves(w, right, y, next);
      RightRunMoves(w, right, y, r, next);
      var w1 := w.(grid := Set(w.grid, right, y, Water));
      SweepRightTile(w1, next, y, r, a);
      if a != right {
        assert Get(w1.grid, a, y) == Get(w.grid, a, y);
      }
    } else {
      RightStopHere(w, right, y, r);
      SweepRightStops(w, right, y);
    }
  }

  /** The rightward sweep with stop column r queues (r, y) exactly when it
      is not Clay, and nothing else. */
  lemma {:induction false} SweepRightQueues(w: World, right: nat, y: nat, r: nat)
    requires Valid(w) && w.grid.region.Contains(right, y) && y < w.grid.region.maxY
    requires right <= r <= w.grid.region.MaxX() && RightRun(w.grid, right, r, y) && StopsAt(w.grid, r, y, w.grid.region.MaxX())
    ensures SweepRight(w, right, y).queue == w.queue + (if Get(w.grid, r, y) == Clay then [] else [(r, y)])
    decreases w.grid.region.MaxX() - right
  {
    if Get(w.grid, right, y + 1) != Clay && Get(w.grid, right, y) != Clay && right < w.grid.region.MaxX() {
      var next := right + 1;
      SweepRightMoves(w, right, y, next);
      RightRunMoves(w, right, y, r, next);
      var w1 := w.(grid := Set(w.grid, right, y, Water));
      SweepRightQueues(w1, next, y, r);
    } else {
      RightStopHere(w, right, y, r);
      SweepRightStops(w, right, y);
    }
  }

  /** What the leftward sweep from `left` does, stated on the grid it starts
      from. It stops at column l: every column of (l, left] passes (neither
      the tile nor the one below is Clay), and l itself does not pass or is
      the left edge. Row y becomes Water on (l, left]; (l, y) becomes Water
      and joins the frontier exactly when it is not Clay; no other tile and
      no other worklist entry changes. */
  lemma SweepLeftEffect(w: World, left: nat, y: nat) returns (l: nat)
    requires Valid(w) && w.grid.region.Contains(left, y) && y < w.grid.region.maxY
    ensures w.grid.region.minX <= l <= left
    ensures forall k :: l < k <= left ==> Passes(w.grid, k, y)
    ensures !Passes(w.grid, l, y) || l == w.grid.region.minX
    ensures var w' := SweepLeft(w, left, y);
      (forall a: nat {:trigger Get(w'.grid, a, y)} :: w.grid.region.minX <= a <= w.grid.region.MaxX() ==>
         Get(w'.grid, a, y) ==
           if l < a <= left then Water
           else if a == l then (if Get(w.grid, l, y) == Clay then Clay else Water)
           else Get(w.grid, a, y)) &&
      (forall a: nat, b: nat {:trigger Get(w'.grid, a, b)} :: w.grid.region.Contains(a, b) && b != y ==>
         Get(w'.grid, a, b) == Get(w.grid, a, b)) &&
      w'.queue == w.queue + (if Get(w.grid, l, y) == Clay then [] else [(l, y)]) &&
      w'.backtrack == w.backtrack
  {
    l := LeftStop(w.grid, left, y);
    var w' := SweepLeft(w, left, y);
    forall a: nat | w.grid.region.minX <= a <= w.grid.region.MaxX()
      ensures Get(w'.grid, a, y) ==
        if l < a <= left then Water
        else if a == l then (if Get(w.grid, l, y) == Clay then Clay else Water)
        else Get(w.grid, a, y)
    {
      SweepLeftTile(w, left, y, l, a);
    }
    SweepLeftFrame(w, left, y);
    SweepLeftQueues(w, left, y, l);
    SweepLeftKeeps(w, left, y);
  }

  /** What the rightward sweep from `right` does, the mirror image of
      SweepLeftEffect: it stops at column r, the nearest column at or right
      of `right` that does not pass, or the right edge. */
  lemma SweepRightEffect(w: World, right: nat, y: nat) returns (r: nat)
    requires Valid(w) && w.grid.region.Contains(right, y) && y < w.grid.region.maxY
    ensures right <= r <= w.grid.region.MaxX()
    ensures forall k :: right <= k < r ==> Passes(w.grid, k, y)
    ensures !Passes(w.grid, r, y) || r == w.grid.region.MaxX()
    ensures var w' := SweepRight(w, right, y);
      (forall a: nat {:trigger Get(w'.grid, a, y)} :: w.grid.region.minX <= a <= w.grid.region.MaxX() ==>
         Get(w'.grid, a, y) ==
           if right <= a < r then Water
           else if a == r then (if Get(w.grid, r, y) == Clay then Clay else Water)
           else Get(w.grid, a, y)) &&
      (forall a: nat, b: nat {:trigger Get(w'.grid, a, b)} :: w.grid.region.Contains(a, b) && b != y ==>
         Get(w'.grid, a, b) == Get(w.grid, a, b)) &&
      w'.queue == w.queue + (if Get(w.grid, r, y) == Clay then [] else [(r, y)]) &&
      w'.backtrack == w.backtrack
  {
    r := RightStop(w.grid, right, y);
    var w' := SweepRight(w, right, y);
    forall a: nat | w.grid.region.minX <= a <= w.grid.region.MaxX()
      ensures Get(w'.grid, a, y) ==
        if right <= a < r then Water
        else if a == r then (if Get(w.grid, r, y) == Clay then Clay else Water)
        else Get(w.grid, a, y)
    {
      SweepRightTile(w, right, y, r, a);
    }
    SweepRightFrame(w, right, y);
    SweepRightQueues(w, right, y, r);
    SweepRightKeeps(w, right, y);
  }

  /** One iteration of the leftward sweep: store Water and move one left. */
  lemma SweepLeftMoves(w: World, left: nat, y: nat, next: nat)
    requires Valid(w) && w.grid.region.Contains(left, y) && y < w.grid.region.maxY
    requires Get(w.grid, left, y + 1) != Clay && Get(w.grid, left, y) != Clay && left > w.grid.region.minX
    requires next == left - 1
    ensures var w' := w.(grid := Set(w.grid, left, y, Water));
      Valid(w') && w'.grid.region.Contains(next, y) && SweepLeft(w', next, y) == SweepLeft(w, left, y)
  {
    WaterKeeps(w, left, y);
  }

  /** Where the leftward sweep stops. */
  lemma SweepLeftStops(w: World, left: nat, y: nat)
    requires Valid(w) && w.grid.region.Contains(left, y) && y < w.grid.region.maxY
    requires !(Get(w.grid, left, y + 1) != Clay && Get(w.grid, left, y) != Clay && left > w.grid.region.minX)
    ensures SweepLeft(w, left, y) ==
      if Get(w.grid, left, y) != Clay
      then w.(grid := Set(w.grid, left, y, Water), queue := w.queue + [(left, y)])
      else w
  {
  }

  /** One iteration of the rightward sweep: store Water and move one right. */
  lemma SweepRightMoves(w: World, right: nat, y: nat, next: nat)
    requires Valid(w) && w.grid.region.Contains(right, y) && y < w.grid.region.maxY
    requires Get(w.grid, right, y + 1) != Clay && Get(w.grid, right, y) != Clay && right < w.grid.region.MaxX()
    requires next == right + 1
    ensures var w' := w.(grid := Set(w.grid, right, y, Water));
      Valid(w') && w'.grid.region.Contains(next, y) && SweepRight(w', next, y) == SweepRight(w, right, y)
  {
    WaterKeeps(w, right, y);
  }

  /** Where the rightward sweep stops. */
  lemma SweepRightStops(w: World, right: nat, y: nat)
    requires Valid(w) && w.grid.region.Contains(right, y) && y < w.grid.region.maxY
    requires !(Get(w.grid, right, y + 1) != Clay && Get(w.grid, right, y) != Clay && right < w.grid.region.MaxX())
    ensures SweepRight(w, right, y) ==
      if Get(w.grid, right, y) != Clay
      then w.(grid := Set(w.grid, right, y, Water), queue := w.queue + [(right, y)])
      else w
  {
  }

  /** A backtrack entry on the region's boundary cannot pool. */
  predicate OnBoundary(r: Region, x: nat, y: nat)
    requires r.width > 0
  {
    y >= r.maxY || y <= r.minY || x <= r.minX || x >= r.MaxX()
  }

  /** The sweeps of `tick_backtrack` at an interior position (x, y): when
      the row below is a full waterline and the left neighbour is not Clay,
      sweep left; then, on the same test with the right neighbour, sweep
      right. */
  ghost function Sweeps(w: World, x: nat, y: nat): (w': World)
    requires Valid(w) && w.grid.region.Contains(x, y) && !OnBoundary(w.grid.region, x, y)
    ensures Shaped(w'.grid) && w'.grid.region == w.grid.region
  {
    SweepLeftKeeps(w, x, y);
    var afterLeft :=
      if FullWaterline(w.grid, x, y + 1) && Get(w.grid, x - 1, y) != Clay
      then SweepLeft(w, x, y) else w;
    if FullWaterline(afterLeft.grid, x, y + 1) && Get(afterLeft.grid, x + 1, y) != Clay
    then SweepRight(afterLeft, x, y) else afterLeft
  }

  /** The sweeps as the two guarded steps `tick_backtrack` takes, with the
      neighbour columns l, r and the row below given by name. */
  lemma SweepsSteps(w: World, x: nat, y: nat, l: nat, r: nat, below: nat)
    requires Valid(w) && w.grid.region.Contains(x, y) && !OnBoundary(w.grid.region, x, y)
    requires 0 < x && l == x - 1 && r == x + 1 && below == y + 1
    ensures w.grid.region.Contains(l, y) && w.grid.region.Contains(r, y) && w.grid.region.Contains(x, below)
    ensures var afterLeft :=
        if FullWaterline(w.grid, x, below) && Get(w.grid, l, y) != Clay then SweepLeft(w, x, y) else w;
      Valid(afterLeft) && afterLeft.grid.region == w.grid.region &&
      Sweeps(w, x, y) ==
        if FullWaterline(afterLeft.grid, x, below) && Get(afterLeft.grid, r, y) != Clay
        then SweepRight(afterLeft, x, y) else afterLeft
  {
    SweepLeftKeeps(w, x, y);
  }

  /** The sweeps keep the invariant and only add water. */
  lemma SweepsKeeps(w: World, x: nat, y: nat)
    requires Valid(w) && w.grid.region.Contains(x, y) && !OnBoundary(w.grid.region, x, y)
    ensures Valid(Sweeps(w, x, y)) && Grows(w.grid, Sweeps(w, x, y).grid)
    ensures Sweeps(w, x, y).backtrack == w.backtrack
  {
    SweepLeftKeeps(w, x, y);
    var afterLeft :=
      if FullWaterline(w.grid, x, y + 1) && Get(w.grid, x - 1, y) != Clay
      then SweepLeft(w, x, y) else w;
    SweepRightKeeps(afterLeft, x, y);
    GrowsTransitive(w.grid, afterLeft.grid, Sweeps(w, x, y).grid);
  }

  /** The sweeps change only row y. */
  lemma SweepsFrame(w: World, x: nat, y: nat)
    requires Valid(w) && w.grid.region.Contains(x, y) && !OnBoundary(w.grid.region, x, y)
    ensures forall a: nat, b: nat {:trigger Get(Sweeps(w, x, y).grid, a, b)} ::
              w.grid.region.Contains(a, b) && b != y ==> Get(Sweeps(w, x, y).grid, a, b) == Get(w.grid, a, b)
  {
    SweepLeftKeeps(w, x, y);
    SweepLeftFrame(w, x, y);
    var afterLeft :=
      if FullWaterline(w.grid, x, y + 1) && Get(w.grid, x - 1, y) != Clay
      then SweepLeft(w, x, y) else w;
    SweepRightFrame(afterLeft, x, y);
  }

  /** The sweeps append at most two coordinates to the frontier, both on
      row y, and keep what was there. */
  lemma SweepsQueue(w: World, x: nat, y: nat)
    requires Valid(w) && w.grid.region.Contains(x, y) && !OnBoundary(w.grid.region, x, y)
    ensures var q := Sweeps(w, x, y).queue;
      |w.queue| <= |q| <= |w.queue| + 2 && q[..|w.queue|] == w.queue &&
      forall i :: |w.queue| <= i < |q| ==> q[i].1 == y
  {
    SweepLeftKeeps(w, x, y);
    var leftGo := FullWaterline(w.grid, x, y + 1) && Get(w.grid, x - 1, y) != Clay;
    var afterLeft := if leftGo then SweepLeft(w, x, y) else w;
    if leftGo {
      SweepLeftQueue(w, x, y);
    }
    var rightGo := FullWaterline(afterLeft.grid, x, y + 1) && Get(afterLeft.grid, x + 1, y) != Clay;
    var w' := if rightGo then SweepRight(afterLeft, x, y) else afterLeft;
    if rightGo {
      SweepRightQueue(afterLeft, x, y);
    }
    assert Sweeps(w, x, y) == w';
    QueueGrowsTwice(w.queue, afterLeft.queue, w'.queue, y);
  }

  /** Two appends of at most one row-y coordinate each make one append of
      at most two. */
  lemma QueueGrowsTwice(a: seq<Coord>, b: seq<Coord>, c: seq<Coord>, y: nat)
    requires |a| <= |b| <= |a| + 1 && b[..|a|] == a && forall i :: |a| <= i < |b| ==> b[i].1 == y
    requires |b| <= |c| <= |b| + 1 && c[..|b|] == b && forall i :: |b| <= i < |c| ==> c[i].1 == y
    ensures |a| <= |c| <= |a| + 2 && c[..|a|] == a && forall i :: |a| <= i < |c| ==> c[i].1 == y
  {
    assert c[..|a|] == c[..|b|][..|a|];
    forall i | |a| <= i < |b| ensures c[i].1 == y {
      assert c[i] == c[..|b|][i];
    }
  }


  /** `tick_backtrack`: pop the newest backtrack entry; drop it if it lies on
      the boundary, otherwise run the sweeps and then one flow step if the
      frontier is non-empty. The stack below the popped entry is never
      disturbed and grows by at most the one entry the flow step pushes. */
  ghost function BacktrackStep(w: World): (w': World)
    requires Valid(w) && w.backtrack != []
    ensures Valid(w') && Grows(w.grid, w'.grid)
    ensures |w.backtrack| - 1 <= |w'.backtrack| <= |w.backtrack|
    ensures w'.backtrack[..|w.backtrack| - 1] == w.backtrack[..|w.backtrack| - 1]
  {
    var (x, y) := w.backtrack[|w.backtrack| - 1];
    var popped := w.(backtrack := w.backtrack[..|w.backtrack| - 1]);
    if OnBoundary(w.grid.region, x, y) then popped
    else SweepAndFlow(popped, x, y)
  }

  /** The work `tick_backtrack` does at an interior position: the sweeps,
      then one flow step if the frontier is non-empty. */
  ghost function SweepAndFlow(w: World, x: nat, y: nat): (w': World)
    requires Valid(w) && w.grid.region.Contains(x, y) && !OnBoundary(w.grid.region, x, y)
    ensures Valid(w') && Grows(w.grid, w'.grid)
    ensures |w.backtrack| <= |w'.backtrack| <= |w.backtrack| + 1 && w'.backtrack[..|w.backtrack|] == w.backtrack
  {
    SweepsKeeps(w, x, y);
    var swept := Sweeps(w, x, y);
    if swept.queue != [] then
      var w' := FlowStep(swept);
      GrowsTransitive(w.grid, swept.grid, w'.grid);
      w'
    else swept
  }

  /** The two outcomes of a backtrack step, by the popped position. */
  lemma BacktrackStepCases(w: World, x: nat, y: nat)
    requires Valid(w) && w.backtrack != [] && w.backtrack[|w.backtrack| - 1] == (x, y)
    ensures OnBoundary(w.grid.region, x, y) ==>
              BacktrackStep(w) == w.(backtrack := w.backtrack[..|w.backtrack| - 1])
    ensures !OnBoundary(w.grid.region, x, y) ==>
              BacktrackStep(w) == SweepAndFlow(w.(backtrack := w.backtrack[..|w.backtrack| - 1]), x, y)
  {
  }

  /** A boundary entry is dropped and nothing else changes; in particular
      no flow step follows, even with a non-empty frontier. */
  lemma BacktrackOnBoundary(w: World)
    requires Valid(w) && w.backtrack != []
    requires var (x, y) := w.backtrack[|w.backtrack| - 1]; OnBoundary(w.grid.region, x, y)
    ensures BacktrackStep(w) == w.(backtrack := w.backtrack[..|w.backtrack| - 1])
  {
  }

  /** `tick`: one flow step while the frontier is non-empty, else one
      backtrack step while the stack is non-empty; the answer says whether
      work remains. With both lists empty nothing changes. */
  ghost function Tick(w: World): (result: (World, bool))
    requires Valid(w)
    ensures Valid(result.0) && Grows(w.grid, result.0.grid)
    ensures result.1 <==> result.0.queue != [] || result.0.backtrack != []
    ensures w.queue == [] && w.backtrack == [] ==> result == (w, false)
  {
    var w' :=
      if w.queue != [] then FlowStep(w)
      else if w.backtrack != [] then BacktrackStep(w)
      else w;
    (w', w'.queue != [] || w'.backtrack != [])
  }

  /** The water count never decreases across a tick. */
  lemma TickWaterCount(w: World)
    requires Valid(w)
    ensures WaterCount(w.grid.tiles) <= WaterCount(Tick(w).0.grid.tiles)
  {
    GrowsWaterCount(w.grid, Tick(w).0.grid);
  }

  /** The driver loop `while map.tick() {}`, cut off after `fuel` ticks. */
  ghost function Run(w: World, fuel: nat): (w': World)
    requires Valid(w)
    ensures Valid(w')
    decreases fuel
  {
    if fuel == 0 then w
    else
      var (next, more) := Tick(w);
      if more then Run(next, fuel - 1) else next
  }

  /** Across any number of ticks clay stays put, water never disappears and
      the water count never decreases. */
  lemma {:induction false} RunGrows(w: World, fuel: nat)
    requires Valid(w)
    ensures Grows(w.grid, Run(w, fuel).grid)
    ensures WaterCount(w.grid.tiles) <= WaterCount(Run(w, fuel).grid.tiles)
    decreases fuel
  {
    if fuel > 0 {
      var (next, more) := Tick(w);
      if more {
        RunGrows(next, fuel - 1);
        GrowsTransitive(w.grid, next.grid, Run(next, fuel - 1).grid);
      }
    }
    GrowsWaterCount(w.grid, Run(w, fuel).grid);
  }
}
