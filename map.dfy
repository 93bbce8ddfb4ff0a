/** The simulation object itself: the tile buffer as an array updated in
    place, the region it covers, and the flow frontier and backtrack stack.
    Each tick method is proved to do exactly what the corresponding function
    of module Steps does to the whole state. */
module Map {
  import opened Tiles
  import opened Steps
  import opened Parser

  /** The `from` field of every row, in order. */
  function Froms(rs: seq<Row>): (s: seq<nat>)
    ensures |s| == |rs| && forall i :: 0 <= i < |rs| ==> s[i] == rs[i].from
  {
    seq(|rs|, i requires 0 <= i < |rs| => rs[i].from)
  }

  /** The `to` field of every row, in order. */
  function Tos(rs: seq<Row>): (s: seq<nat>)
    ensures |s| == |rs| && forall i :: 0 <= i < |rs| ==> s[i] == rs[i].to
  {
    seq(|rs|, i requires 0 <= i < |rs| => rs[i].to)
  }

  /** The `line` field of every row, in order. */
  function Lines(rs: seq<Row>): (s: seq<nat>)
    ensures |s| == |rs| && forall i :: 0 <= i < |rs| ==> s[i] == rs[i].line
  {
    seq(|rs|, i requires 0 <= i < |rs| => rs[i].line)
  }

  /** The x-coordinates `min_x` is taken over: the start of each horizontal
      vein and the column of each vertical one. */
  function XLows(rows: Rows): (s: seq<nat>)
    ensures |s| == |rows.x| + |rows.y|
    ensures forall v :: v in s <==> (exists r :: r in rows.y && r.from == v) || (exists r :: r in rows.x && r.line == v)
  {
    Froms(rows.y) + Lines(rows.x)
  }

  /** The x-coordinates `max_x` is taken over: the end of each horizontal
      vein and the column of each vertical one. */
  function XHighs(rows: Rows): (s: seq<nat>)
    ensures |s| == |rows.x| + |rows.y|
    ensures forall v :: v in s <==> (exists r :: r in rows.y && r.to == v) || (exists r :: r in rows.x && r.line == v)
  {
    Tos(rows.y) + Lines(rows.x)
  }

  /** The y-coordinates `min_y` is taken over: the start of each vertical
      vein and the row of each horizontal one. */
  function YLows(rows: Rows): (s: seq<nat>)
    ensures |s| == |rows.x| + |rows.y|
    ensures forall v :: v in s <==> (exists r :: r in rows.x && r.from == v) || (exists r :: r in rows.y && r.line == v)
  {
    Froms(rows.x) + Lines(rows.y)
  }

  /** The y-coordinates `max_y` is taken over: the end of each vertical vein
      and the row of each horizontal one. */
  function YHighs(rows: Rows): (s: seq<nat>)
    ensures |s| == |rows.x| + |rows.y|
    ensures forall v :: v in s <==> (exists r :: r in rows.x && r.to == v) || (exists r :: r in rows.y && r.line == v)
  {
    Tos(rows.x) + Lines(rows.y)
  }

  /** `Iterator::min`: the least element, which occurs in s. */
  function Min(s: seq<nat>): (m: nat)
    requires s != []
    ensures m in s && forall v :: v in s ==> m <= v
  {
    if |s| == 1 then s[0]
    else
      var rest := Min(s[1..]);
      assert forall v :: v in s ==> v == s[0] || v in s[1..];
      if s[0] <= rest then s[0] else rest
  }

  /** `Iterator::max`: the greatest element, which occurs in s. */
  function Max(s: seq<nat>): (m: nat)
    requires s != []
    ensures m in s && forall v :: v in s ==> v <= m
  {
    if |s| == 1 then s[0]
    else
      var rest := Max(s[1..]);
      assert forall v :: v in s ==> v == s[0] || v in s[1..];
      if s[0] >= rest then s[0] else rest
  }

  /** The inputs `Map::new` is modelled on: at least one vein (`min()` and
      `max()` unwrap), no wrap-around in `min_x - 2`, at least one row, and
      the spring column 500 inside the padded columns (outside them the
      spring's write lands on another tile or out of range). */
  predicate Admissible(rows: Rows) {
    |rows.x| + |rows.y| > 0 &&
    Min(XLows(rows)) >= 2 &&
    Min(XLows(rows)) - 2 <= 500 <= Max(XHighs(rows)) + 2 &&
    Min(YLows(rows)) <= Max(YHighs(rows))
  }

  /** (a, b) lies on a vertical vein `x=line, y=from..to`. */
  predicate OnXVein(r: Row, a: nat, b: nat) {
    a == r.line && r.from <= b <= r.to
  }

  /** (a, b) lies on a horizontal vein `y=line, x=from..to`. */
  predicate OnYVein(r: Row, a: nat, b: nat) {
    b == r.line && r.from <= a <= r.to
  }

  /** (a, b) lies on one of the first k veins of xs (vertical veins). */
  predicate StampedX(xs: seq<Row>, k: nat, a: nat, b: nat)
    requires k <= |xs|
  {
    k > 0 && (StampedX(xs, k - 1, a, b) || OnXVein(xs[k - 1], a, b))
  }

  /** (a, b) lies on one of the first k veins of ys (horizontal veins). */
  predicate StampedY(ys: seq<Row>, k: nat, a: nat, b: nat)
    requires k <= |ys|
  {
    k > 0 && (StampedY(ys, k - 1, a, b) || OnYVein(ys[k - 1], a, b))
  }

  /** (a, b) lies on some vein of the scan. */
  predicate Veined(rows: Rows, a: nat, b: nat) {
    (exists i :: 0 <= i < |rows.x| && OnXVein(rows.x[i], a, b)) ||
    (exists i :: 0 <= i < |rows.y| && OnYVein(rows.y[i], a, b))
  }

  /** Stamping the first k vertical veins covers exactly their coordinates. */
  lemma {:induction false} StampedXMeans(xs: seq<Row>, k: nat, a: nat, b: nat)
    requires k <= |xs|
    ensures StampedX(xs, k, a, b) <==> exists i :: 0 <= i < k && OnXVein(xs[i], a, b)
  {
    if k > 0 {
      StampedXMeans(xs, k - 1, a, b);
    }
  }

  /** Stamping the first k horizontal veins covers exactly their coordinates. */
  lemma {:induction false} StampedYMeans(ys: seq<Row>, k: nat, a: nat, b: nat)
    requires k <= |ys|
    ensures StampedY(ys, k, a, b) <==> exists i :: 0 <= i < k && OnYVein(ys[i], a, b)
  {
    if k > 0 {
      StampedYMeans(ys, k - 1, a, b);
    }
  }

  /** The i-th vertical vein lies inside the bounding box of all veins. */
  lemma XRowInBox(rows: Rows, i: nat)
    requires i < |rows.x|
    ensures Min(XLows(rows)) <= rows.x[i].line <= Max(XHighs(rows))
    ensures Min(YLows(rows)) <= rows.x[i].from && rows.x[i].to <= Max(YHighs(rows))
  {
    var r := rows.x[i];
    assert r in rows.x;
    assert r.line in XLows(rows) && r.line in XHighs(rows);
    assert r.from in YLows(rows) && r.to in YHighs(rows);
  }

  /** The i-th horizontal vein lies inside the bounding box of all veins. */
  lemma YRowInBox(rows: Rows, i: nat)
    requires i < |rows.y|
    ensures Min(YLows(rows)) <= rows.y[i].line <= Max(YHighs(rows))
    ensures Min(XLows(rows)) <= rows.y[i].from && rows.y[i].to <= Max(XHighs(rows))
  {
    var r := rows.y[i];
    assert r in rows.y;
    assert r.line in YLows(rows) && r.line in YHighs(rows);
    assert r.from in XLows(rows) && r.to in XHighs(rows);
  }

  /** Every vein lies inside the bounding box of all veins. */
  lemma RowsInBox(rows: Rows)
    ensures forall i :: 0 <= i < |rows.x| ==>
      Min(XLows(rows)) <= rows.x[i].line <= Max(XHighs(rows)) &&
      Min(YLows(rows)) <= rows.x[i].from && rows.x[i].to <= Max(YHighs(rows))
    ensures forall i :: 0 <= i < |rows.y| ==>
      Min(YLows(rows)) <= rows.y[i].line <= Max(YHighs(rows)) &&
      Min(XLows(rows)) <= rows.y[i].from && rows.y[i].to <= Max(XHighs(rows))
  {
    forall i | 0 <= i < |rows.x|
      ensures Min(XLows(rows)) <= rows.x[i].line <= Max(XHighs(rows))
      ensures Min(YLows(rows)) <= rows.x[i].from && rows.x[i].to <= Max(YHighs(rows))
    {
      XRowInBox(rows, i);
    }
    forall i | 0 <= i < |rows.y|
      ensures Min(YLows(rows)) <= rows.y[i].line <= Max(YHighs(rows))
      ensures Min(XLows(rows)) <= rows.y[i].from && rows.y[i].to <= Max(XHighs(rows))
    {
      YRowInBox(rows, i);
    }
  }

  /** Every coordinate on a vein lies inside the bounding box of all veins. */
  lemma VeinsInBox(rows: Rows, a: nat, b: nat)
    requires |rows.x| + |rows.y| > 0 && Veined(rows, a, b)
    ensures Min(XLows(rows)) <= a <= Max(XHighs(rows))
    ensures Min(YLows(rows)) <= b <= Max(YHighs(rows))
  {
    RowsInBox(rows);
  }

  /** The tile `Map::new` leaves at (a, b): the spring at the top of
      column 500 is Water, other vein tiles are Clay, the rest Sand. */
  function InitialTile(rows: Rows, minY: nat, a: nat, b: nat): Tile {
    if a == 500 && b == minY then Water
    else if Veined(rows, a, b) then Clay
    else Sand
  }

  /** The spring sits on the region's top row, so its index is the plain
      column offset `500 - min_x` that `Map::new` writes to. */
  lemma SpringIndex(r: Region)
    requires r.WellFormed() && r.Contains(500, r.minY)
    ensures Index(r, 500, r.minY) == 500 - r.minX
  {
  }

  /** With the buffer stamped from the veins, no Clay tile is in the
      outermost column on either side. */
  lemma InitialMargins(rows: Rows, g: Grid)
    requires Admissible(rows) && Shaped(g)
    requires g.region.minX + 2 == Min(XLows(rows)) && g.region.MaxX() == Max(XHighs(rows)) + 2
    requires forall a: nat, b: nat {:trigger Tiles.Get(g, a, b)} :: g.region.Contains(a, b) ==>
               (Tiles.Get(g, a, b) == Clay ==> Veined(rows, a, b))
    ensures MarginsClear(g)
  {
    forall a: nat, b: nat | g.region.Contains(a, b) && Tiles.Get(g, a, b) == Clay
      ensures g.region.minX < a < g.region.MaxX()
    {
      VeinsInBox(rows, a, b);
    }
  }

  /** Every non-empty vein lies inside the veins' padded bounding box. */
  lemma VeinsInside(rows: Rows, r: Region)
    requires |rows.x| + |rows.y| > 0 && r.width > 0
    requires r.minX + 2 == Min(XLows(rows)) && r.MaxX() == Max(XHighs(rows)) + 2
    requires r.minY == Min(YLows(rows)) && r.maxY == Max(YHighs(rows))
    ensures forall i :: 0 <= i < |rows.x| ==> XVeinInside(r, rows.x[i])
    ensures forall i :: 0 <= i < |rows.y| ==> YVeinInside(r, rows.y[i])
  {
    RowsInBox(rows);
  }

  /** After both stamping loops over an all-Sand buffer, a tile is Clay
      exactly when it lies on a vein. */
  lemma VeinsStamped(rows: Rows, g: Grid)
    requires Shaped(g)
    requires forall a: nat, b: nat {:trigger Tiles.Get(g, a, b)} :: g.region.Contains(a, b) ==>
               Tiles.Get(g, a, b) ==
               (if StampedY(rows.y, |rows.y|, a, b) then Clay
                else if StampedX(rows.x, |rows.x|, a, b) then Clay else Sand)
    ensures forall a: nat, b: nat {:trigger Tiles.Get(g, a, b)} :: g.region.Contains(a, b) ==>
              Tiles.Get(g, a, b) == (if Veined(rows, a, b) then Clay else Sand)
  {
    forall a: nat, b: nat | g.region.Contains(a, b)
      ensures Tiles.Get(g, a, b) == (if Veined(rows, a, b) then Clay else Sand)
    {
      StampedXMeans(rows.x, |rows.x|, a, b);
      StampedYMeans(rows.y, |rows.y|, a, b);
    }
  }

  /** Placing the spring on the stamped buffer of the veins' padded
      bounding box yields the initial tiles, with clay clear of the margin
      columns. */
  lemma SpringPlaced(rows: Rows, g: Grid)
    requires Admissible(rows) && Shaped(g)
    requires g.region.minX + 2 == Min(XLows(rows)) && g.region.MaxX() == Max(XHighs(rows)) + 2
    requires g.region.minY == Min(YLows(rows)) && g.region.maxY == Max(YHighs(rows))
    requires forall a: nat, b: nat {:trigger Tiles.Get(g, a, b)} :: g.region.Contains(a, b) ==>
               Tiles.Get(g, a, b) == (if Veined(rows, a, b) then Clay else Sand)
    ensures var g' := Tiles.Set(g, 500, g.region.minY, Water);
      Steps.Valid(World(g', [(500, g.region.minY)], [])) &&
      forall a: nat, b: nat {:trigger Tiles.Get(g', a, b)} :: g.region.Contains(a, b) ==>
        Tiles.Get(g', a, b) == InitialTile(rows, g.region.minY, a, b)
  {
    var g' := Tiles.Set(g, 500, g.region.minY, Water);
    InitialMargins(rows, g');
  }

  /** A non-empty vertical vein lies inside region r. */
  predicate XVeinInside(r: Region, row: Row) {
    row.from <= row.to ==> r.Contains(row.line, row.from) && r.Contains(row.line, row.to)
  }

  /** A non-empty horizontal vein lies inside region r. */
  predicate YVeinInside(r: Region, row: Row) {
    row.from <= row.to ==> r.Contains(row.from, row.line) && r.Contains(row.to, row.line)
  }

  class Map {
    var tiles: array<Tile>
    var minX: nat
    var width: nat
    var minY: nat
    var maxY: nat
    var queue: seq<Coord>
    var backtrack: seq<Coord>

    function Bounds(): Region
      reads this`minX, this`width, this`minY, this`maxY
    {
      Region(minX, width, minY, maxY)
    }

    /** The whole simulation state as a value. */
    function State(): World
      reads this, tiles
    {
      World(Grid(Bounds(), tiles[..]), queue, backtrack)
    }

    predicate Valid()
      reads this, tiles
    {
      Steps.Valid(State())
    }

    /** `get`: the tile the whole-state grid holds at (x, y). */
    function Get(x: nat, y: nat): (t: Tile)
      reads this, tiles
      requires Shaped(State().grid) && Bounds().Contains(x, y)
      ensures t == Tiles.Get(State().grid, x, y)
    {
      tiles[Index(Bounds(), x, y)]
    }

    /** `set`: the buffer becomes the grid with (x, y) overwritten. */
    method Set(x: nat, y: nat, t: Tile)
      requires Shaped(State().grid) && Bounds().Contains(x, y)
      modifies tiles
      ensures State() == old(State()).(grid := Tiles.Set(old(State()).grid, x, y, t))
    {
      tiles[Index(Bounds(), x, y)] := t;
    }

    /** `Map::new`: the region is the bounding box of the veins, widened by
        two columns on each side; every vein tile is Clay, the spring at
        (500, min_y) is Water, everything else Sand; the spring is the only
        frontier entry. */
    constructor (rows: Rows)
      requires Admissible(rows)
      ensures Valid() && fresh(tiles)
      ensures minX + 2 == Min(XLows(rows)) && Bounds().MaxX() == Max(XHighs(rows)) + 2
      ensures minY == Min(YLows(rows)) && maxY == Max(YHighs(rows))
      ensures forall a: nat, b: nat {:trigger Tiles.Get(State().grid, a, b)} :: Bounds().Contains(a, b) ==>
                Tiles.Get(State().grid, a, b) == InitialTile(rows, minY, a, b)
      ensures queue == [(500, minY)] && backtrack == []
    {
      var lo := Min(XLows(rows)) - 2;
      var hi := Max(XHighs(rows)) + 2;
      var top := Min(YLows(rows));
      var bottom := Max(YHighs(rows));
      minX := lo;
      width := hi - lo + 1;
      minY := top;
      maxY := bottom;
      var region := Region(lo, hi - lo + 1, top, bottom);
      tiles := new Tile[region.Size()](_ => Sand);
      queue := [(500, top)];
      backtrack := [];
      new;
      VeinsInside(rows, Bounds());
      StampVertical(rows.x);
      StampHorizontal(rows.y);
      ghost var stamped := State().grid;
      VeinsStamped(rows, stamped);
      SpringIndex(Bounds());
      Set(500, minY, Water);
      SpringPlaced(rows, stamped);
      assert State() == World(Tiles.Set(stamped, 500, minY, Water), [(500, minY)], []);
    }

    /** The first loop of `Map::new`: stamp Clay along every vertical vein,
        in order. */
    method StampVertical(xs: seq<Row>)
      requires Shaped(State().grid)
      requires forall i :: 0 <= i < |xs| ==> XVeinInside(Bounds(), xs[i])
      modifies tiles
      ensures Shaped(State().grid)
      ensures forall a: nat, b: nat {:trigger Tiles.Get(State().grid, a, b)} :: Bounds().Contains(a, b) ==>
                Tiles.Get(State().grid, a, b) ==
                (if StampedX(xs, |xs|, a, b) then Clay else Tiles.Get(old(State().grid), a, b))
    {
      ghost var g := State().grid;
      for k := 0 to |xs|
        invariant Shaped(State().grid)
        invariant forall a: nat, b: nat {:trigger Tiles.Get(State().grid, a, b)} :: Bounds().Contains(a, b) ==>
                    Tiles.Get(State().grid, a, b) == (if StampedX(xs, k, a, b) then Clay else Tiles.Get(g, a, b))
      {
        StampColumn(xs[k]);
      }
    }

    /** One vertical vein `x=line, y=from..to`: its tiles become Clay. */
    method StampColumn(row: Row)
      requires Shaped(State().grid) && XVeinInside(Bounds(), row)
      modifies tiles
      ensures Shaped(State().grid)
      ensures forall a: nat, b: nat {:trigger Tiles.Get(State().grid, a, b)} :: Bounds().Contains(a, b) ==>
                Tiles.Get(State().grid, a, b) ==
                (if OnXVein(row, a, b) then Clay else Tiles.Get(old(State().grid), a, b))
    {
      ghost var g0 := State().grid;
      var y := row.from;
      while y <= row.to
        invariant row.from <= y && (y == row.from || y <= row.to + 1)
        invariant Shaped(State().grid)
        invariant forall a: nat, b: nat {:trigger Tiles.Get(State().grid, a, b)} :: Bounds().Contains(a, b) ==>
                    Tiles.Get(State().grid, a, b) ==
                    (if a == row.line && row.from <= b < y then Clay else Tiles.Get(g0, a, b))
        decreases row.to - y
      {
        ghost var g := State().grid;
        tiles[Index(Bounds(), row.line, y)] := Clay;
        assert State().grid == Tiles.Set(g, row.line, y, Clay);
        y := y + 1;
      }
    }

    /** The second loop of `Map::new`: stamp Clay along every horizontal
        vein, in order. */
    method StampHorizontal(ys: seq<Row>)
      requires Shaped(State().grid)
      requires forall i :: 0 <= i < |ys| ==> YVeinInside(Bounds(), ys[i])
      modifies tiles
      ensures Shaped(State().grid)
      ensures forall a: nat, b: nat {:trigger Tiles.Get(State().grid, a, b)} :: Bounds().Contains(a, b) ==>
                Tiles.Get(State().grid, a, b) ==
                (if StampedY(ys, |ys|, a, b) then Clay else Tiles.Get(old(State().grid), a, b))
    {
      ghost var g := State().grid;
      for k := 0 to |ys|
        invariant Shaped(State().grid)
        invariant forall a: nat, b: nat {:trigger Tiles.Get(State().grid, a, b)} :: Bounds().Contains(a, b) ==>
                    Tiles.Get(State().grid, a, b) == (if StampedY(ys, k, a, b) then Clay else Tiles.Get(g, a, b))
      {
        StampRow(ys[k]);
      }
    }

    /** One horizontal vein `y=line, x=from..to`: its tiles become Clay. */
    method StampRow(row: Row)
      requires Shaped(State().grid) && YVeinInside(Bounds(), row)
      modifies tiles
      ensures Shaped(State().grid)
      ensures forall a: nat, b: nat {:trigger Tiles.Get(State().grid, a, b)} :: Bounds().Contains(a, b) ==>
                Tiles.Get(State().grid, a, b) ==
                (if OnYVein(row, a, b) then Clay else Tiles.Get(old(State().grid), a, b))
    {
      ghost var g0 := State().grid;
      var x := row.from;
      while x <= row.to
        invariant row.from <= x && (x == row.from || x <= row.to + 1)
        invariant Shaped(State().grid)
        invariant forall a: nat, b: nat {:trigger Tiles.Get(State().grid, a, b)} :: Bounds().Contains(a, b) ==>
                    Tiles.Get(State().grid, a, b) ==
                    (if b == row.line && row.from <= a < x then Clay else Tiles.Get(g0, a, b))
        decreases row.to - x
      {
        ghost var g := State().grid;
        tiles[Index(Bounds(), x, row.line)] := Clay;
        assert State().grid == Tiles.Set(g, x, row.line, Clay);
        x := x + 1;
      }
    }

    /** `tick_flow`, with a non-empty frontier. */
    method TickFlow()
      requires Valid() && queue != []
      modifies this`queue, this`backtrack, tiles
      ensures State() == FlowStep(old(State()))
      ensures Valid()
    {
      ghost var w := State();
      var (x, y) := queue[0];
      queue := queue[1..];
      PopFrontKeeps(w);
      assert State() == w.(queue := w.queue[1..]);
      FlowStepCases(w, x, y);

      if y > maxY {
        return;
      }

      if y < maxY {
        var below := Get(x, y + 1);
        if below == Sand || below == Water {
          Fall(x, y);
        } else {
          Spread(x, y);
        }
      }
    }

    /** The falling branch of `tick_flow`, after (x, y) was popped. */
    method Fall(x: nat, y: nat)
      requires Valid() && Bounds().Contains(x, y) && y < maxY
      requires Tiles.Get(State().grid, x, y + 1) != Clay
      modifies this`queue, this`backtrack, tiles
      ensures State() == Steps.Fall(old(State()), x, y)
      ensures Valid()
    {
      Set(x, y + 1, Water);
      queue := queue + [(x, y + 1)];
      backtrack := backtrack + [(x, y)];
    }

    /** The spreading branch of `tick_flow`, after (x, y) was popped. */
    method Spread(x: nat, y: nat)
      requires Valid() && Bounds().Contains(x, y) && y < maxY
      requires Tiles.Get(State().grid, x, y + 1) == Clay
      modifies this`queue, tiles
      ensures State() == Steps.Spread(old(State()), x, y)
      ensures Valid()
    {
      ClayIsInterior(State().grid, x, y + 1);
      var left, right := x - 1, x + 1;
      SpreadSteps(State(), x, y, left, right);
      SpreadInto(left, y);
      SpreadInto(right, y);
    }

    /** The sideways step `tick_flow` makes twice over Clay: a Sand tile at
        (x, y) becomes Water and joins the back of the frontier. */
    method SpreadInto(x: nat, y: nat)
      requires Valid() && Bounds().Contains(x, y)
      modifies this`queue, tiles
      ensures State() == Steps.SpreadInto(old(State()), x, y)
      ensures Valid()
    {
      if Get(x, y) == Sand {
        Set(x, y, Water);
        queue := queue + [(x, y)];
      }
    }

    /** `tick_backtrack`, with a non-empty backtrack stack. */
    method TickBacktrack()
      requires Valid() && backtrack != []
      modifies this`queue, this`backtrack, tiles
      ensures State() == BacktrackStep(old(State()))
      ensures Valid()
    {
      ghost var w := State();
      var (x, y) := backtrack[|backtrack| - 1];
      backtrack := backtrack[..|backtrack| - 1];
      PopBackKeeps(w);
      assert State() == w.(backtrack := w.backtrack[..|w.backtrack| - 1]);
      BacktrackStepCases(w, x, y);

      if y >= maxY || y <= minY || x <= minX || x >= minX + width - 1 {
        return;
      }

      ghost var popped := State();
      SweepsKeeps(popped, x, y);
      SweepAt(x, y);
      assert State() == Sweeps(popped, x, y);
      if queue != [] {
        TickFlow();
      }
      assert State() == SweepAndFlow(popped, x, y);
    }

    /** The two sweeps of `tick_backtrack` at an interior position (x, y),
        each guarded by a fresh full-waterline test of the row below. */
    method SweepAt(x: nat, y: nat)
      requires Valid() && Bounds().Contains(x, y) && !OnBoundary(Bounds(), x, y)
      modifies this`queue, tiles
      ensures State() == Sweeps(old(State()), x, y)
      ensures Valid()
    {
      var l, r, below := x - 1, x + 1, y + 1;
      SweepsSteps(State(), x, y, l, r, below);
      var full := IsFullWaterline(x, below);
      if full && Get(l, y) != Clay {
        FillLeft(x, y);
      }
      full := IsFullWaterline(x, below);
      if full && Get(r, y) != Clay {
        FillRight(x, y);
      }
    }

    /** The leftward sweep of `tick_backtrack` from (x, y). */
    method FillLeft(x: nat, y: nat)
      requires Valid() && Bounds().Contains(x, y) && y < maxY
      modifies this`queue, tiles
      ensures State() == SweepLeft(old(State()), x, y)
      ensures Valid()
    {
      ghost var w := State();
      ghost var cur := w;
      var left := x;
      while Get(left, y + 1) != Clay && Get(left, y) != Clay && left > minX
        invariant minX <= left <= x
        invariant State() == cur && Steps.Valid(cur)
        invariant SweepLeft(cur, left, y) == SweepLeft(w, x, y)
        decreases left
      {
        var next := left - 1;
        SweepLeftMoves(cur, left, y, next);
        Set(left, y, Water);
        cur := cur.(grid := Tiles.Set(cur.grid, left, y, Water));
        left := next;
      }
      SweepLeftStops(State(), left, y);
      if Get(left, y) != Clay {
        Set(left, y, Water);
        queue := queue + [(left, y)];
      }
      SweepLeftKeeps(w, x, y);
    }

    /** The rightward sweep of `tick_backtrack` from (x, y). */
    method FillRight(x: nat, y: nat)
      requires Valid() && Bounds().Contains(x, y) && y < maxY
      modifies this`queue, tiles
      ensures State() == SweepRight(old(State()), x, y)
      ensures Valid()
    {
      ghost var w := State();
      ghost var cur := w;
      var right := x;
      while Get(right, y + 1) != Clay && Get(right, y) != Clay && right < minX + width - 1
        invariant x <= right <= Bounds().MaxX()
        invariant State() == cur && Steps.Valid(cur)
        invariant SweepRight(cur, right, y) == SweepRight(w, x, y)
        decreases Bounds().MaxX() - right
      {
        var next := right + 1;
        SweepRightMoves(cur, right, y, next);
        Set(right, y, Water);
        cur := cur.(grid := Tiles.Set(cur.grid, right, y, Water));
        right := next;
      }
      SweepRightStops(State(), right, y);
      if Get(right, y) != Clay {
        Set(right, y, Water);
        queue := queue + [(right, y)];
      }
      SweepRightKeeps(w, x, y);
    }

    /** `is_full_waterline`: scan left, then right, across Water from
        (x, y); the row is full unless a scan stops on Sand. */
    method IsFullWaterline(x: nat, y: nat) returns (full: bool)
      requires Shaped(State().grid) && Bounds().Contains(x, y)
      ensures full <==> FullWaterline(State().grid, x, y)
    {
      ghost var g := State().grid;
      var left := x;
      while Get(left, y) == Water && left > minX
        invariant minX <= left <= x
        invariant forall k :: left < k <= x ==> Tiles.Get(g, k, y) == Water
        decreases left
      {
        left := left - 1;
      }
      if !(Get(left, y) == Clay || Get(left, y) == Water) {
        assert OpenLeft(g, x, y) by {
          assert Tiles.Get(g, left, y) == Sand;
        }
        return false;
      }
      assert !OpenLeft(g, x, y) by {
        forall l | minX <= l <= x && Tiles.Get(g, l, y) == Sand
          ensures exists k :: l < k <= x && Tiles.Get(g, k, y) != Water
        {
          assert l < left;
          assert Tiles.Get(g, left, y) != Water;
        }
      }

      var right := x;
      while Get(right, y) == Water && right < minX + width - 1
        invariant x <= right <= Bounds().MaxX()
        invariant forall k :: x <= k < right ==> Tiles.Get(g, k, y) == Water
        decreases Bounds().MaxX() - right
      {
        right := right + 1;
      }
      if !(Get(right, y) == Clay || Get(right, y) == Water) {
        assert OpenRight(g, x, y) by {
          assert Tiles.Get(g, right, y) == Sand;
        }
        return false;
      }
      assert !OpenRight(g, x, y) by {
        forall r | x <= r <= Bounds().MaxX() && Tiles.Get(g, r, y) == Sand
          ensures exists k :: x <= k < r && Tiles.Get(g, k, y) != Water
        {
          assert right < r;
          assert Tiles.Get(g, right, y) != Water;
        }
      }

      return true;
    }

    /** `tick`: one flow step if the frontier is non-empty, else one
        backtrack step if the stack is non-empty; reports whether work
        remains. */
    method Tick() returns (more: bool)
      requires Valid()
      modifies this`queue, this`backtrack, tiles
      ensures Valid() && (State(), more) == Steps.Tick(old(State()))
    {
      if queue != [] {
        TickFlow();
        return queue != [] || backtrack != [];
      }

      if backtrack != [] {
        TickBacktrack();
        return queue != [] || backtrack != [];
      }

      return queue != [] || backtrack != [];
    }

    /** `count_water`: the number of Water tiles, that is, the multiplicity
        of Water in the buffer. */
    method CountWater() returns (count: nat)
      ensures count == WaterCount(tiles[..]) && count == multiset(tiles[..])[Water]
    {
      count := 0;
      for i := 0 to tiles.Length
        invariant count == WaterCount(tiles[..i])
      {
        assert tiles[..i + 1][..i] == tiles[..i];
        if tiles[i] == Water {
          count := count + 1;
        }
      }
      assert tiles[..tiles.Length] == tiles[..];
      WaterCountIsMultiplicity(tiles[..]);
    }
  }
}
