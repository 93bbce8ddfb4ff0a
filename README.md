# Water flowing through clay: a verified model

This project models the engine of a ground-water simulation. It covers the
2018 Advent of Code day 17 puzzle as a Rust program implements it. The input
describes vertical and horizontal veins of clay, one per line:

- `x=N, y=A..B` is a vertical vein at column N, from row A to row B;
- `y=N, x=A..B` is a horizontal vein at row N, from column A to column B.

A spring at column 500, on the topmost scanned row, releases water. The
`Map` holds a row-major buffer of `Clay`, `Sand` and `Water` tiles over the
veins' bounding box, widened by two columns on each side. It also owns two
worklists:

- the flow frontier `queue`, used first in, first out;
- the `backtrack` stack, used last in, first out.

A `tick` does one of two things:

- a flow step: water falls into the tile below, or spreads sideways when
  clay is below;
- a backtrack step: when the row below a position is a full waterline,
  water sweeps sideways along the position's row.

The project is in four modules.

- `Tiles` (tiles.dfy): the tile buffer.
  - The coordinate translation `get_index`, with its injectivity and bounds.
  - `get` and `set`.
  - The water count.
  - The declarative meaning of a full waterline.
  - The growth relation between buffers: clay is unchanged, water stays water.
- `Steps` (steps.dfy): the state machines as pure functions of the whole
  state `World(grid, queue, backtrack)`. These are `tick_flow`,
  `tick_backtrack` with its two sweeps, `tick`, and the driver loop with a
  fuel bound. Lemmas give the exact effect of each branch.
  - The invariant `Valid` is kept by every step. It says the buffer has one
    tile per coordinate, and clay stays out of the outer columns. Every
    frontier entry lies in the region. Every backtrack entry lies in the
    region, above its bottom row.
- `Map` (map.dfy): the `Map` object as a class.
  - Fields: an `array<Tile>`, the region bounds and the two worklists as
    `seq` fields.
  - `Map::new` and the tick methods, with their loops.
  - Each method is proved to produce exactly the state that the matching
    `Steps` function gives, and to keep `Valid`.
- `Parser` (parser.dfy): the vein reader.
  - `parse_number`, `parse_x`, `parse_y`, the newline-separated list and
    the grouping by axis.
  - A printer, and a round trip from printed veins back to the same `Rows`.

Details of the code that the model keeps as written:

- The code widens the bounding box by two columns on each side
  (src/map.rs:28 and src/map.rs:32), not by one.
- The spring tile is written after the clay, so it is Water even if a vein
  covers (500, min_y).
- `tick_flow`'s `y > max_y` test is kept as written. `Steps.FrontInRegion`
  proves that it never fires in a `Valid` state: the popped entry lies in the
  region, so only `y == max_y` drains.

## Model

| member | source | states |
|---|---|---|
| Tiles.Index | src/map.rs:73-75 | `get_index` of a coordinate inside the region is below `width * height`, the buffer length |
| Tiles.IndexDecodes | src/map.rs:73-75 | an index divided by the width gives the coordinate's row offset, and the remainder gives its column offset |
| Tiles.IndexOnto | src/map.rs:42-44 | every position of the `width * height` buffer is the index of some coordinate of the region |
| Tiles.IndexInjective | src/map.rs:73-75 | two coordinates of the region with the same index are equal |
| Tiles.Get | src/map.rs:77-80 | `get` reads the tile at `get_index(x, y)`; its meaning is fixed by Tiles.Set and Tiles.IndexInjective |
| Tiles.Set | src/map.rs:82-85 | `set` changes exactly the tile at (x, y), to the given tile; storing Water over a non-Clay tile is growth (clay unchanged, water never lost) |
| Tiles.WaterCountIsMultiplicity | src/map.rs:193-201 | the front-to-back count of Water tiles is the multiplicity of Water in the buffer |
| Tiles.WaterCountMonotone | src/map.rs:193-201 | a buffer that is Water wherever another one is Water holds at least as many Water tiles |
| Tiles.GrowsWaterCount | src/map.rs:193-201 | growth never lowers the water count |
| Tiles.GrowsKeepsMargins | src/map.rs:28-32 | growth keeps clay out of the outer columns |
| Steps.ClayIsInterior | src/map.rs:119-127 | a Clay tile has a neighbour column on each side inside the region, so `x - 1` and `x + 1` are in range |
| Steps.PopFrontKeeps | src/map.rs:102-104 | popping the front of the frontier keeps the invariant |
| Steps.PopBackKeeps | src/map.rs:136-138 | popping the back of the backtrack stack keeps the invariant |
| Steps.WaterKeeps | src/map.rs:82-85 | storing Water over a non-Clay tile, with or without queuing it, keeps the invariant and is growth |
| Steps.FlowStep | src/map.rs:101-133 | a flow step keeps the invariant and only grows water; the backtrack stack is unchanged or gains the popped entry; the frontier loses its front and gains at most two entries, so its length grows by at most one |
| Steps.FlowStepCases | src/map.rs:106-131 | the popped (x, y) drains when y >= max_y, falls when the tile below is not Clay, and spreads when it is Clay |
| Steps.FlowStepDrains | src/map.rs:106-110 | at or below the bottom row, only the frontier's front is removed |
| Steps.FlowStepFalls | src/map.rs:110-117 | on a fall, (x, y+1) becomes Water and no other tile changes; (x, y+1) is appended to the frontier and (x, y) is pushed on the backtrack stack |
| Steps.FlowStepSpreads | src/map.rs:119-130 | over Clay, x is interior; each Sand neighbour, left then right, becomes Water and is appended to the frontier in that order; no other tile changes; backtrack is untouched |
| Steps.Fall | src/map.rs:111-116 | the fall keeps the invariant, grows water, appends (x, y+1) to the frontier and pushes (x, y) on the backtrack stack |
| Steps.Spread | src/map.rs:119-130 | the spread keeps the invariant, grows water, leaves backtrack alone, and appends at most two entries, keeping the frontier as a prefix |
| Steps.SpreadSteps | src/map.rs:119-128 | spreading is the left sideways step followed by the right one, both in range |
| Steps.SpreadInto | src/map.rs:120-128 | a sideways step keeps the invariant, grows water, and appends at most one frontier entry |
| Steps.SpreadEffect | src/map.rs:119-130 | the exact tiles and frontier after spreading from (x, y), tile by tile |
| Steps.SpreadIntoEffect | src/map.rs:120-123 | a sideways step makes (x, y) Water and queues it exactly when it was Sand; nothing else changes |
| Steps.FrontInRegion | src/map.rs:101-109 | the popped front of the frontier lies in the region, so `y > max_y` never holds and only `y == max_y` drains |
| Steps.TopAboveBottom | src/map.rs:135-140 | the popped top of the backtrack stack lies in the region above its bottom row, so `y + 1` is a row of the region |
| Steps.SweepLeft | src/map.rs:145-153 | the leftward sweep: store Water and step left while neither (left, y) nor (left, y+1) is Clay and `left > min_x`; then make the stop tile Water and queue it unless it is Clay; the region and shape are kept |
| Steps.SweepRight | src/map.rs:157-165 | the rightward sweep, the mirror image, bounded by the last column |
| Steps.LeftStop | src/map.rs:146 | the leftward loop's stop column l exists: every column of (l, left] passes the loop test, and l fails it or is `min_x` |
| Steps.RightStop | src/map.rs:158 | the rightward loop's stop column r exists: every column of [right, r) passes the loop test, and r fails it or is the last column |
| Steps.LeftRunMoves | src/map.rs:146-149 | storing Water at `left` does not move the stop column, which lies at or left of `left - 1` |
| Steps.RightRunMoves | src/map.rs:158-161 | storing Water at `right` does not move the stop column, which lies at or right of `right + 1` |
| Steps.LeftStopHere | src/map.rs:146 | where the loop test fails at once, the stop column is the start |
| Steps.RightStopHere | src/map.rs:158 | where the loop test fails at once, the stop column is the start |
| Steps.SweepLeftTile | src/map.rs:145-153 | after the leftward sweep with stop column l, tile (a, y) is Water on (l, left], Water at l unless it was Clay, and unchanged elsewhere |
| Steps.SweepRightTile | src/map.rs:157-165 | after the rightward sweep with stop column r, tile (a, y) is Water on [right, r), Water at r unless it was Clay, and unchanged elsewhere |
| Steps.SweepLeftQueues | src/map.rs:150-153 | the leftward sweep appends exactly (l, y) to the frontier when that tile is not Clay, and nothing otherwise |
| Steps.SweepRightQueues | src/map.rs:162-165 | the rightward sweep appends exactly (r, y) to the frontier when that tile is not Clay, and nothing otherwise |
| Steps.SweepLeftEffect | src/map.rs:145-153 | the closed form of the leftward sweep on the grid it starts from: the stop column l, the row tile by tile, no other row changed, the frontier gaining (l, y) exactly when it was not Clay, and backtrack unchanged |
| Steps.SweepRightEffect | src/map.rs:157-165 | the closed form of the rightward sweep, the mirror image of SweepLeftEffect |
| Steps.SweepLeftKeeps | src/map.rs:144-155 | the leftward sweep keeps the invariant, only grows water (each write goes to a tile just checked to be non-Clay) and leaves backtrack alone |
| Steps.SweepLeftFrame | src/map.rs:145-153 | the leftward sweep changes only row y, at columns up to its start |
| Steps.SweepLeftQueue | src/map.rs:150-153 | the leftward sweep appends at most one frontier entry, on row y and at or left of its start |
| Steps.SweepLeftMoves | src/map.rs:146-149 | one loop iteration stores Water at `left`, stays in range, and continues the same sweep from `left - 1` |
| Steps.SweepLeftStops | src/map.rs:150-153 | where the loop stops, the tile is made Water and queued unless it is Clay |
| Steps.SweepRightKeeps | src/map.rs:156-167 | the rightward sweep keeps the invariant, only grows water and leaves backtrack alone |
| Steps.SweepRightFrame | src/map.rs:157-165 | the rightward sweep changes only row y, at columns from its start on |
| Steps.SweepRightQueue | src/map.rs:162-165 | the rightward sweep appends at most one frontier entry, on row y and at or right of its start |
| Steps.SweepRightMoves | src/map.rs:158-161 | one loop iteration stores Water at `right`, stays in range, and continues the same sweep from `right + 1` |
| Steps.SweepRightStops | src/map.rs:162-165 | where the loop stops, the tile is made Water and queued unless it is Clay |
| Steps.OnBoundary | src/map.rs:140 | the guard of `tick_backtrack`: y at or below the bottom row or at or above the top row, or x in the first or last column |
| Steps.Sweeps | src/map.rs:144-167 | the left sweep runs when the row below is a full waterline and the left neighbour is not Clay; the right sweep runs on the same test, made on the state the left sweep leaves; the region and shape are kept |
| Steps.SweepsSteps | src/map.rs:144-167 | the two sweeps are two guarded steps; the right guard re-tests the waterline on the state the left sweep left |
| Steps.SweepsKeeps | src/map.rs:144-167 | the sweeps keep the invariant, only grow water and leave backtrack alone |
| Steps.SweepsFrame | src/map.rs:144-167 | the sweeps change no row other than y |
| Steps.SweepsQueue | src/map.rs:144-167 | the sweeps append at most two frontier entries, both on row y, and keep the old frontier as a prefix |
| Steps.SweepAndFlow | src/map.rs:144-170 | the sweeps followed by at most one flow step keep the invariant, grow water, and push at most one backtrack entry |
| Steps.BacktrackStep | src/map.rs:135-171 | a backtrack step keeps the invariant and grows water; the stack below the popped entry is kept, and it grows back by at most one entry |
| Steps.BacktrackStepCases | src/map.rs:136-170 | a boundary entry is dropped; an interior one leads to the sweeps and the optional flow step |
| Steps.BacktrackOnBoundary | src/map.rs:140-142 | an entry with y >= max_y, y <= min_y, x <= min_x or x >= the last column only pops the stack; no tile or frontier entry changes |
| Steps.Tick | src/map.rs:87-99 | `tick` keeps the invariant and grows water; it returns true iff either worklist is non-empty afterwards; with both empty it changes nothing and returns false |
| Steps.TickWaterCount | src/map.rs:87-99 | `count_water` never decreases across a tick |
| Steps.Run | src/main.rs:18-21 | the driver loop, cut off after a number of ticks, keeps the invariant |
| Steps.RunGrows | src/main.rs:18-21 | across any number of ticks clay stays put, no tile becomes Sand and the water count never decreases |
| Parser.Tag | src/parser.rs:50 | `tag` succeeds exactly when the tag is a prefix of the input, and consumes it |
| Parser.Digit1 | src/parser.rs:44 | `digit1` succeeds iff the input starts with a digit, and takes the maximal non-empty digit run |
| Parser.ParseNumber | src/parser.rs:43-47 | `parse_number` succeeds iff the input starts with a digit; it consumes the maximal digit run and yields its decimal value |
| Parser.ParseX | src/parser.rs:49-62 | success needs the `x=` tag, consumes input and yields an x-tagged row |
| Parser.ParseY | src/parser.rs:64-77 | success needs the `y=` tag, consumes input and yields a y-tagged row |
| Parser.FieldsShape | src/parser.rs:51-55 | the fields after the first tag read successfully only as number, separator, number, `..`, number, with the numbers' decimal values |
| Parser.ParseXShape | src/parser.rs:49-62 | `parse_x` succeeds only on `x=N, y=A..B` followed by input that does not continue B, and yields Row(N, A, B); a missing tag or number means failure |
| Parser.ParseYShape | src/parser.rs:64-77 | `parse_y` succeeds only on `y=N, x=A..B` followed by input that does not continue B, and yields Row(N, A, B) |
| Parser.ParseRow | src/parser.rs:23-26 | the `alt` of the two forms consumes input and yields an x- or y-tagged row |
| Parser.RowList | src/parser.rs:21-27 | the list parser succeeds iff a first row parses; it yields at least one row, all x- or y-tagged, and consumes input |
| Parser.Partition | src/parser.rs:33-39 | grouping by axis keeps the number of rows |
| Parser.PartitionPermutes | src/parser.rs:33-39 | grouping is a permutation: tagging the groups again gives the same multiset of tagged rows, so no row is lost, invented or duplicated |
| Parser.TaggingPush | src/parser.rs:35-38 | pushing a row onto one group adds exactly that tagged row to the multiset of tagged rows |
| Parser.PartitionMembers | src/parser.rs:33-39 | every x-tagged row lands in `x` and every y-tagged row in `y`, and nothing else does |
| Parser.Parse | src/parser.rs:20-41 | `parse` succeeds iff the list parser does; it returns its leftover and its rows grouped by axis, in input order; the "Unknown axis" branch is unreachable |
| Parser.ParseNumberPrinted | src/parser.rs:43-47 | a printed number followed by a non-digit parses back to itself, leaving the rest |
| Parser.TagConsumes | src/parser.rs:50 | a tag followed by anything is consumed exactly |
| Parser.FieldsPrinted | src/parser.rs:51-55 | each field of a printed vein is read back in turn |
| Parser.ParseXPrinted | src/parser.rs:49-62 | a printed `x=N, y=A..B` line followed by a non-digit parses to ('x', Row(N, A, B)) with the rest left over |
| Parser.ParseYPrinted | src/parser.rs:64-77 | a printed `y=N, x=A..B` line is rejected by the x form and parsed by the y form to ('y', Row(N, A, B)) |
| Parser.ParseRowPrinted | src/parser.rs:23-26 | the `alt` reads a printed line of either form back as itself |
| Parser.RowListOne | src/parser.rs:21-27 | after one row whose leftover is not a newline followed by an `x=` or `y=` tag, the list is that row and the leftover is untouched |
| Parser.RowListMore | src/parser.rs:21-27 | a row, a newline and further rows make one list |
| Parser.RowListPrinted | src/parser.rs:21-27 | printed rows followed by a leftover the list parser stops at read back as the same rows, leaving exactly that leftover |
| Parser.TrailingNewlineIsLeftover | src/parser.rs:40 | a trailing newline is not consumed and comes back as the leftover |
| Parser.PartitionTagging | src/parser.rs:29-39 | grouping the tagged veins gives back the same `Rows`, order included |
| Parser.RoundTrip | src/parser.rs:20-41 | printing non-empty `Rows` one vein per line and parsing the text gives back the same `Rows`, with an empty leftover |
| Map.XLows | src/map.rs:25-28 | the list `min_x` is taken over holds one entry per vein: the horizontal veins' starts and the vertical veins' columns, and nothing else |
| Map.XHighs | src/map.rs:29-32 | the list `max_x` is taken over holds the horizontal veins' ends and the vertical veins' columns, and nothing else |
| Map.YLows | src/map.rs:33-36 | the list `min_y` is taken over holds the vertical veins' starts and the horizontal veins' rows, and nothing else |
| Map.YHighs | src/map.rs:37-40 | the list `max_y` is taken over holds the vertical veins' ends and the horizontal veins' rows, and nothing else |
| Map.Min | src/map.rs:25-28 | `min().unwrap()` on a non-empty list is an element of it and no larger than any element |
| Map.Max | src/map.rs:29-32 | `max().unwrap()` on a non-empty list is an element of it and no smaller than any element |
| Map.StampedXMeans | src/map.rs:46-51 | stamping the first k vertical veins covers exactly the coordinates on them |
| Map.StampedYMeans | src/map.rs:53-58 | stamping the first k horizontal veins covers exactly the coordinates on them |
| Map.XRowInBox | src/map.rs:25-40 | each vertical vein lies in the bounding box of all veins |
| Map.YRowInBox | src/map.rs:25-40 | each horizontal vein lies in the bounding box of all veins |
| Map.RowsInBox | src/map.rs:25-40 | every vein lies in the bounding box of all veins |
| Map.VeinsInBox | src/map.rs:25-40 | every coordinate on a vein lies in the bounding box |
| Map.InitialMargins | src/map.rs:28-32 | with the two-column widening, no clay lies in the outer columns |
| Map.VeinsInside | src/map.rs:46-58 | every non-empty vein lies inside the padded region, so every stamping write is in range |
| Map.VeinsStamped | src/map.rs:46-58 | after both stamping loops over an all-Sand buffer, a tile is Clay exactly when it lies on a vein |
| Map.SpringIndex | src/map.rs:60 | the spring store `tiles[500 - min_x]` writes the tile that `get_index(500, min_y)` names |
| Map.SpringPlaced | src/map.rs:60-69 | with the spring written, every tile is the initial tile, and the state with frontier [(500, min_y)] and an empty stack is valid |
| Map.Map.Get | src/map.rs:77-80 | `get` on the array is the tile the whole-state grid holds at (x, y) |
| Map.Map.Set | src/map.rs:82-85 | `set` makes the buffer the grid with (x, y) overwritten |
| Map.Map.constructor | src/map.rs:24-71 | `min_x` is two below the smallest vein column; the last column is two past the largest; rows span the veins; vein tiles are Clay, (500, min_y) is Water, the rest Sand; queue is [(500, min_y)] and backtrack is empty; the invariant holds |
| Map.Map.StampVertical | src/map.rs:46-51 | after the first loop, tiles on a vertical vein are Clay and the others keep their value |
| Map.Map.StampColumn | src/map.rs:47-50 | the tiles of one vertical vein become Clay and no other tile changes |
| Map.Map.StampHorizontal | src/map.rs:53-58 | after the second loop, tiles on a horizontal vein are Clay and the others keep their value |
| Map.Map.StampRow | src/map.rs:54-57 | the tiles of one horizontal vein become Clay and no other tile changes |
| Map.Map.TickFlow | src/map.rs:101-133 | the new state is the flow step of the old one, and the invariant holds |
| Map.Map.Fall | src/map.rs:110-117 | the falling branch produces the fall of the popped state |
| Map.Map.Spread | src/map.rs:119-130 | the spreading branch produces the spread of the popped state |
| Map.Map.SpreadInto | src/map.rs:120-128 | one sideways step produces the matching step of module Steps |
| Map.Map.TickBacktrack | src/map.rs:135-171 | the new state is the backtrack step of the old one, and the invariant holds |
| Map.Map.SweepAt | src/map.rs:144-167 | the two guarded sweeps produce the sweeps of the old state |
| Map.Map.FillLeft | src/map.rs:145-153 | the leftward loop and its final store produce the leftward sweep |
| Map.Map.FillRight | src/map.rs:157-165 | the rightward loop and its final store produce the rightward sweep |
| Map.Map.IsFullWaterline | src/map.rs:173-191 | the scans answer true iff neither the leftward nor the rightward run of Water from x ends on Sand; the buffer is not modified |
| Map.Map.Tick | src/map.rs:87-99 | the new state and the answer are those of the `tick` function of the old state |
| Map.Map.CountWater | src/map.rs:193-201 | the count is the number of Water tiles, which is the multiplicity of Water in the buffer |

## Left out

- The `Display` impl (src/map.rs:204-242): formatter output for diagnostics.
- The driver in src/main.rs: reading the input file, printing, the
  commented-out pacing, and the `assert!` on the leftover.
- The stabilisation pass and the still-water and all-water counts. The
  driver calls `process_still_water`, `count_all_water` and
  `count_still_water` (src/main.rs:23-26), but src/map.rs does not define
  them, so there is nothing to model.
- Termination of `while map.tick() {}`. The code does not evidently
  guarantee it, because a fall re-queues even when the tile below is
  already Water. Steps.Run cuts the loop off after a number of ticks.
- Machine integers. Coordinates and counts are `nat`.
  - `Map::new` is modelled only on the inputs `Admissible` accepts. It
    requires at least one vein, so that `min()` and `max()` do not panic,
    and a smallest column of at least 2, so that `min - 2` does not wrap.
    It also requires a non-empty row range and the spring column 500 inside
    the padded columns.
  - Map.Map.constructor: a spring column outside the padded columns is
    ruled out rather than modelled. The source does not always reject it.
    Its write `tiles[500 - min_x]` (src/map.rs:60) can land on another tile
    of the buffer, and the spring then overwrites that tile. For the single vein
    `x=490, y=1..10`, columns 488 to 492 are kept, and the spring lands on
    index 12, the Clay tile (490, 3). Other inputs write past the end of
    the buffer or underflow, and panic.
  - `usize` overflow of `width * height` and of `count` is not modelled.
- Parser.ParseNumber: the value is unbounded. The overflow panic of
  `parse().unwrap()` on very long digit runs (src/parser.rs:45) is not
  modelled.
- Parse errors: the parsing library's error kinds and positions are
  collapsed into a single `Err`. Its internal buffering is not modelled;
  only what each combinator consumes and returns is.
- Still and flowing water are not told apart: the source has only one
  `Water` tile.
- No separate source functions exist for the helper methods of class
  `Map`; they only split up source functions. `Fall`, `Spread`, `SpreadInto` and `SweepAt`,
  `FillLeft` and `FillRight` are inline blocks of `tick_flow` and
  `tick_backtrack`. `StampVertical`, `StampHorizontal`, `StampColumn` and
  `StampRow` are the nested loops of `Map::new`.
