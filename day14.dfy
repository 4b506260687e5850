/** Day 14: sand falling into a cave. Rock paths are drawn into a grid of `.` and
    `#`, shifted so that the leftmost rock is column 0 (column 1 in part two, whose
    grid has one spare column on each side). Grains of sand enter at x = 500 in row 0
    and fall straight down, else down-left, else down-right, until they rest (`o`). */
module Day14 {
  import opened Wrappers

  datatype Point = Point(x: nat, y: nat)

  /** Two consecutive points of a path. */
  datatype Segment = Segment(a: Point, b: Point)

  function Min(a: int, b: int): int { if a <= b then a else b }

  function Max(a: int, b: int): int { if a <= b then b else a }

  /** The cells a segment draws: a column when the two x agree, otherwise the row of
      the first point between the two x. */
  predicate Covers(s: Segment, x: int, y: int) {
    if s.a.x == s.b.x then x == s.a.x && Min(s.a.y, s.b.y) <= y <= Max(s.a.y, s.b.y)
    else y == s.a.y && Min(s.a.x, s.b.x) <= x <= Max(s.a.x, s.b.x)
  }

  /** One of the first `n` segments of `path` (its `array_windows`) covers the
      point. */
  predicate WindowRock(path: seq<Point>, n: nat, x: int, y: int) {
    exists i :: 0 <= i < n && i + 1 < |path| && Covers(Segment(path[i], path[i + 1]), x, y)
  }

  /** A segment of some path covers the point. */
  predicate PathRock(paths: seq<seq<Point>>, x: int, y: int) {
    exists p :: 0 <= p < |paths| && WindowRock(paths[p], |paths[p]|, x, y)
  }

  lemma PathRockStep(paths: seq<seq<Point>>, p: nat, x: int, y: int)
    requires p < |paths|
    ensures PathRock(paths[..p + 1], x, y) <==> PathRock(paths[..p], x, y) || WindowRock(paths[p], |paths[p]|, x, y)
  {
    if PathRock(paths[..p + 1], x, y) {
      var q :| 0 <= q < p + 1 && WindowRock(paths[..p + 1][q], |paths[..p + 1][q]|, x, y);
      if q < p {
        assert paths[..p][q] == paths[q];
      }
    }
    if PathRock(paths[..p], x, y) {
      var q :| 0 <= q < p && WindowRock(paths[..p][q], |paths[..p][q]|, x, y);
      assert paths[..p + 1][q] == paths[q];
    }
    if WindowRock(paths[p], |paths[p]|, x, y) {
      assert paths[..p + 1][p] == paths[p];
    }
  }

  // Points and bounds.

  function Flatten(paths: seq<seq<Point>>): seq<Point> {
    if paths == [] then [] else Flatten(paths[..|paths| - 1]) + paths[|paths| - 1]
  }

  lemma {:induction false} FlattenHas(paths: seq<seq<Point>>, p: nat, i: nat)
    requires p < |paths| && i < |paths[p]|
    ensures paths[p][i] in Flatten(paths)
  {
    if p < |paths| - 1 {
      FlattenHas(paths[..|paths| - 1], p, i);
    }
  }

  /** The smallest and the largest x and the largest y of a set of points. */
  datatype Box = Box(left: nat, right: nat, bottom: nat)

  /** `minmax` over the x and `max_by` over the y. */
  function Extent(pts: seq<Point>): (b: Box)
    requires pts != []
    ensures b.left <= b.right
  {
    if |pts| == 1 then Box(pts[0].x, pts[0].x, pts[0].y)
    else
      var b, q := Extent(pts[..|pts| - 1]), pts[|pts| - 1];
      Box(Min(b.left, q.x), Max(b.right, q.x), Max(b.bottom, q.y))
  }

  /** Every point lies in the box, and each bound is reached by some point. */
  lemma {:induction false} ExtentBounds(pts: seq<Point>)
    requires pts != []
    ensures var b := Extent(pts);
      (forall i :: 0 <= i < |pts| ==> b.left <= pts[i].x <= b.right && pts[i].y <= b.bottom) &&
      (exists i :: 0 <= i < |pts| && pts[i].x == b.left) &&
      (exists i :: 0 <= i < |pts| && pts[i].x == b.right) &&
      (exists i :: 0 <= i < |pts| && pts[i].y == b.bottom)
  {
    if |pts| > 1 {
      var front := pts[..|pts| - 1];
      ExtentBounds(front);
      var b := Extent(front);
      var l :| 0 <= l < |front| && front[l].x == b.left;
      var r :| 0 <= r < |front| && front[r].x == b.right;
      var d :| 0 <= d < |front| && front[d].y == b.bottom;
      assert pts[l] == front[l] && pts[r] == front[r] && pts[d] == front[d];
      var n := |pts| - 1;
      var e := Extent(pts);
      assert e == Box(Min(b.left, pts[n].x), Max(b.right, pts[n].x), Max(b.bottom, pts[n].y));
      var l' := if b.left <= pts[n].x then l else n;
      var r' := if b.right >= pts[n].x then r else n;
      var d' := if b.bottom >= pts[n].y then d else n;
      assert pts[l'].x == e.left && pts[r'].x == e.right && pts[d'].y == e.bottom;
    }
  }

  // The grid.

  type Grid = seq<seq<char>>

  /** Every row has `w` cells. */
  predicate Shaped(g: Grid, w: nat) {
    forall r :: 0 <= r < |g| ==> |g[r]| == w
  }

  function Blank(h: nat, w: nat): (g: Grid)
    ensures |g| == h && Shaped(g, w)
  {
    seq(h, _ => seq(w, _ => '.'))
  }

  /** The rock layout of `build_grid` (`pad` = 0) and `build_grid2` (`pad` = 1): one
      row per y up to the largest, one column per x between the smallest and the
      largest, plus `pad` spare columns on each side; a cell is rock exactly when a
      segment of some path covers it. */
  function Layout(paths: seq<seq<Point>>, pad: nat): (g: Grid)
    requires Flatten(paths) != []
    ensures var b := Extent(Flatten(paths));
      |g| == b.bottom + 1 && Shaped(g, b.right - b.left + 1 + 2 * pad)
  {
    var b := Extent(Flatten(paths));
    seq(b.bottom + 1, y =>
      seq(b.right - b.left + 1 + 2 * pad, c => if PathRock(paths, c + b.left - pad, y) then '#' else '.'))
  }

  /** Draws one segment in place: a run of rows in one column, or a run of cells in
      one row. */
  method PaintSegment(grid: Grid, s: Segment, offset: int, w: nat) returns (g: Grid)
    requires Shaped(grid, w)
    requires offset <= s.a.x < offset + w && offset <= s.b.x < offset + w && s.a.y < |grid|
    ensures |g| == |grid| && Shaped(g, w)
    ensures forall r, c :: 0 <= r < |g| && 0 <= c < w ==>
      g[r][c] == if Covers(s, c + offset, r) then '#' else grid[r][c]
  {
    g := grid;
    var x1, x2 := s.a.x - offset, s.b.x - offset;
    if x1 == x2 {
      var y := Min(s.a.y, s.b.y);
      var stop := Min(Max(s.a.y, s.b.y) + 1, |g|);
      while y < stop
        invariant Min(s.a.y, s.b.y) <= y <= stop
        invariant |g| == |grid| && Shaped(g, w)
        invariant forall r, c :: 0 <= r < |g| && 0 <= c < w ==>
          g[r][c] == if r < y && Covers(s, c + offset, r) then '#' else grid[r][c]
      {
        g := g[y := g[y][x1 := '#']];
        y := y + 1;
      }
    } else {
      var row := s.a.y;
      var c := Min(x1, x2);
      var stop := Max(x1, x2) + 1;
      while c < stop
        invariant Min(x1, x2) <= c <= stop
        invariant |g| == |grid| && Shaped(g, w)
        invariant forall r, k :: 0 <= r < |g| && 0 <= k < w ==>
          g[r][k] == if k < c && Covers(s, k + offset, r) then '#' else grid[r][k]
      {
        g := g[row := g[row][c := '#']];
        c := c + 1;
      }
    }
  }

  /** The points of a path lie within the bounds of all points. */
  predicate InBox(path: seq<Point>, offset: int, w: nat, h: nat) {
    forall i :: 0 <= i < |path| ==> offset <= path[i].x < offset + w && path[i].y < h
  }

  lemma PathInBox(paths: seq<seq<Point>>, p: nat, pad: nat)
    requires p < |paths| && Flatten(paths) != []
    ensures var b := Extent(Flatten(paths));
      InBox(paths[p], b.left - pad, b.right - b.left + 1 + 2 * pad, b.bottom + 1)
  {
    var pts := Flatten(paths);
    var b := Extent(pts);
    ExtentBounds(pts);
    forall i | 0 <= i < |paths[p]|
      ensures b.left <= paths[p][i].x <= b.right && paths[p][i].y <= b.bottom
    {
      FlattenHas(paths, p, i);
      var k :| 0 <= k < |pts| && pts[k] == paths[p][i];
    }
  }

  /** Draws the segments of one path. */
  method PaintPath(grid: Grid, path: seq<Point>, offset: int, w: nat) returns (g: Grid)
    requires Shaped(grid, w) && InBox(path, offset, w, |grid|)
    ensures |g| == |grid| && Shaped(g, w)
    ensures forall r, c :: 0 <= r < |g| && 0 <= c < w ==>
      g[r][c] == if WindowRock(path, |path|, c + offset, r) then '#' else grid[r][c]
  {
    g := grid;
    var i := 0;
    while i + 1 < |path|
      invariant 0 <= i && (i < |path| || i == 0)
      invariant |g| == |grid| && Shaped(g, w)
      invariant forall r, c :: 0 <= r < |g| && 0 <= c < w ==>
        g[r][c] == if WindowRock(path, i, c + offset, r) then '#' else grid[r][c]
    {
      ghost var before := g;
      g := PaintSegment(g, Segment(path[i], path[i + 1]), offset, w);
      forall r, c | 0 <= r < |g| && 0 <= c < w
        ensures g[r][c] == if WindowRock(path, i + 1, c + offset, r) then '#' else grid[r][c]
      {
        if WindowRock(path, i + 1, c + offset, r) && !Covers(Segment(path[i], path[i + 1]), c + offset, r) {
          var j :| 0 <= j < i + 1 && j + 1 < |path| && Covers(Segment(path[j], path[j + 1]), c + offset, r);
        }
      }
      i := i + 1;
    }
    forall x, y ensures WindowRock(path, i, x, y) == WindowRock(path, |path|, x, y) {
      if WindowRock(path, |path|, x, y) {
        var j :| 0 <= j < |path| && j + 1 < |path| && Covers(Segment(path[j], path[j + 1]), x, y);
      }
    }
  }

  datatype Cave = Cave(grid: Grid, start: nat)

  /** Drawing one more path extends the rock to that path's segments. */
  lemma DrawnStep(paths: seq<seq<Point>>, p: nat, offset: int, w: nat, before: Grid, after: Grid)
    requires p < |paths| && |after| == |before| && Shaped(before, w) && Shaped(after, w)
    requires forall r, c :: 0 <= r < |before| && 0 <= c < w ==>
      before[r][c] == if PathRock(paths[..p], c + offset, r) then '#' else '.'
    requires forall r, c :: 0 <= r < |after| && 0 <= c < w ==>
      after[r][c] == if WindowRock(paths[p], |paths[p]|, c + offset, r) then '#' else before[r][c]
    ensures forall r, c :: 0 <= r < |after| && 0 <= c < w ==>
      after[r][c] == if PathRock(paths[..p + 1], c + offset, r) then '#' else '.'
  {
    forall r, c | 0 <= r < |after| && 0 <= c < w
      ensures after[r][c] == if PathRock(paths[..p + 1], c + offset, r) then '#' else '.'
    {
      PathRockStep(paths, p, c + offset, r);
    }
  }

  /** The layout and the entry column 500 - (smallest x) + `pad`. `None` where the
      source panics: no point at all (`minmax` is empty) or a smallest x above 500
      (the `usize` subtraction overflows). */
  function CaveOf(paths: seq<seq<Point>>, pad: nat): (r: Option<Cave>)
    ensures r.Some? ==> Rect(r.value.grid)
  {
    if Flatten(paths) == [] || Extent(Flatten(paths)).left > 500 then None
    else Some(Cave(Layout(paths, pad), 500 - Extent(Flatten(paths)).left + pad))
  }

  /** `build_grid` and `build_grid2`. */
  method BuildGrid(paths: seq<seq<Point>>, pad: nat) returns (r: Option<Cave>)
    ensures r == CaveOf(paths, pad)
  {
    var pts := Flatten(paths);
    if pts == [] {
      return None;
    }
    var b := Extent(pts);
    var min := b.left;
    var w := b.right - min + 1 + 2 * pad;
    forall p | 0 <= p < |paths| ensures InBox(paths[p], min - pad, w, b.bottom + 1) {
      PathInBox(paths, p, pad);
    }
    var grid := PaintPaths(paths, min - pad, w, b.bottom + 1);
    forall r | 0 <= r <= b.bottom ensures grid[r] == Layout(paths, pad)[r] {
    }
    assert grid == Layout(paths, pad);
    if min > 500 {
      return None;
    }
    r := Some(Cave(grid, 500 - min + pad));
  }

  /** The `for path in paths` loop over a blank grid. */
  method PaintPaths(paths: seq<seq<Point>>, offset: int, w: nat, height: nat) returns (grid: Grid)
    requires forall p :: 0 <= p < |paths| ==> InBox(paths[p], offset, w, height)
    ensures |grid| == height && Shaped(grid, w)
    ensures forall r, c :: 0 <= r < height && 0 <= c < w ==>
      grid[r][c] == if PathRock(paths, c + offset, r) then '#' else '.'
  {
    grid := Blank(height, w);
    var p := 0;
    while p < |paths|
      invariant 0 <= p <= |paths|
      invariant |grid| == height && Shaped(grid, w)
      invariant forall r, c :: 0 <= r < height && 0 <= c < w ==>
        grid[r][c] == if PathRock(paths[..p], c + offset, r) then '#' else '.'
    {
      ghost var before := grid;
      grid := PaintPath(grid, paths[p], offset, w);
      DrawnStep(paths, p, offset, w, before, grid);
      p := p + 1;
    }
    assert paths[..p] == paths;
  }

  // Falling sand.

  datatype Moves = NextMove(x: nat, y: nat) | Resting(x: nat, y: nat) | Overflow

  /** `move_sandcorn` (`Bounded`: a grain in the first or last column, or in the last
      row, leaves the cave) and `move_sandcorn2` (`Floored`: it rests there). */
  datatype Rules = Bounded | Floored

  /** A non-empty grid of equal, non-empty rows. */
  predicate Rect(g: Grid) {
    |g| > 0 && |g[0]| > 0 && Shaped(g, |g[0]|)
  }

  /** The start column part two needs: its first `row[x]` would be out of bounds
      otherwise. */
  predicate Enters(rules: Rules, g: Grid, x: nat)
    requires Rect(g)
  {
    rules.Floored? ==> x < |g[0]|
  }

  /** No air in the three cells below `(x, y)` that lie in the grid. */
  predicate Blocked(g: Grid, x: nat, y: nat)
    requires Rect(g) && y + 1 < |g|
  {
    var below := g[y + 1];
    forall c :: x - 1 <= c <= x + 1 && 0 <= c < |below| ==> below[c] != '.'
  }

  /** A row without air. */
  predicate NoAir(row: seq<char>) {
    forall c :: 0 <= c < |row| ==> row[c] != '.'
  }

  /** One move: down, else down-left, else down-right, each only into air. */
  function MoveSandcorn(rules: Rules, g: Grid, x: nat, y: nat): (m: Moves)
    requires Rect(g) && y < |g| && Enters(rules, g, x)
    ensures m.Overflow? <==> rules.Bounded? && (y + 1 >= |g| || x == 0 || x + 1 >= |g[0]|)
    ensures m.NextMove? ==> (x < |g[0]| && y + 1 < |g| && m.y == y + 1 && x <= m.x + 1 && m.x <= x + 1 && m.x < |g[0]| &&
      g[y + 1][m.x] == '.' && (m.x != x ==> g[y + 1][x] != '.') && (m.x > x && x > 0 ==> g[y + 1][x - 1] != '.'))
    ensures m.Resting? ==> m == Resting(x, y) && (y + 1 < |g| ==> Blocked(g, x, y))
    ensures !m.Overflow? && y + 1 < |g| && !Blocked(g, x, y) ==> m.NextMove?
  {
    match rules
    case Bounded =>
      if y + 1 >= |g| || x == 0 || x + 1 >= |g[y + 1]| then Overflow
      else if g[y + 1][x] == '.' then NextMove(x, y + 1)
      else if g[y + 1][x - 1] == '.' then NextMove(x - 1, y + 1)
      else if g[y + 1][x + 1] == '.' then NextMove(x + 1, y + 1)
      else Resting(x, y)
    case Floored =>
      if y + 1 >= |g| then Resting(x, y)
      else if g[y + 1][x] == '.' then NextMove(x, y + 1)
      else if x > 0 && g[y + 1][x - 1] == '.' then NextMove(x - 1, y + 1)
      else if x + 1 < |g[y + 1]| && g[y + 1][x + 1] == '.' then NextMove(x + 1, y + 1)
      else Resting(x, y)
  }

  /** Where a grain at `(x, y)` ends: it never stops mid-air, rests on the cell it
      started from or on air, and never overflows under the part-two rules. A floor
      without air is never entered. */
  function Fall(rules: Rules, g: Grid, x: nat, y: nat): (r: Moves)
    requires Rect(g) && y < |g| && Enters(rules, g, x)
    ensures !r.NextMove?
    ensures rules.Floored? ==> r.Resting?
    ensures r.Resting? ==> y <= r.y < |g| && r.x < |g[0]| && ((r.x == x && r.y == y) || g[r.y][r.x] == '.')
    ensures r.Resting? && r.y + 1 < |g| ==> Blocked(g, r.x, r.y)
    ensures r.Resting? && y + 1 < |g| && NoAir(g[|g| - 1]) ==> r.y + 1 < |g|
    decreases |g| - y
  {
    match MoveSandcorn(rules, g, x, y)
    case NextMove(nx, ny) => Fall(rules, g, nx, ny)
    case Resting(rx, ry) => Resting(rx, ry)
    case Overflow => Overflow
  }

  /** The grid with an `o` at `(x, y)`. */
  function Mark(g: Grid, x: nat, y: nat): Grid
    requires y < |g| && x < |g[y]|
  {
    g[y := g[y][x := 'o']]
  }

  /** `place_sandcorn`: the grid after one grain, and whether to go on. */
  function Place(rules: Rules, g: Grid, start: nat): (Grid, bool)
    requires Rect(g) && Enters(rules, g, start)
  {
    match Fall(rules, g, start, 0)
    case Resting(x, y) => (Mark(g, x, y), !(x == start && y == 0))
    case Overflow => (g, false)
  }

  // Counting cells.

  function CountRow(row: seq<char>, ch: char): nat {
    if row == [] then 0 else CountRow(row[..|row| - 1], ch) + (if row[|row| - 1] == ch then 1 else 0)
  }

  /** `grid.iter().flatten().filter(|&&c| c == ch).count()`. */
  function Count(g: Grid, ch: char): nat {
    if g == [] then 0 else Count(g[..|g| - 1], ch) + CountRow(g[|g| - 1], ch)
  }

  lemma {:induction false} CountRowUpdate(row: seq<char>, x: nat, v: char, ch: char)
    requires x < |row|
    ensures CountRow(row[x := v], ch) ==
      CountRow(row, ch) - (if row[x] == ch then 1 else 0) + (if v == ch then 1 else 0)
  {
    var n := |row| - 1;
    if x < n {
      assert row[x := v][..n] == row[..n][x := v];
      CountRowUpdate(row[..n], x, v, ch);
    } else {
      assert row[x := v][..n] == row[..n];
    }
  }

  lemma {:induction false} CountUpdate(g: Grid, y: nat, row: seq<char>, ch: char)
    requires y < |g|
    ensures Count(g[y := row], ch) == Count(g, ch) - CountRow(g[y], ch) + CountRow(row, ch)
  {
    var n := |g| - 1;
    if y < n {
      assert g[y := row][..n] == g[..n][y := row];
      CountUpdate(g[..n], y, row, ch);
    } else {
      assert g[y := row][..n] == g[..n];
    }
  }

  /** Marking a cell moves it from its old kind to `o`. */
  lemma MarkCount(g: Grid, x: nat, y: nat, ch: char)
    requires y < |g| && x < |g[y]|
    ensures Count(Mark(g, x, y), ch) ==
      Count(g, ch) - (if g[y][x] == ch then 1 else 0) + (if ch == 'o' then 1 else 0)
  {
    CountRowUpdate(g[y], x, 'o', ch);
    CountUpdate(g, y, g[y][x := 'o'], ch);
  }

  /** A grain that goes on has filled a cell of air. */
  lemma PlaceFillsAir(rules: Rules, g: Grid, start: nat)
    requires Rect(g) && Enters(rules, g, start)
    ensures var (next, more) := Place(rules, g, start);
      Rect(next) && |next| == |g| && |next[0]| == |g[0]| &&
      (more ==> Count(next, '.') == Count(g, '.') - 1 && Count(next, 'o') == Count(g, 'o') + 1)
  {
    match Fall(rules, g, start, 0)
    case Resting(x, y) =>
      MarkCount(g, x, y, '.');
      MarkCount(g, x, y, 'o');
    case Overflow =>
  }

  /** `populate_grid` and `populate_grid2`: grains until one overflows or rests on
      the entry cell. Each grain that goes on turns one cell of air into sand, so
      the process ends. */
  function Populate(rules: Rules, g: Grid, start: nat): (r: Grid)
    requires Rect(g) && Enters(rules, g, start)
    ensures Rect(r) && |r| == |g| && |r[0]| == |g[0]|
    decreases Count(g, '.')
  {
    PlaceFillsAir(rules, g, start);
    var (next, more) := Place(rules, g, start);
    if more then Populate(rules, next, start) else next
  }

  /** Sand only fills air (and the entry cell): rock stays, and no cell is emptied. */
  lemma {:induction false} PopulateFills(rules: Rules, g: Grid, start: nat, y: nat, x: nat)
    requires Rect(g) && Enters(rules, g, start) && y < |g| && x < |g[0]|
    ensures var r := Populate(rules, g, start);
      r[y][x] == g[y][x] || (r[y][x] == 'o' && (g[y][x] == '.' || (x == start && y == 0)))
    decreases Count(g, '.')
  {
    PlaceFillsAir(rules, g, start);
    var (next, more) := Place(rules, g, start);
    if more {
      PopulateFills(rules, next, start, y, x);
    }
  }

  /** With the part-two rules a floor row without air stays as it is. */
  lemma {:induction false} PopulateKeepsFloor(g: Grid, start: nat)
    requires Rect(g) && |g| >= 2 && start < |g[0]|
    requires NoAir(g[|g| - 1])
    ensures Populate(Floored, g, start)[|g| - 1] == g[|g| - 1]
    decreases Count(g, '.')
  {
    PlaceFillsAir(Floored, g, start);
    var (next, more) := Place(Floored, g, start);
    assert next[|g| - 1] == g[|g| - 1];
    if more {
      PopulateKeepsFloor(next, start);
    }
  }

  /** One grain, moving a copy of its position until it rests or leaves, then
      writing `o` in place. */
  method PlaceSandcorn(rules: Rules, grid: Grid, start: nat) returns (g: Grid, more: bool)
    requires Rect(grid) && Enters(rules, grid, start)
    ensures (g, more) == Place(rules, grid, start)
  {
    var x, y := start, 0;
    while true
      invariant y < |grid| && Enters(rules, grid, x)
      invariant Fall(rules, grid, x, y) == Fall(rules, grid, start, 0)
      decreases |grid| - y
    {
      match MoveSandcorn(rules, grid, x, y)
      case NextMove(nx, ny) =>
        x, y := nx, ny;
      case Resting(rx, ry) =>
        g := grid;
        g := g[ry := g[ry][rx := 'o']];
        more := !(rx == start && ry == 0);
        return;
      case Overflow =>
        return grid, false;
    }
  }

  /** `while place_sandcorn(grid, start) {}`. */
  method PopulateGrid(rules: Rules, grid: Grid, start: nat) returns (g: Grid)
    requires Rect(grid) && Enters(rules, grid, start)
    ensures g == Populate(rules, grid, start)
  {
    g := grid;
    while true
      invariant Rect(g) && |g| == |grid| && |g[0]| == |grid[0]|
      invariant Populate(rules, g, start) == Populate(rules, grid, start)
      decreases Count(g, '.')
    {
      PlaceFillsAir(rules, g, start);
      var next, more := PlaceSandcorn(rules, g, start);
      if !more {
        return next;
      }
      g := next;
    }
  }

  /** Part one as a whole: the grains at rest once one leaves the cave or the entry
      is covered. */
  function SolveOne(paths: seq<seq<Point>>): (r: Option<nat>)
    ensures r.None? <==> Flatten(paths) == [] || Extent(Flatten(paths)).left > 500
  {
    match CaveOf(paths, 0)
    case None => None
    case Some(cave) => Some(Count(Populate(Bounded, cave.grid, cave.start), 'o'))
  }

  /** `proccess_one`. */
  method ProcessOne(paths: seq<seq<Point>>) returns (r: Option<nat>)
    ensures r == SolveOne(paths)
  {
    var cave := BuildGrid(paths, 0);
    if cave.None? {
      return None;
    }
    var g := PopulateGrid(Bounded, cave.value.grid, cave.value.start);
    r := Some(Count(g, 'o'));
  }

  // Part two.

  /** `missing_triangle`. */
  function Triangle(n: nat): nat {
    n * (n + 1) / 2
  }

  function SumTo(n: nat): nat {
    if n == 0 then 0 else SumTo(n - 1) + n
  }

  /** A pile of sand spilling past an edge `n` rows deep holds 1 + 2 + ... + n
      grains. */
  lemma {:induction false} TriangleIsSum(n: nat)
    ensures Triangle(n) == SumTo(n)
  {
    if n > 0 {
      TriangleIsSum(n - 1);
      assert n * (n + 1) == (n - 1) * n + 2 * n;
    }
  }

  /** The first row whose first (`last` = false) or last cell is `o`
      (`find_position`). */
  function FindEdge(g: Grid, last: bool): (r: Option<nat>)
    requires Rect(g)
    ensures r.None? <==> forall i :: 0 <= i < |g| ==> g[i][if last then |g[0]| - 1 else 0] != 'o'
    ensures r.Some? ==> (r.value < |g| && g[r.value][if last then |g[0]| - 1 else 0] == 'o' &&
      forall i :: 0 <= i < r.value ==> g[i][if last then |g[0]| - 1 else 0] != 'o')
  {
    var c := if last then |g[0]| - 1 else 0;
    if exists i :: 0 <= i < |g| && g[i][c] == 'o' then
      var i := FirstWith(g, c, 0);
      Some(i)
    else None
  }

  function FirstWith(g: Grid, c: nat, from: nat): (i: nat)
    requires Rect(g) && c < |g[0]| && from <= |g|
    requires exists i :: from <= i < |g| && g[i][c] == 'o'
    ensures from <= i < |g| && g[i][c] == 'o' && forall j :: from <= j < i ==> g[j][c] != 'o'
    decreases |g| - from
  {
    if g[from][c] == 'o' then from else FirstWith(g, c, from + 1)
  }

  /** The grid of part two: the layout with a row of air and a floor row of rock
      below it. */
  function Floor(g: Grid): (r: Grid)
    requires Rect(g)
    ensures Rect(r) && |r| == |g| + 2 && |r[0]| == |g[0]|
    ensures r[|r| - 1] == seq(|g[0]|, _ => '#')
  {
    g + [seq(|g[0]|, _ => '.'), seq(|g[0]|, _ => '#')]
  }

  /** The count of part two from the grid after the sand has settled: the grains in
      the grid plus the two piles that spill past its sides, each as deep as the rows
      below the topmost grain in that edge column. `None` where the source panics:
      no grain in an edge column (`unwrap`), or an edge grain in one of the last two
      rows (the `usize` subtraction overflows). */
  function Finish(sand: Grid): (r: Option<nat>)
    requires Rect(sand)
  {
    match (FindEdge(sand, false), FindEdge(sand, true))
    case (Some(left), Some(right)) =>
      if left + 2 <= |sand| && right + 2 <= |sand| then
        Some(Count(sand, 'o') + Triangle(|sand| - left - 2) + Triangle(|sand| - right - 2))
      else None
    case _ => None
  }

  /** The sand of part two once it has settled on the floor. */
  function Settled(cave: Cave): (r: Grid)
    requires Rect(cave.grid) && cave.start < |cave.grid[0]|
    ensures Rect(r)
  {
    Populate(Floored, Floor(cave.grid), cave.start)
  }

  /** Part two as a whole. `None` where there is no cave, where the entry column
      lies right of the grid (the first `row[x]` is out of bounds), or where an
      edge column of the settled sand holds no grain; never because of the
      subtraction, as no edge grain rests in the floor rows. The answer counts at
      least the grains in the grid. */
  function SolveTwo(paths: seq<seq<Point>>): (r: Option<nat>)
    ensures r.None? <==>
      match CaveOf(paths, 1)
      case None => true
      case Some(cave) =>
        cave.start >= |cave.grid[0]| || FindEdge(Settled(cave), false).None? || FindEdge(Settled(cave), true).None?
    ensures r.Some? ==> CaveOf(paths, 1).Some? && r.value >= Count(Settled(CaveOf(paths, 1).value), 'o')
  {
    match CaveOf(paths, 1)
    case None => None
    case Some(cave) =>
      var g := Floor(cave.grid);
      if cave.start >= |g[0]| then None
      else
        FinishAboveFloor(g, cave.start);
        Finish(Populate(Floored, g, cave.start))
  }

  /** Once the sand has settled above the floor, an edge grain is never in the floor
      row, so `grid.len() - pos - 2` never underflows: part two fails only where an
      edge column holds no grain. */
  lemma FinishAboveFloor(g: Grid, start: nat)
    requires Rect(g) && |g| >= 3 && start < |g[0]| && g[|g| - 1] == seq(|g[0]|, _ => '#')
    ensures var sand := Populate(Floored, g, start);
      Finish(sand).None? <==> FindEdge(sand, false).None? || FindEdge(sand, true).None?
  {
    assert NoAir(g[|g| - 1]);
    PopulateKeepsFloor(g, start);
    var sand := Populate(Floored, g, start);
    assert sand[|sand| - 1][0] == '#' && sand[|sand| - 1][|sand[0]| - 1] == '#';
  }

  /** `proccess_two`. */
  method ProcessTwo(paths: seq<seq<Point>>) returns (r: Option<nat>)
    ensures r == SolveTwo(paths)
  {
    var cave := BuildGrid(paths, 1);
    if cave.None? {
      return None;
    }
    var grid := Floor(cave.value.grid);
    var start := cave.value.start;
    if start >= |grid[0]| {
      return None;
    }
    var g := PopulateGrid(Floored, grid, start);
    r := Finish(g);
  }
}
