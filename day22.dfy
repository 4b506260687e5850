/** Day 22: walking a flat map. The map's rows are ranges of walls and open
    tiles; the path alternates step counts with left/right turns, and a walk
    that leaves a row or column wraps to its other end. */
module Day22 {
  import opened Wrappers
  import Arith

  /** A map cell: open ground (`Tile::Tile`), a wall, or off the map. */
  datatype Tile = Open | Wall | Empty

  datatype Direction = Right | Left | Down | Up

  /** One parsed instruction: a step count or a turn. */
  datatype Walk = Forward(count: nat) | Turn(turn: Direction)

  /** A leg of the path: a step count with the facing it is walked in. */
  datatype Step = Step(steps: nat, dir: Direction)

  /** A row of the map: its tiles and the range `lo..hi` of its columns. */
  datatype Row = Row(lo: nat, hi: nat, tiles: seq<Tile>)

  /** What nom's `space0` takes: a space or a tab. */
  predicate Blank(c: char) { c == ' ' || c == '\t' }

  /** The number of leading blanks of a line (one byte each). */
  function Indent(line: string): (r: nat)
    ensures r <= |line| && (forall i :: 0 <= i < r ==> Blank(line[i])) && (r == |line| || !Blank(line[r]))
  {
    if |line| == 0 || !Blank(line[0]) then 0 else 1 + Indent(line[1..])
  }

  /** `maze_line`: leading blanks become `Empty`, then '#' a wall and '.' open
      ground. `None` for a line with anything else after its indent, where the
      source's map ends and its instructions fail to parse. */
  function MazeLine(line: string): (r: Option<seq<Tile>>)
    ensures r.Some? <==> forall i :: Indent(line) <= i < |line| ==> line[i] in "#."
    ensures r.Some? ==> |r.value| == |line| && forall i :: 0 <= i < |line| ==>
      (r.value[i] == Empty <==> Blank(line[i])) && (r.value[i] == Wall <==> line[i] == '#') &&
      (r.value[i] == Open <==> line[i] == '.') && (r.value[i] == Empty <==> i < Indent(line))
  {
    var k := Indent(line);
    if forall i :: k <= i < |line| ==> line[i] in "#." then
      Some(seq(|line|, i requires 0 <= i < |line| => if i < k then Empty else if line[i] == '#' then Wall else Open))
    else None
  }

  /** A tab counts as indent like a space. */
  lemma TabIndent()
    ensures MazeLine("\t#.") == Some([Empty, Wall, Open])
  {
    var line := "\t#.";
    assert Indent(line) == 1 by {
      assert line[1..] == "#.";
    }
    assert forall i :: 1 <= i < |line| ==> line[i] in "#.";
    var r := MazeLine(line).value;
    assert |r| == 3 && r[0] == Empty && r[1] == Wall && r[2] == Open;
    assert r == [Empty, Wall, Open];
  }

  /** The index of the first tile that is not `Empty`, or 0 if there is none
      (`unwrap_or_default`). */
  function FirstOnMap(tiles: seq<Tile>): (r: nat)
    ensures (r < |tiles| && tiles[r] != Empty && forall i :: 0 <= i < r ==> tiles[i] == Empty) ||
      (r == 0 && forall i :: 0 <= i < |tiles| ==> tiles[i] == Empty)
  {
    var p := EmptyPrefix(tiles, 0);
    if p < |tiles| then p else 0
  }

  /** The first index from `i` on whose tile is not `Empty`, or `|tiles|`. */
  function EmptyPrefix(tiles: seq<Tile>, i: nat): (r: nat)
    requires i <= |tiles|
    ensures i <= r <= |tiles| && (forall j :: i <= j < r ==> tiles[j] == Empty) && (r == |tiles| || tiles[r] != Empty)
    decreases |tiles| - i
  {
    if i == |tiles| || tiles[i] != Empty then i else EmptyPrefix(tiles, i + 1)
  }

  /** A map row as `maze` stores it: the range runs from the first tile on
      the map to the end of the line. */
  function MakeRow(tiles: seq<Tile>): Row
  {
    Row(FirstOnMap(tiles), |tiles|, tiles)
  }

  /** What every stored row satisfies: it is not empty, its range ends at its
      length, the tiles before the range are off the map, and the range holds
      only walls and open ground (or, for a line of spaces only, it is the
      whole row). */
  predicate GoodRow(row: Row)
  {
    row.lo < row.hi == |row.tiles| &&
    (forall i :: 0 <= i < row.lo ==> row.tiles[i] == Empty) &&
    ((forall i :: row.lo <= i < row.hi ==> row.tiles[i] != Empty) ||
     (row.lo == 0 && forall i :: 0 <= i < row.hi ==> row.tiles[i] == Empty))
  }

  /** `maze`: every line of the map part is a map line; lines with no tiles
      (the blank line before the path) are not stored. */
  function Maze(lines: seq<string>): (r: Option<seq<Row>>)
    ensures r.Some? <==> forall i :: 0 <= i < |lines| ==> MazeLine(lines[i]).Some?
    ensures r.Some? ==> |r.value| <= |lines| && forall row :: row in r.value ==> GoodRow(row)
  {
    if |lines| == 0 then Some([])
    else
      match MazeLine(lines[0])
      case None => None
      case Some(tiles) =>
        match Maze(lines[1..])
        case None =>
          assert !forall i :: 1 <= i < |lines| ==> MazeLine(lines[i]).Some? by {
            forall i | 0 <= i < |lines| - 1 ensures lines[1..][i] == lines[i + 1] { }
          }
          None
        case Some(rows) =>
          assert forall i :: 1 <= i < |lines| ==> MazeLine(lines[i]).Some? by {
            forall i | 1 <= i < |lines| ensures MazeLine(lines[i]).Some? {
              assert lines[i] == lines[1..][i - 1];
            }
          }
          if |tiles| == 0 then Some(rows) else Some([MakeRow(tiles)] + rows)
  }

  /** A left turn: Right, Up, Left, Down, Right. */
  function TurnLeft(d: Direction): Direction
  {
    match d
    case Right => Up
    case Up => Left
    case Left => Down
    case Down => Right
  }

  /** A right turn: Right, Down, Left, Up, Right. */
  function TurnRight(d: Direction): Direction
  {
    match d
    case Right => Down
    case Down => Left
    case Left => Up
    case Up => Right
  }

  /** The facing after a turn slot: a left turn turns left and anything else
      in the slot turns right. */
  function Turned(d: Direction, w: Walk): Direction
  {
    if w == Turn(Left) then TurnLeft(d) else TurnRight(d)
  }

  /** The facing's value in the password: Right 0, Down 1, Left 2, Up 3. */
  function Facing(d: Direction): (r: nat)
    ensures r < 4
  {
    match d
    case Right => 0
    case Down => 1
    case Left => 2
    case Up => 3
  }

  /** The facing values number the directions clockwise: a right turn adds
      one and a left turn takes one away, modulo 4, and distinct directions
      have distinct values. */
  lemma TurnValues(d: Direction, w: Walk)
    ensures w == Turn(Left) ==> Facing(Turned(d, w)) == (Facing(d) + 3) % 4
    ensures w != Turn(Left) ==> Facing(Turned(d, w)) == (Facing(d) + 1) % 4
    ensures forall e :: Facing(d) == Facing(e) <==> d == e
  {
  }

  /** Four turns the same way restore the facing, and a left turn undoes a
      right turn and the other way round. */
  lemma TurnsRestore(d: Direction)
    ensures TurnLeft(TurnLeft(TurnLeft(TurnLeft(d)))) == d
    ensures TurnRight(TurnRight(TurnRight(TurnRight(d)))) == d
    ensures TurnLeft(TurnRight(d)) == d && TurnRight(TurnLeft(d)) == d
  {
  }

  /** The instruction list `form_steps` accepts: an odd number of entries, a
      step count in every even slot (the first one and each pair's second). */
  predicate Slotted(ins: seq<Walk>)
  {
    |ins| % 2 == 1 && Counted(ins, |ins| / 2)
  }

  /** The first `k + 1` even slots hold step counts. */
  predicate Counted(ins: seq<Walk>, k: nat)
  {
    2 * k < |ins| && forall j :: 0 <= j <= k ==> ins[2 * j].Forward?
  }

  /** An instruction list whose length is even, or whose slot `2 * k` holds a
      turn, is not accepted. */
  lemma Unslotted(ins: seq<Walk>, k: nat)
    requires 2 * k == |ins| || (2 * k < |ins| && !ins[2 * k].Forward?)
    ensures !Slotted(ins)
  {
    if 2 * k < |ins| {
      assert |ins| / 2 >= k;
    }
  }

  /** The facing of the `k`-th leg: the walk starts facing right and each pair
      turns by its first entry. */
  function Heading(ins: seq<Walk>, k: nat): Direction
    requires 2 * k <= |ins|
  {
    if k == 0 then Right else Turned(Heading(ins, k - 1), ins[2 * k - 1])
  }

  /** The legs of an accepted instruction list: the `k`-th walks the count in
      slot `2 * k` with the `k`-th facing. */
  function Plan(ins: seq<Walk>): (r: seq<Step>)
    requires Slotted(ins)
    ensures |r| == |ins| / 2 + 1 && r[0] == Step(ins[0].count, Right)
    ensures forall k :: 0 <= k < |r| ==> r[k].steps == ins[2 * k].count && r[k].dir == Heading(ins, k)
  {
    seq(|ins| / 2 + 1, k requires 0 <= k < |ins| / 2 + 1 => Step(ins[2 * k].count, Heading(ins, k)))
  }

  /** `legs` are the legs of the first `k` turn/count pairs. */
  predicate Legs(ins: seq<Walk>, legs: seq<Step>, k: nat)
  {
    |legs| == k && 2 * k < |ins| &&
    forall j :: 1 <= j <= k ==> ins[2 * j].Forward? && legs[j - 1] == Step(ins[2 * j].count, Heading(ins, j))
  }

  /** One more pair extends the legs by its count, walked after its turn. */
  lemma LegsNext(ins: seq<Walk>, legs: seq<Step>, k: nat)
    requires Legs(ins, legs, k) && 2 * k + 2 < |ins| && ins[2 * k + 2].Forward?
    ensures Legs(ins, legs + [Step(ins[2 * k + 2].count, Turned(Heading(ins, k), ins[2 * k + 1]))], k + 1)
  {
    assert ins[2 * (k + 1)] == ins[2 * k + 2];
  }

  /** Once the pairs run out exactly, the list is accepted and the legs,
      after the first count walked facing right, are all of them. */
  lemma Accepted(ins: seq<Walk>, legs: seq<Step>, k: nat)
    requires Legs(ins, legs, k) && 2 * k + 1 == |ins| && ins[0].Forward?
    ensures Slotted(ins)
    ensures forall j :: 0 <= j <= k ==> ([Step(ins[0].count, Right)] + legs)[j] == Step(ins[2 * j].count, Heading(ins, j))
  {
    assert Counted(ins, k);
  }

  /** `form_steps`: scans the turn/count pairs after the first count, carrying
      the facing. `None` where the source panics: no entries, a turn where a
      count belongs, or a trailing turn with no count after it. */
  method FormSteps(ins: seq<Walk>) returns (r: Option<seq<Step>>)
    ensures r.Some? <==> Slotted(ins)
    ensures r.Some? ==> r.value == Plan(ins)
  {
    if |ins| == 0 {
      return None;
    }
    var legs: seq<Step> := [];
    var dir := Right;
    var k := 0;
    while 2 * k + 1 < |ins|
      invariant 2 * k + 1 <= |ins| && dir == Heading(ins, k) && Legs(ins, legs, k)
      decreases |ins| - 2 * k
    {
      if 2 * k + 2 == |ins| {
        Unslotted(ins, k + 1);
        return None;
      }
      if !ins[2 * k + 2].Forward? {
        Unslotted(ins, k + 1);
        return None;
      }
      LegsNext(ins, legs, k);
      dir := Turned(dir, ins[2 * k + 1]);
      legs := legs + [Step(ins[2 * k + 2].count, dir)];
      k := k + 1;
    }
    if !ins[0].Forward? {
      Unslotted(ins, 0);
      return None;
    }
    r := Some([Step(ins[0].count, Right)] + legs);
    Accepted(ins, legs, k);
    assert r.value == Plan(ins);
  }

  /** A walk along a cycle of cells, where `open[i]` says whether the cycle's
      `i`-th cell is open ground and the walk starts `m` cells into the cycle,
      so that `i` moves later it is on cell `(m + i) % |open|`. It makes `k`
      moves: every cell up to the `k`-th is open, and either all `steps` moves
      are made or the next cell is not open. */
  predicate Run(open: seq<bool>, m: nat, steps: nat, k: nat)
    requires |open| > 0
  {
    k <= steps && (forall i :: 0 <= i <= k ==> OpenAfter(open, m, i)) &&
    (k == steps || !OpenAfter(open, m, k + 1))
  }

  /** The cell `i` moves into the walk is open ground. */
  predicate OpenAfter(open: seq<bool>, m: nat, i: nat)
    requires |open| > 0
  {
    open[(m + i) % |open|]
  }

  /** Takes moves from the `j`-th on while they land on open ground
      (`take(steps + 1)` and `take_while`). */
  function Advance(open: seq<bool>, m: nat, j: nat, steps: nat): (k: nat)
    requires |open| > 0 && j <= steps
    requires forall i :: 0 <= i <= j ==> OpenAfter(open, m, i)
    ensures j <= k && Run(open, m, steps, k)
    decreases steps - j
  {
    if j == steps || !OpenAfter(open, m, j + 1) then j
    else Advance(open, m, j + 1, steps)
  }

  /** The number of moves is determined: the walk stops at its first closed
      cell or after `steps` moves. */
  lemma RunUnique(open: seq<bool>, m: nat, steps: nat, k: nat, k': nat)
    requires |open| > 0 && Run(open, m, steps, k) && Run(open, m, steps, k')
    ensures k == k'
  {
    if k' < steps {
      StopsBefore(open, m, steps, k, k');
    }
    if k < steps {
      StopsBefore(open, m, steps, k', k);
    }
  }

  /** A walk stops no later than before its first closed cell. */
  lemma StopsBefore(open: seq<bool>, m: nat, steps: nat, k: nat, j: nat)
    requires |open| > 0 && Run(open, m, steps, k) && !OpenAfter(open, m, j + 1)
    ensures k <= j
  {
  }

  /** The index along the cycle where the walk stops (`last().unwrap()`).
      `None` where the source panics: the cycle is empty, or its first cell is
      not open ground, so no cell is taken at all. */
  function Slide(open: seq<bool>, m: nat, steps: nat): (r: Option<nat>)
    ensures r.Some? <==> |open| > 0 && open[m % |open|]
    ensures r.Some? ==> r.value < |open| && open[r.value]
    ensures r.Some? ==> exists k :: Run(open, m, steps, k) && r.value == (m + k) % |open|
  {
    if |open| == 0 || !open[m % |open|] then None
    else
      assert OpenAfter(open, m, 0);
      var k := Advance(open, m, 0, steps);
      assert OpenAfter(open, m, k);
      Some((m + k) % |open|)
  }

  /** `saturating_sub`. */
  function Skip(a: nat, b: nat): nat
  {
    if a >= b then a - b else 0
  }

  /** Column `x` lies in the row's range. */
  predicate Covers(row: Row, x: nat)
  {
    row.lo <= x < row.hi
  }

  /** The first row from `i` on whose range holds column `x`, or `|maze|`. */
  function TopFrom(maze: seq<Row>, x: nat, i: nat): (r: nat)
    requires i <= |maze|
    ensures i <= r <= |maze| && (r < |maze| ==> Covers(maze[r], x))
    ensures forall j :: i <= j < r ==> !Covers(maze[j], x)
    decreases |maze| - i
  {
    if i == |maze| || Covers(maze[i], x) then i else TopFrom(maze, x, i + 1)
  }

  /** One past the last row before `j` whose range holds column `x`, or 0
      (`maze.len()` minus the position counted from the back). */
  function BottomBefore(maze: seq<Row>, x: nat, j: nat): (r: nat)
    requires j <= |maze|
    ensures r <= j && (r > 0 ==> Covers(maze[r - 1], x))
    ensures forall i :: r <= i < j ==> !Covers(maze[i], x)
    ensures forall i :: 0 <= i < j && Covers(maze[i], x) ==> i < r
  {
    if j == 0 then 0 else if Covers(maze[j - 1], x) then j else BottomBefore(maze, x, j - 1)
  }

  /** A row after padding: its range is not empty, and every tile outside the
      range is off the map. */
  predicate Framed(row: Row)
  {
    row.lo < row.hi <= |row.tiles| &&
    forall i :: 0 <= i < |row.tiles| && !(row.lo <= i < row.hi) ==> row.tiles[i] == Empty
  }

  /** The padded map: framed rows of one common width. */
  predicate Square(maze: seq<Row>)
  {
    (forall i :: 0 <= i < |maze| ==> Framed(maze[i])) &&
    forall i :: 0 <= i < |maze| ==> |maze[i].tiles| == |maze[0].tiles|
  }

  /** Open ground at column `x` of row `y`. */
  predicate OpenAt(maze: seq<Row>, x: nat, y: nat)
  {
    y < |maze| && x < |maze[y].tiles| && maze[y].tiles[x] == Open
  }

  /** `walk_step` facing right: the cycle is the row's range from left to
      right, entered `x - lo` cells in. */
  function WalkRight(maze: seq<Row>, steps: nat, x: nat, y: nat): (r: Option<(nat, nat)>)
    requires Square(maze)
    ensures r.Some? ==> r.value.1 == y && OpenAt(maze, r.value.0, y) && Covers(maze[y], r.value.0)
  {
    if y >= |maze| then None
    else
      var row := maze[y];
      var open := Rightwards(row);
      var t := Slide(open, Skip(x, row.lo), steps);
      if t.None? then None
      else
        assert open[t.value];
        Some((row.lo + t.value, y))
  }

  /** `walk_step` facing left: the row's range from right to left, entered
      `hi - 1 - x` cells in. */
  function WalkLeft(maze: seq<Row>, steps: nat, x: nat, y: nat): (r: Option<(nat, nat)>)
    requires Square(maze)
    ensures r.Some? ==> r.value.1 == y && OpenAt(maze, r.value.0, y) && Covers(maze[y], r.value.0)
  {
    if y >= |maze| then None
    else
      var row := maze[y];
      var open := Leftwards(row);
      var t := Slide(open, Skip(row.hi - 1, x), steps);
      if t.None? then None
      else
        assert open[t.value];
        Some((row.hi - 1 - t.value, y))
  }

  /** `walk_step` facing down: the rows from the first to the last whose range
      holds column `x`, top to bottom, entered `y - top` rows in. */
  function WalkDown(maze: seq<Row>, steps: nat, x: nat, y: nat): (r: Option<(nat, nat)>)
    requires Square(maze)
    ensures r.Some? ==> r.value.0 == x && OpenAt(maze, x, r.value.1)
  {
    var top := TopFrom(maze, x, 0);
    if top == |maze| then None
    else
      ColumnInside(maze, x, top);
      SlideDown(maze, steps, x, y, top, BottomBefore(maze, x, |maze|))
  }

  /** The walk down the rows `top..bottom` of column `x`. */
  function SlideDown(maze: seq<Row>, steps: nat, x: nat, y: nat, top: nat, bottom: nat): (r: Option<(nat, nat)>)
    requires top <= bottom <= |maze| && forall j :: top <= j < bottom ==> x < |maze[j].tiles|
    ensures r.Some? ==> r.value.0 == x && OpenAt(maze, x, r.value.1)
  {
    var open := Downwards(maze, x, top, bottom);
    var t := Slide(open, Skip(y, top), steps);
    if t.None? then None
    else
      assert open[t.value];
      Some((x, top + t.value))
  }

  /** `walk_step` facing up: the same rows bottom to top, entered
      `bottom - 1 - y` rows in. */
  function WalkUp(maze: seq<Row>, steps: nat, x: nat, y: nat): (r: Option<(nat, nat)>)
    requires Square(maze)
    ensures r.Some? ==> r.value.0 == x && OpenAt(maze, x, r.value.1)
  {
    var top := TopFrom(maze, x, 0);
    if top == |maze| then None
    else
      ColumnInside(maze, x, top);
      SlideUp(maze, steps, x, y, top, BottomBefore(maze, x, |maze|))
  }

  /** The walk up the rows `top..bottom` of column `x`. */
  function SlideUp(maze: seq<Row>, steps: nat, x: nat, y: nat, top: nat, bottom: nat): (r: Option<(nat, nat)>)
    requires top < bottom <= |maze| && forall j :: top <= j < bottom ==> x < |maze[j].tiles|
    ensures r.Some? ==> r.value.0 == x && OpenAt(maze, x, r.value.1)
  {
    var open := Upwards(maze, x, top, bottom);
    var t := Slide(open, Skip(bottom - 1, y), steps);
    if t.None? then None
    else
      assert open[t.value];
      Some((x, bottom - 1 - t.value))
  }

  /** Whether each cell of the row's range is open ground, left to right. */
  function Rightwards(row: Row): (open: seq<bool>)
    requires Framed(row)
    ensures |open| == row.hi - row.lo
    ensures forall i :: 0 <= i < |open| ==> (open[i] <==> row.tiles[row.lo + i] == Open)
  {
    seq(row.hi - row.lo, i requires 0 <= i < row.hi - row.lo => row.tiles[row.lo + i] == Open)
  }

  /** Whether each cell of the row's range is open ground, right to left. */
  function Leftwards(row: Row): (open: seq<bool>)
    requires Framed(row)
    ensures |open| == row.hi - row.lo
    ensures forall i :: 0 <= i < |open| ==> (open[i] <==> row.tiles[row.hi - 1 - i] == Open)
  {
    seq(row.hi - row.lo, i requires 0 <= i < row.hi - row.lo => row.tiles[row.hi - 1 - i] == Open)
  }

  /** Whether each row of `top..bottom` is open ground at column `x`, from the
      top row down. */
  function Downwards(maze: seq<Row>, x: nat, top: nat, bottom: nat): (open: seq<bool>)
    requires top <= bottom <= |maze| && forall j :: top <= j < bottom ==> x < |maze[j].tiles|
    ensures |open| == bottom - top
    ensures forall i :: 0 <= i < |open| ==> x < |maze[top + i].tiles| && (open[i] <==> maze[top + i].tiles[x] == Open)
  {
    seq(bottom - top, i requires 0 <= i < bottom - top => maze[top + i].tiles[x] == Open)
  }

  /** Whether each row of `top..bottom` is open ground at column `x`, from the
      bottom row up. */
  function Upwards(maze: seq<Row>, x: nat, top: nat, bottom: nat): (open: seq<bool>)
    requires top <= bottom <= |maze| && forall j :: top <= j < bottom ==> x < |maze[j].tiles|
    ensures |open| == bottom - top
    ensures forall i :: 0 <= i < |open| ==> x < |maze[bottom - 1 - i].tiles| && (open[i] <==> maze[bottom - 1 - i].tiles[x] == Open)
  {
    seq(bottom - top, i requires 0 <= i < bottom - top => maze[bottom - 1 - i].tiles[x] == Open)
  }

  /** A column inside one row's range is inside every row of the padded map. */
  lemma ColumnInside(maze: seq<Row>, x: nat, y: nat)
    requires Square(maze) && y < |maze| && Covers(maze[y], x)
    ensures forall j :: 0 <= j < |maze| ==> x < |maze[j].tiles|
  {
    assert Framed(maze[y]);
  }

  /** `walk_step`: the cells of the row's range (or, walking down or up, the
      rows from the first to the last whose range holds the column) form a
      cycle, walked forwards or backwards from the skip the source computes.
      `None` where the source panics: a row index past the map, a column no
      row holds, or a first cell that is not open ground. */
  function WalkStep(maze: seq<Row>, step: Step, x: nat, y: nat): (r: Option<(nat, nat)>)
    requires Square(maze)
    ensures r.Some? ==> OpenAt(maze, r.value.0, r.value.1)
  {
    match step.dir
    case Right => WalkRight(maze, step.steps, x, y)
    case Left => WalkLeft(maze, step.steps, x, y)
    case Down => WalkDown(maze, step.steps, x, y)
    case Up => WalkUp(maze, step.steps, x, y)
  }

  /** From open ground a step never panics: the first cell of its cycle is
      the cell it stands on. */
  lemma WalkFromOpen(maze: seq<Row>, step: Step, x: nat, y: nat)
    requires Square(maze) && OpenAt(maze, x, y)
    ensures WalkStep(maze, step, x, y).Some?
  {
    assert Framed(maze[y]) && Covers(maze[y], x);
    match step.dir
    case Right => RightFromOpen(maze, step.steps, x, y);
    case Left => LeftFromOpen(maze, step.steps, x, y);
    case Down => DownFromOpen(maze, step.steps, x, y);
    case Up => UpFromOpen(maze, step.steps, x, y);
  }

  lemma RightFromOpen(maze: seq<Row>, steps: nat, x: nat, y: nat)
    requires Square(maze) && OpenAt(maze, x, y) && Covers(maze[y], x)
    ensures WalkRight(maze, steps, x, y).Some?
  {
    var row := maze[y];
    var open := Rightwards(row);
    var m := Skip(x, row.lo);
    Arith.DivModUnique(m, |open|, 0, m);
    assert open[m];
    assert Slide(open, m, steps).Some?;
  }

  lemma LeftFromOpen(maze: seq<Row>, steps: nat, x: nat, y: nat)
    requires Square(maze) && OpenAt(maze, x, y) && Covers(maze[y], x)
    ensures WalkLeft(maze, steps, x, y).Some?
  {
    var row := maze[y];
    var open := Leftwards(row);
    var m := Skip(row.hi - 1, x);
    Arith.DivModUnique(m, |open|, 0, m);
    assert open[m];
    assert Slide(open, m, steps).Some?;
  }

  lemma DownFromOpen(maze: seq<Row>, steps: nat, x: nat, y: nat)
    requires Square(maze) && OpenAt(maze, x, y) && Covers(maze[y], x)
    ensures WalkDown(maze, steps, x, y).Some?
  {
    var top := TopFrom(maze, x, 0);
    var bottom := BottomBefore(maze, x, |maze|);
    assert top <= y < bottom;
    ColumnInside(maze, x, y);
    var open := Downwards(maze, x, top, bottom);
    var m := Skip(y, top);
    assert m == y - top < |open|;
    Arith.DivModUnique(m, |open|, 0, m);
    assert open[m];
    assert Slide(open, m, steps).Some?;
  }

  lemma UpFromOpen(maze: seq<Row>, steps: nat, x: nat, y: nat)
    requires Square(maze) && OpenAt(maze, x, y) && Covers(maze[y], x)
    ensures WalkUp(maze, steps, x, y).Some?
  {
    var top := TopFrom(maze, x, 0);
    var bottom := BottomBefore(maze, x, |maze|);
    assert top <= y < bottom;
    ColumnInside(maze, x, y);
    var open := Upwards(maze, x, top, bottom);
    var m := Skip(bottom - 1, y);
    assert m == bottom - 1 - y < |open|;
    assert bottom - 1 - m == y;
    Arith.DivModUnique(m, |open|, 0, m);
    assert open[m];
    assert Slide(open, m, steps).Some?;
  }

  /** The position after walking the legs in order from `(x, y)`. */
  function Trail(maze: seq<Row>, steps: seq<Step>, x: nat, y: nat): (r: Option<(nat, nat)>)
    requires Square(maze)
    ensures r.Some? && |steps| > 0 ==> OpenAt(maze, r.value.0, r.value.1)
    decreases |steps|
  {
    if |steps| == 0 then Some((x, y))
    else
      var next := WalkStep(maze, steps[0], x, y);
      if next.None? then None else Trail(maze, steps[1..], next.value.0, next.value.1)
  }

  /** Walking from open ground never panics and ends on open ground. */
  lemma {:induction false} TrailFromOpen(maze: seq<Row>, steps: seq<Step>, x: nat, y: nat)
    requires Square(maze) && OpenAt(maze, x, y)
    ensures Trail(maze, steps, x, y).Some?
    ensures OpenAt(maze, Trail(maze, steps, x, y).value.0, Trail(maze, steps, x, y).value.1)
    decreases |steps|
  {
    if |steps| > 0 {
      WalkFromOpen(maze, steps[0], x, y);
      var next := WalkStep(maze, steps[0], x, y).value;
      TrailFromOpen(maze, steps[1..], next.0, next.1);
    }
  }

  /** `walk_maze`'s result: the final column, row and the last leg's facing,
      starting at the first row's range start. `None` where the source
      panics: an empty map, a step that panics, or no legs. */
  function Walked(maze: seq<Row>, steps: seq<Step>): Option<(nat, nat, Direction)>
    requires Square(maze)
  {
    if |maze| == 0 then None
    else
      var last := Trail(maze, steps, maze[0].lo, 0);
      if last.None? || |steps| == 0 then None
      else Some((last.value.0, last.value.1, steps[|steps| - 1].dir))
  }

  /** `walk_maze`: applies the legs one after the other to the position. */
  method WalkMaze(maze: seq<Row>, steps: seq<Step>) returns (r: Option<(nat, nat, Direction)>)
    requires Square(maze)
    ensures r == Walked(maze, steps)
  {
    if |maze| == 0 {
      return None;
    }
    var x, y := maze[0].lo, 0;
    var i := 0;
    while i < |steps|
      invariant i <= |steps| && Trail(maze, steps, maze[0].lo, 0) == Trail(maze, steps[i..], x, y)
    {
      assert steps[i..][1..] == steps[i + 1..];
      var next := WalkStep(maze, steps[i], x, y);
      if next.None? {
        return None;
      }
      x, y := next.value.0, next.value.1;
      i := i + 1;
    }
    if |steps| == 0 {
      return None;
    }
    r := Some((x, y, steps[|steps| - 1].dir));
  }

  /** The longest row (`max().unwrap()` over the row lengths). */
  function MaxLen(rows: seq<Row>): (r: nat)
    ensures forall i :: 0 <= i < |rows| ==> |rows[i].tiles| <= r
    ensures |rows| > 0 ==> exists i :: 0 <= i < |rows| && |rows[i].tiles| == r
  {
    if |rows| == 0 then 0
    else
      var rest := MaxLen(rows[1..]);
      assert forall i :: 1 <= i < |rows| ==> rows[i] == rows[1..][i - 1];
      if |rows[0].tiles| >= rest then |rows[0].tiles| else rest
  }

  /** A row extended with off-map tiles up to `width`. */
  function Widen(row: Row, width: nat): (r: Row)
    requires |row.tiles| <= width
    ensures r.lo == row.lo && r.hi == row.hi && |r.tiles| == width && r.tiles[..|row.tiles|] == row.tiles
    ensures forall i :: |row.tiles| <= i < width ==> r.tiles[i] == Empty
  {
    row.(tiles := row.tiles + seq(width - |row.tiles|, _ => Empty))
  }

  /** A stored row, extended, is framed. */
  lemma WidenFramed(row: Row, width: nat)
    requires GoodRow(row) && |row.tiles| <= width
    ensures Framed(Widen(row, width))
  {
    var r := Widen(row, width);
    forall i | 0 <= i < |r.tiles| && !(r.lo <= i < r.hi) ensures r.tiles[i] == Empty {
      if i < |row.tiles| {
        assert r.tiles[i] == r.tiles[..|row.tiles|][i];
      }
    }
  }

  /** The padding loop of `process1`: every row shorter than `width` is
      extended in place, which leaves a square map. */
  method Pad(rows: seq<Row>, width: nat) returns (maze: seq<Row>)
    requires forall i :: 0 <= i < |rows| ==> GoodRow(rows[i]) && |rows[i].tiles| <= width
    ensures |maze| == |rows| && forall i :: 0 <= i < |rows| ==> maze[i] == Widen(rows[i], width)
    ensures Square(maze)
  {
    maze := rows;
    var i := 0;
    while i < |maze|
      invariant i <= |maze| == |rows|
      invariant forall j :: 0 <= j < i ==> maze[j] == Widen(rows[j], width)
      invariant forall j :: i <= j < |maze| ==> maze[j] == rows[j]
    {
      if |maze[i].tiles| < width {
        maze := maze[i := Widen(maze[i], width)];
      } else {
        assert Widen(maze[i], width) == maze[i];
      }
      i := i + 1;
    }
    forall j | 0 <= j < |maze| ensures Framed(maze[j]) {
      WidenFramed(rows[j], width);
    }
  }

  /** The password: 1000 times the 1-based row plus 4 times the 1-based column
      plus the facing value. */
  function Password(col: nat, row: nat, dir: Direction): nat
  {
    1000 * (row + 1) + 4 * (col + 1) + Facing(dir)
  }

  /** On a map less than 250 columns wide the password determines the
      position and the facing. */
  lemma PasswordDecode(col: nat, row: nat, dir: Direction)
    requires col < 249
    ensures Password(col, row, dir) % 4 == Facing(dir)
    ensures Password(col, row, dir) / 4 % 250 == col + 1
    ensures Password(col, row, dir) / 4 / 250 == row + 1
  {
    var p := Password(col, row, dir);
    var q := 250 * (row + 1) + (col + 1);
    Arith.DivModUnique(p, 4, q, Facing(dir));
    Arith.DivModUnique(q, 250, row + 1, col + 1);
  }

  /** Every stored row padded to the longest one. */
  function Padded(rows: seq<Row>): (maze: seq<Row>)
    requires forall i :: 0 <= i < |rows| ==> GoodRow(rows[i])
    ensures |maze| == |rows| && Square(maze)
  {
    var width := MaxLen(rows);
    var maze := seq(|rows|, i requires 0 <= i < |rows| => Widen(rows[i], width));
    assert forall i :: 0 <= i < |rows| ==> Framed(maze[i]) by {
      forall i | 0 <= i < |rows| ensures Framed(maze[i]) {
        WidenFramed(rows[i], width);
      }
    }
    maze
  }

  /** `process1`'s answer. `None` where the source panics: a line that is not
      a map line, a map with no rows, a malformed instruction list, or a walk
      that panics. */
  function Answer(lines: seq<string>, ins: seq<Walk>): Option<nat>
  {
    var rows := Maze(lines);
    if rows.None? || |rows.value| == 0 || !Slotted(ins) then None
    else
      var maze := Padded(rows.value);
      var walked := Walked(maze, Plan(ins));
      if walked.None? then None
      else Some(Password(walked.value.0, walked.value.1, walked.value.2))
  }

  /** The first stored row's range starts with open ground. */
  predicate StartsOpen(rows: seq<Row>)
  {
    |rows| > 0 && rows[0].lo < |rows[0].tiles| && rows[0].tiles[rows[0].lo] == Open
  }

  /** Padding keeps the start on open ground. */
  lemma PaddedStart(rows: seq<Row>)
    requires (forall i :: 0 <= i < |rows| ==> GoodRow(rows[i])) && StartsOpen(rows)
    ensures OpenAt(Padded(rows), Padded(rows)[0].lo, 0)
  {
    var maze := Padded(rows);
    var row := Widen(rows[0], MaxLen(rows));
    assert maze[0] == row;
    assert row.tiles[row.lo] == row.tiles[..|rows[0].tiles|][row.lo];
  }

  /** When the map parses and its first row starts with open ground, an
      accepted instruction list always yields a password, and that password
      names open ground and the last leg's facing. */
  lemma AnswerLands(lines: seq<string>, ins: seq<Walk>)
    requires Maze(lines).Some? && StartsOpen(Maze(lines).value) && Slotted(ins)
    ensures Answer(lines, ins).Some?
    ensures exists col: nat, row: nat ::
      OpenAt(Padded(Maze(lines).value), col, row) &&
      Answer(lines, ins).value == Password(col, row, Heading(ins, |ins| / 2))
  {
    var rows := Maze(lines).value;
    var maze := Padded(rows);
    PaddedStart(rows);
    var steps := Plan(ins);
    TrailFromOpen(maze, steps, maze[0].lo, 0);
    var last := Trail(maze, steps, maze[0].lo, 0).value;
    assert Walked(maze, steps) == Some((last.0, last.1, steps[|steps| - 1].dir));
    assert Answer(lines, ins) == Some(Password(last.0, last.1, steps[|steps| - 1].dir));
    assert OpenAt(maze, last.0, last.1);
  }

  /** `process1`: parse the map, pad it, form the legs, walk them and encode
      the final position and facing. */
  method ProcessOne(lines: seq<string>, ins: seq<Walk>) returns (r: Option<nat>)
    ensures r == Answer(lines, ins)
  {
    var rows := Maze(lines);
    if rows.None? || |rows.value| == 0 {
      return None;
    }
    var maze := Pad(rows.value, MaxLen(rows.value));
    assert maze == Padded(rows.value);
    var steps := FormSteps(ins);
    if steps.None? {
      return None;
    }
    var walked := WalkMaze(maze, steps.value);
    if walked.None? {
      return None;
    }
    r := Some(Password(walked.value.0, walked.value.1, walked.value.2));
  }
}
