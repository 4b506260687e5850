/** Day 24: a walled valley whose inside is swept by blizzards that move one
    cell a minute and wrap around at the walls; the expedition searches for the
    fewest minutes to cross it, keeping every cell it could be standing on. */
module Day24 {
  import opened Wrappers
  import opened Arith

  datatype Blizzard = Up | Down | Left | Right

  /** A cell of the valley: a wall, or open ground holding the blizzards in its
      four slots (all empty for a clear cell). */
  datatype Cell = Wall | Blizzards(slots: seq<Option<Blizzard>>)

  /** A position (column, row), row 0 at the top. */
  datatype Pos = Pos(x: nat, y: nat)

  /** The cell holds a blizzard of kind `b`. */
  predicate Holds(c: Cell, b: Blizzard) {
    c.Blizzards? && Some(b) in c.slots
  }

  /** The cell is open ground without a blizzard. */
  predicate Clear(c: Cell) {
    c.Blizzards? && forall i :: 0 <= i < |c.slots| ==> c.slots[i].None?
  }

  /** The character drawing a blizzard of kind `b`. */
  function Arrow(b: Blizzard): char {
    match b
    case Up => '^'
    case Down => 'v'
    case Left => '<'
    case Right => '>'
  }

  /** One character of the input; `None` where the source panics. */
  function ParseCell(c: char): (r: Option<Cell>)
    ensures r.Some? <==> c in "#.<>^v"
  {
    match c
    case '#' => Some(Wall)
    case '.' => Some(Blizzards([None, None, None, None]))
    case '>' => Some(Blizzards([Some(Right), None, None, None]))
    case '<' => Some(Blizzards([Some(Left), None, None, None]))
    case '^' => Some(Blizzards([Some(Up), None, None, None]))
    case 'v' => Some(Blizzards([Some(Down), None, None, None]))
    case _ => None
  }

  /** '#' is a wall, '.' a clear cell, and an arrow a cell holding exactly the
      blizzard it draws. */
  lemma ParseCellMeaning(c: char)
    ensures ParseCell(c) == Some(Wall) <==> c == '#'
    ensures ParseCell(c).Some? && Clear(ParseCell(c).value) <==> c == '.'
    ensures forall b :: ParseCell(c).Some? && Holds(ParseCell(c).value, b) <==> c == Arrow(b)
  {
    if c == '.' {
      var slots := ParseCell(c).value.slots;
      assert forall i :: 0 <= i < |slots| ==> slots[i].None?;
    }
    if ParseCell(c).Some? && ParseCell(c).value.Blizzards? && c != '.' {
      assert ParseCell(c).value.slots[0].Some?;
    }
  }

  /** A row of the input, or `None` if a character is not one of the six. */
  function ParseRow(line: string): (r: Option<seq<Cell>>)
    ensures r.Some? <==> forall i :: 0 <= i < |line| ==> ParseCell(line[i]).Some?
    ensures r.Some? ==> |r.value| == |line| && forall i :: 0 <= i < |line| ==> r.value[i] == ParseCell(line[i]).value
  {
    if forall i :: 0 <= i < |line| ==> ParseCell(line[i]).Some? then
      Some(seq(|line|, i requires 0 <= i < |line| => ParseCell(line[i]).value))
    else None
  }

  /** All rows of the input, or `None` if any has a bad character. */
  function ParseRows(lines: seq<string>): (r: Option<seq<seq<Cell>>>)
    ensures r.Some? <==> forall y :: 0 <= y < |lines| ==> ParseRow(lines[y]).Some?
    ensures r.Some? ==> |r.value| == |lines| && forall y :: 0 <= y < |lines| ==> r.value[y] == ParseRow(lines[y]).value
  {
    if forall y :: 0 <= y < |lines| ==> ParseRow(lines[y]).Some? then
      Some(seq(|lines|, y requires 0 <= y < |lines| => ParseRow(lines[y]).value))
    else None
  }

  /** The index of the first clear cell of a row (`position` of an empty
      `Blizzards` cell). */
  function FirstClear(row: seq<Cell>): (r: Option<nat>)
    ensures r.None? <==> forall i :: 0 <= i < |row| ==> !Clear(row[i])
    ensures r.Some? ==> r.value < |row| && Clear(row[r.value]) && forall i :: 0 <= i < r.value ==> !Clear(row[i])
  {
    if |row| == 0 then None
    else if Clear(row[0]) then Some(0)
    else match FirstClear(row[1..])
      case None => None
      case Some(i) => Some(i + 1)
  }

  /** The valley is a rectangle of at least two rows, framed by walls on its
      left and right columns; a clear cell can then be stepped from without
      leaving the grid sideways. */
  predicate Walled(g: seq<seq<Cell>>, w: nat) {
    |g| >= 2 && w >= 2 &&
    (forall y :: 0 <= y < |g| ==> |g[y]| == w) &&
    (forall y :: 0 <= y < |g| ==> g[y][0] == Wall && g[y][w - 1] == Wall)
  }

  /** `p` lies in the grid away from the side walls. */
  predicate Inside(g: seq<seq<Cell>>, w: nat, p: Pos) {
    p.y < |g| && 1 <= p.x && p.x + 1 < w
  }

  /** The blizzard of kind `b` in cell `c`, as the source's search of the slots
      finds it. */
  function Pick(c: Cell, b: Blizzard): (r: Option<Blizzard>)
    ensures r.Some? <==> Holds(c, b)
    ensures r.Some? ==> r.value == b
  {
    match c
    case Wall => None
    case Blizzards(slots) => if Some(b) in slots then Some(b) else None
  }

  /** For `0 <= i < n`, the index after `i` in a cycle of `n` is `(i + 1) % n`,
      and the one before it `(i - 1) % n`. */
  lemma CycleNeighbours(i: int, n: int)
    requires 0 <= i < n
    ensures (i + 1) % n == (if i == n - 1 then 0 else i + 1)
    ensures (i - 1) % n == (if i == 0 then n - 1 else i - 1)
  {
    if i == n - 1 {
      DivModUnique(i + 1, n, 1, 0);
    } else {
      DivModUnique(i + 1, n, 0, i + 1);
    }
    if i == 0 {
      DivModUnique(i - 1, n, -1, n - 1);
    } else {
      DivModUnique(i - 1, n, 0, i - 1);
    }
  }

  /** `find`: the blizzards arriving at inside cell (x, y) in the next minute, in
      the slots Left, Right, Up, Down. A Left blizzard comes from the next cell
      to the right, wrapping from the last inside column (w - 2) to the first;
      the other kinds likewise. */
  function Find(g: seq<seq<Cell>>, w: nat, x: nat, y: nat): (r: seq<Option<Blizzard>>)
    requires Walled(g, w) && 1 <= x < w - 1 && 1 <= y < |g| - 1
    ensures |r| == 4
    ensures Holds(Blizzards(r), Left) <==> Holds(g[y][if x == w - 2 then 1 else x + 1], Left)
    ensures Holds(Blizzards(r), Right) <==> Holds(g[y][if x == 1 then w - 2 else x - 1], Right)
    ensures Holds(Blizzards(r), Up) <==> Holds(g[if y == |g| - 2 then 1 else y + 1][x], Up)
    ensures Holds(Blizzards(r), Down) <==> Holds(g[if y == 1 then |g| - 2 else y - 1][x], Down)
  {
    var left := Pick(g[y][if x == w - 2 then 1 else x + 1], Left);
    var right := Pick(g[y][if x == 1 then w - 2 else x - 1], Right);
    var up := Pick(g[if y == |g| - 2 then 1 else y + 1][x], Up);
    var down := Pick(g[if y == 1 then |g| - 2 else y - 1][x], Down);
    assert Some(Left) in [left, right, up, down] <==> left.Some?;
    assert Some(Right) in [left, right, up, down] <==> right.Some?;
    assert Some(Up) in [left, right, up, down] <==> up.Some?;
    assert Some(Down) in [left, right, up, down] <==> down.Some?;
    [left, right, up, down]
  }

  /** Row `y` after a tick: walls at both ends, the arriving blizzards between. */
  function TickedRow(g: seq<seq<Cell>>, w: nat, y: nat): seq<Cell>
    requires Walled(g, w) && 1 <= y < |g| - 1
  {
    [Wall] + seq(w - 2, i requires 0 <= i < w - 2 => Blizzards(Find(g, w, i + 1, y))) + [Wall]
  }

  /** The valley a minute later: the first and last rows are copied, every
      other row is rebuilt by `TickedRow`. */
  function Ticked(g: seq<seq<Cell>>, w: nat): (r: seq<seq<Cell>>)
    requires Walled(g, w)
    ensures Walled(r, w) && |r| == |g|
  {
    [g[0]] + seq(|g| - 2, i requires 0 <= i < |g| - 2 => TickedRow(g, w, i + 1)) + [g[|g| - 1]]
  }

  /** A row built cell by cell, walls at both ends and the arriving
      blizzards between, is the ticked row. */
  lemma BuiltRow(g: seq<seq<Cell>>, w: nat, y: nat, row: seq<Cell>)
    requires Walled(g, w) && 1 <= y < |g| - 1 && |row| == w
    requires row[0] == Wall && row[w - 1] == Wall
    requires forall i :: 1 <= i < w - 1 ==> row[i] == Blizzards(Find(g, w, i, y))
    ensures row == TickedRow(g, w, y)
  {
  }

  /** Rows built one by one, the first and last copied and the others ticked,
      are the ticked valley. */
  lemma BuiltRows(g: seq<seq<Cell>>, w: nat, rows: seq<seq<Cell>>)
    requires Walled(g, w) && |rows| == |g|
    requires rows[0] == g[0] && rows[|g| - 1] == g[|g| - 1]
    requires forall i :: 1 <= i < |g| - 1 ==> rows[i] == TickedRow(g, w, i)
    ensures rows == Ticked(g, w)
  {
  }

  /** The cells of row `y` of a ticked valley, one by one. */
  lemma TickedCells(g: seq<seq<Cell>>, w: nat, y: nat)
    requires Walled(g, w) && 1 <= y < |g| - 1
    ensures |Ticked(g, w)| == |g| && |Ticked(g, w)[y]| == w
    ensures Ticked(g, w)[y][0] == Wall && Ticked(g, w)[y][w - 1] == Wall
    ensures forall x :: 1 <= x < w - 1 ==> Ticked(g, w)[y][x] == Blizzards(Find(g, w, x, y))
  {
    TickedAt(g, w, y);
    TickedRowCells(g, w, y);
  }

  /** Row `y` of a ticked valley is the ticked row. */
  lemma TickedAt(g: seq<seq<Cell>>, w: nat, y: nat)
    requires Walled(g, w) && 1 <= y < |g| - 1
    ensures Ticked(g, w)[y] == TickedRow(g, w, y)
  {
  }

  /** The cells of a ticked row, one by one. */
  lemma TickedRowCells(g: seq<seq<Cell>>, w: nat, y: nat)
    requires Walled(g, w) && 1 <= y < |g| - 1
    ensures |TickedRow(g, w, y)| == w
    ensures TickedRow(g, w, y)[0] == Wall && TickedRow(g, w, y)[w - 1] == Wall
    ensures forall x :: 1 <= x < w - 1 ==> TickedRow(g, w, y)[x] == Blizzards(Find(g, w, x, y))
  {
  }

  /** A tick keeps the frame: the first and last rows, the side walls and the
      size of the valley. */
  lemma TickedFrame(g: seq<seq<Cell>>, w: nat)
    requires Walled(g, w)
    ensures Walled(Ticked(g, w), w)
    ensures |Ticked(g, w)| == |g| && Ticked(g, w)[0] == g[0] && Ticked(g, w)[|g| - 1] == g[|g| - 1]
  {
    forall y | 1 <= y < |g| - 1
      ensures |Ticked(g, w)[y]| == w && Ticked(g, w)[y][0] == Wall && Ticked(g, w)[y][w - 1] == Wall
    {
      TickedCells(g, w, y);
    }
  }

  /** After a tick an inside cell holds a blizzard of each kind exactly when the
      cell it comes from held one: the next cell right for Left, left for
      Right, below for Up and above for Down, cyclically over the inside. With
      n = w - 2 inside columns and m = |g| - 2 inside rows, column x + 1 wraps
      to x % n + 1 and row y + 1 to y % m + 1. */
  lemma TickedHolds(g: seq<seq<Cell>>, w: nat, x: nat, y: nat)
    requires Walled(g, w) && 1 <= x < w - 1 && 1 <= y < |g| - 1
    ensures Holds(Ticked(g, w)[y][x], Left) <==> Holds(g[y][x % (w - 2) + 1], Left)
    ensures Holds(Ticked(g, w)[y][x], Right) <==> Holds(g[y][(x - 2) % (w - 2) + 1], Right)
    ensures Holds(Ticked(g, w)[y][x], Up) <==> Holds(g[y % (|g| - 2) + 1][x], Up)
    ensures Holds(Ticked(g, w)[y][x], Down) <==> Holds(g[(y - 2) % (|g| - 2) + 1][x], Down)
  {
    TickedCells(g, w, y);
    CycleNeighbours(x - 1, w - 2);
    CycleNeighbours(y - 1, |g| - 2);
  }

  /** The total of a sequence of counts. */
  function Sum(s: seq<nat>): nat {
    if |s| == 0 then 0 else s[0] + Sum(s[1..])
  }

  lemma {:induction false} SumAppend(a: seq<nat>, b: seq<nat>)
    ensures Sum(a + b) == Sum(a) + Sum(b)
  {
    if |a| > 0 {
      assert (a + b)[1..] == a[1..] + b;
      SumAppend(a[1..], b);
    } else {
      assert a + b == b;
    }
  }

  /** Moving the first element of a sequence to its end, or the last to its
      front, keeps its total. */
  lemma SumRotate(s: seq<nat>)
    requires |s| > 0
    ensures Sum(s[1..] + [s[0]]) == Sum(s)
    ensures Sum([s[|s| - 1]] + s[..|s| - 1]) == Sum(s)
  {
    SumAppend(s[1..], [s[0]]);
    SumAppend([s[|s| - 1]], s[..|s| - 1]);
    SumAppend(s[..|s| - 1], [s[|s| - 1]]);
    assert s[..|s| - 1] + [s[|s| - 1]] == s;
  }

  /** One mark per inside cell of a row: 1 where it holds a blizzard of kind `b`. */
  function Marks(row: seq<Cell>, w: nat, b: Blizzard): (r: seq<nat>)
    requires |row| == w >= 2
    ensures |r| == w - 2
  {
    seq(w - 2, i requires 0 <= i < w - 2 => if Holds(row[i + 1], b) then 1 else 0)
  }

  /** The number of blizzards of kind `b` on each inside row. */
  function RowCounts(g: seq<seq<Cell>>, w: nat, b: Blizzard): (r: seq<nat>)
    requires Walled(g, w)
    ensures |r| == |g| - 2
  {
    seq(|g| - 2, i requires 0 <= i < |g| - 2 => Sum(Marks(g[i + 1], w, b)))
  }

  /** The number of blizzards of kind `b` inside the walls. */
  function Total(g: seq<seq<Cell>>, w: nat, b: Blizzard): nat
    requires Walled(g, w)
  {
    Sum(RowCounts(g, w, b))
  }

  /** One mark of an inside row after a tick: Left from the next column,
      Right from the previous one, cyclically. */
  lemma TickedMark(g: seq<seq<Cell>>, w: nat, y: nat, i: nat)
    requires Walled(g, w) && 1 <= y < |g| - 1 && i < w - 2
    ensures Marks(Ticked(g, w)[y], w, Left)[i] == Marks(g[y], w, Left)[if i == w - 3 then 0 else i + 1]
    ensures Marks(Ticked(g, w)[y], w, Right)[i] == Marks(g[y], w, Right)[if i == 0 then w - 3 else i - 1]
  {
    TickedCells(g, w, y);
    var f := Find(g, w, i + 1, y);
  }

  /** Along an inside row, a tick turns the Left marks one place to the left
      and the Right marks one place to the right, cyclically. */
  lemma TickedMarksSideways(g: seq<seq<Cell>>, w: nat, y: nat)
    requires Walled(g, w) && 1 <= y < |g| - 1 && w > 2
    ensures var t, left, right := Ticked(g, w), Marks(g[y], w, Left), Marks(g[y], w, Right);
      Marks(t[y], w, Left) == left[1..] + [left[0]] &&
      Marks(t[y], w, Right) == [right[w - 3]] + right[..w - 3]
  {
    var t := Ticked(g, w);
    var left, right := Marks(g[y], w, Left), Marks(g[y], w, Right);
    forall i | 0 <= i < w - 2 ensures Marks(t[y], w, Left)[i] == (left[1..] + [left[0]])[i] {
      TickedMark(g, w, y, i);
    }
    forall i | 0 <= i < w - 2 ensures Marks(t[y], w, Right)[i] == ([right[w - 3]] + right[..w - 3])[i] {
      TickedMark(g, w, y, i);
    }
  }

  /** The Up marks of an inside row after a tick are those of the row below,
      and the Down marks those of the row above, cyclically. */
  lemma TickedMarksVertical(g: seq<seq<Cell>>, w: nat, y: nat)
    requires Walled(g, w) && 1 <= y < |g| - 1 && w > 2
    ensures Marks(Ticked(g, w)[y], w, Up) == Marks(g[if y == |g| - 2 then 1 else y + 1], w, Up)
    ensures Marks(Ticked(g, w)[y], w, Down) == Marks(g[if y == 1 then |g| - 2 else y - 1], w, Down)
  {
    TickedCells(g, w, y);
  }

  /** When a tick keeps the total of the marks of inside row `i`, it keeps
      that row's count. */
  lemma CountKept(g: seq<seq<Cell>>, w: nat, b: Blizzard, i: nat)
    requires Walled(g, w) && i < |g| - 2
    requires Sum(Marks(Ticked(g, w)[i + 1], w, b)) == Sum(Marks(g[i + 1], w, b))
    ensures RowCounts(Ticked(g, w), w, b)[i] == RowCounts(g, w, b)[i]
  {
  }

  /** Left and Right blizzards stay on their row through a tick. */
  lemma TickedRowCountsSideways(g: seq<seq<Cell>>, w: nat, b: Blizzard)
    requires Walled(g, w) && |g| > 2 && w > 2 && (b == Left || b == Right)
    ensures RowCounts(Ticked(g, w), w, b) == RowCounts(g, w, b)
  {
    var before, after := RowCounts(g, w, b), RowCounts(Ticked(g, w), w, b);
    forall i | 0 <= i < |g| - 2 ensures after[i] == before[i] {
      TickedMarksSideways(g, w, i + 1);
      SumRotate(Marks(g[i + 1], w, b));
      CountKept(g, w, b, i);
    }
  }

  /** When a tick brings the marks of inside row `from` to inside row `i`,
      it brings its count too. */
  lemma CountMoved(g: seq<seq<Cell>>, w: nat, b: Blizzard, i: nat, from: nat)
    requires Walled(g, w) && i < |g| - 2 && from < |g| - 2
    requires Marks(Ticked(g, w)[i + 1], w, b) == Marks(g[from + 1], w, b)
    ensures RowCounts(Ticked(g, w), w, b)[i] == RowCounts(g, w, b)[from]
  {
  }

  /** Up blizzards move to the row above, the first inside row wrapping to the last. */
  lemma TickedRowCountsUp(g: seq<seq<Cell>>, w: nat)
    requires Walled(g, w) && |g| > 2 && w > 2
    ensures var before := RowCounts(g, w, Up);
      RowCounts(Ticked(g, w), w, Up) == before[1..] + [before[0]]
  {
    var before, after := RowCounts(g, w, Up), RowCounts(Ticked(g, w), w, Up);
    forall i | 0 <= i < |g| - 2 ensures after[i] == (before[1..] + [before[0]])[i] {
      TickedMarksVertical(g, w, i + 1);
      var from := if i == |g| - 3 then 0 else i + 1;
      CountMoved(g, w, Up, i, from);
      assert (before[1..] + [before[0]])[i] == before[from];
    }
  }

  /** Down blizzards move to the row below, the last inside row wrapping to the first. */
  lemma TickedRowCountsDown(g: seq<seq<Cell>>, w: nat)
    requires Walled(g, w) && |g| > 2 && w > 2
    ensures var before := RowCounts(g, w, Down);
      RowCounts(Ticked(g, w), w, Down) == [before[|g| - 3]] + before[..|g| - 3]
  {
    var before, after := RowCounts(g, w, Down), RowCounts(Ticked(g, w), w, Down);
    forall i | 0 <= i < |g| - 2 ensures after[i] == ([before[|g| - 3]] + before[..|g| - 3])[i] {
      TickedMarksVertical(g, w, i + 1);
      var from := if i == 0 then |g| - 3 else i - 1;
      CountMoved(g, w, Down, i, from);
      assert ([before[|g| - 3]] + before[..|g| - 3])[i] == before[from];
    }
  }

  /** A tick moves every blizzard and loses none: the number of blizzards of
      each kind inside the walls stays the same. */
  lemma TickedTotal(g: seq<seq<Cell>>, w: nat, b: Blizzard)
    requires Walled(g, w)
    ensures Total(Ticked(g, w), w, b) == Total(g, w, b)
  {
    var t := Ticked(g, w);
    var before, after := RowCounts(g, w, b), RowCounts(t, w, b);
    if |g| == 2 {
      assert before == [] && after == [];
    } else if w == 2 {
      assert forall i :: 0 <= i < |g| - 2 ==> before[i] == 0 && after[i] == 0;
      assert before == after;
    } else if b == Left || b == Right {
      TickedRowCountsSideways(g, w, b);
    } else if b == Up {
      TickedRowCountsUp(g, w);
      SumRotate(before);
    } else {
      TickedRowCountsDown(g, w);
      SumRotate(before);
    }
  }

  /** `q` is a clear cell of the valley. */
  predicate Open(g: seq<seq<Cell>>, w: nat, q: Pos) {
    q.y < |g| && q.x < w && |g[q.y]| == w && Clear(g[q.y][q.x])
  }

  /** `q` is `p` itself or one of its four neighbours. */
  predicate Adjacent(p: Pos, q: Pos) {
    (p.x == q.x && (p.y == q.y || p.y == q.y + 1 || q.y == p.y + 1)) ||
    (p.y == q.y && (p.x == q.x + 1 || q.x == p.x + 1))
  }

  /** `new_pos`: left, right, up, down and staying put, each kept only if the
      cell is clear; up is dropped on the top row and down below the last. */
  function NewPos(g: seq<seq<Cell>>, w: nat, p: Pos): (r: seq<Option<Pos>>)
    requires Walled(g, w) && Inside(g, w, p)
    ensures |r| == 5
  {
    var left := if Clear(g[p.y][p.x - 1]) then Some(Pos(p.x - 1, p.y)) else None;
    var right := if Clear(g[p.y][p.x + 1]) then Some(Pos(p.x + 1, p.y)) else None;
    var up := if p.y >= 1 && Clear(g[p.y - 1][p.x]) then Some(Pos(p.x, p.y - 1)) else None;
    var down := if p.y + 1 < |g| && Clear(g[p.y + 1][p.x]) then Some(Pos(p.x, p.y + 1)) else None;
    var mid := if Clear(g[p.y][p.x]) then Some(p) else None;
    [left, right, up, down, mid]
  }

  /** The positions `new_pos` yields, its `None`s flattened away. */
  function Steps(g: seq<seq<Cell>>, w: nat, p: Pos): set<Pos>
    requires Walled(g, w) && Inside(g, w, p)
  {
    var moves := NewPos(g, w, p);
    set i | 0 <= i < 5 && moves[i].Some? :: moves[i].value
  }

  /** From `p` the expedition can be next exactly on the clear cells among `p`
      and its neighbours, and these lie inside the side walls. */
  lemma StepsExact(g: seq<seq<Cell>>, w: nat, p: Pos)
    requires Walled(g, w) && Inside(g, w, p)
    ensures forall q :: q in Steps(g, w, p) <==> Adjacent(p, q) && Open(g, w, q)
    ensures forall q :: q in Steps(g, w, p) ==> Inside(g, w, q)
  {
    var moves := NewPos(g, w, p);
    forall q | Adjacent(p, q) && Open(g, w, q) ensures q in Steps(g, w, p) {
      var i := if q.x + 1 == p.x then 0 else if q.x == p.x + 1 then 1
        else if q.y + 1 == p.y then 2 else if q.y == p.y + 1 then 3 else 4;
      assert moves[i] == Some(q);
    }
  }

  /** One minute of moves from all of `positions` (the fold into a new set):
      the expedition can then be on exactly the clear cells next to, or at, a
      cell it could be on before. */
  function Expand(g: seq<seq<Cell>>, w: nat, positions: set<Pos>): (r: set<Pos>)
    requires Walled(g, w) && forall p :: p in positions ==> Inside(g, w, p)
    ensures forall q :: q in r <==> Open(g, w, q) && exists p :: p in positions && Adjacent(p, q)
    ensures forall q :: q in r ==> Inside(g, w, q)
  {
    var r := set p, q | p in positions && q in Steps(g, w, p) :: q;
    assert forall p :: p in positions ==>
      (forall q :: q in Steps(g, w, p) <==> Adjacent(p, q) && Open(g, w, q)) &&
      (forall q :: q in Steps(g, w, p) ==> Inside(g, w, q)) by {
      forall p | p in positions {
        StepsExact(g, w, p);
      }
    }
    r
  }

  lemma ExpandAdd(g: seq<seq<Cell>>, w: nat, done: set<Pos>, p: Pos)
    requires Walled(g, w) && Inside(g, w, p) && forall q :: q in done ==> Inside(g, w, q)
    ensures Expand(g, w, done + {p}) == Expand(g, w, done) + Steps(g, w, p)
  {
  }

  /** The fold of `find_path`: every position's moves gathered into one set. */
  method Spread(g: seq<seq<Cell>>, w: nat, positions: set<Pos>) returns (next: set<Pos>)
    requires Walled(g, w) && forall p :: p in positions ==> Inside(g, w, p)
    ensures next == Expand(g, w, positions)
  {
    next := {};
    var rest := positions;
    while rest != {}
      invariant rest <= positions
      invariant next == Expand(g, w, positions - rest)
      decreases |rest|
    {
      var p :| p in rest;
      ExpandAdd(g, w, positions - rest, p);
      var moves := NewPos(g, w, p);
      next := next + set i | 0 <= i < 5 && moves[i].Some? :: moves[i].value;
      assert positions - rest + {p} == positions - (rest - {p});
      rest := rest - {p};
    }
    assert positions - rest == positions;
  }

  /** The valley after `k` ticks. */
  function Ticks(g: seq<seq<Cell>>, w: nat, k: nat): (r: seq<seq<Cell>>)
    requires Walled(g, w)
    ensures Walled(r, w) && |r| == |g|
  {
    if k == 0 then g else Ticked(Ticks(g, w, k - 1), w)
  }

  /** Where the expedition that set out from `from` can be at the start of
      minute `k`: minute `k`'s moves are made in the valley after `k` ticks.
      (Empty for a valley without walls or a start outside them.) */
  function Reached(g: seq<seq<Cell>>, w: nat, from: Pos, k: nat): (r: set<Pos>)
    ensures Walled(g, w) && Inside(g, w, from) ==> forall q :: q in r ==> Inside(g, w, q)
  {
    if !Walled(g, w) || !Inside(g, w, from) then {}
    else if k == 0 then {from}
    else
      var before := Reached(g, w, from, k - 1);
      Expand(Ticks(g, w, k - 1), w, before)
  }

  /** `Reached` as a function of the minute. */
  function ReachedAt(g: seq<seq<Cell>>, w: nat, from: Pos): nat -> set<Pos> {
    (k: nat) => Reached(g, w, from, k)
  }

  /** `goal` is in none of the sets `reached(1)` to `reached(m)`. */
  predicate Absent(reached: nat -> set<Pos>, goal: Pos, m: nat) {
    forall k :: 1 <= k <= m ==> goal !in reached(k)
  }

  /** A set that holds `goal` comes after the first `m`. */
  lemma AbsentBelow(reached: nat -> set<Pos>, goal: Pos, m: nat, k: nat)
    requires Absent(reached, goal, m) && k >= 1 && goal in reached(k)
    ensures m < k
  {
  }

  lemma AbsentNext(reached: nat -> set<Pos>, goal: Pos, m: nat)
    requires Absent(reached, goal, m) && goal !in reached(m + 1)
    ensures Absent(reached, goal, m + 1)
  {
  }

  /** One more minute of `Reached`. */
  lemma ReachedNext(g: seq<seq<Cell>>, w: nat, from: Pos, k: nat)
    requires Walled(g, w) && Inside(g, w, from)
    ensures Reached(g, w, from, k + 1) == Expand(Ticks(g, w, k), w, Reached(g, w, from, k))
  {
  }

  /** `reached(m + 1)` is the first of the sets from `reached(1)` on that holds `goal`. */
  predicate FirstIn(reached: nat -> set<Pos>, goal: Pos, m: nat) {
    goal in reached(m + 1) && Absent(reached, goal, m)
  }

  /** The first set holding `goal` is unique, and none holds it if the first
      `limit + 1` do not. */
  lemma FirstInUnique(reached: nat -> set<Pos>, goal: Pos, m: nat, m': nat, limit: nat)
    requires FirstIn(reached, goal, m)
    ensures FirstIn(reached, goal, m') ==> m == m'
    ensures Absent(reached, goal, limit + 1) ==> limit < m
  {
    if FirstIn(reached, goal, m') {
      AbsentBelow(reached, goal, m, m' + 1);
      AbsentBelow(reached, goal, m', m + 1);
    }
    if Absent(reached, goal, limit + 1) {
      AbsentBelow(reached, goal, limit + 1, m + 1);
    }
  }

  /** Minute `m` is the first whose moves bring the expedition to `goal`. */
  predicate Arrives(g: seq<seq<Cell>>, w: nat, from: Pos, goal: Pos, m: nat) {
    FirstIn(ReachedAt(g, w, from), goal, m)
  }

  /** No minute up to `limit` brings the expedition to `goal`. */
  predicate NoArrival(g: seq<seq<Cell>>, w: nat, from: Pos, goal: Pos, limit: nat) {
    Absent(ReachedAt(g, w, from), goal, limit + 1)
  }

  /** The arrival minute is unique, and arriving excludes not arriving. */
  lemma ArrivesUnique(g: seq<seq<Cell>>, w: nat, from: Pos, goal: Pos, m: nat, m': nat, limit: nat)
    requires Arrives(g, w, from, goal, m)
    ensures Arrives(g, w, from, goal, m') ==> m == m'
    ensures NoArrival(g, w, from, goal, limit) ==> limit < m
  {
    FirstInUnique(ReachedAt(g, w, from), goal, m, m', limit);
  }

  /** The expedition never stands in a blizzard or a wall: after minute `k`'s
      moves it is on clear cells of the valley of that minute, each next to,
      or at, where it was before. */
  lemma ReachedSafe(g: seq<seq<Cell>>, w: nat, from: Pos, k: nat)
    requires Walled(g, w) && Inside(g, w, from)
    ensures forall q :: q in Reached(g, w, from, k + 1) <==>
      Open(Ticks(g, w, k), w, q) && exists p :: p in Reached(g, w, from, k) && Adjacent(p, q)
  {
  }

  /** The three crossings of `find_paths`, each starting in the valley the
      previous one left: `a` minutes from start to end, `b` back and `c` to
      the end again. */
  ghost predicate Trip(g: seq<seq<Cell>>, w: nat, start: Pos, end: Pos, a: nat, b: nat, c: nat)
    requires Walled(g, w)
  {
    Arrives(g, w, start, end, a) && Arrives(Ticks(g, w, a), w, end, start, b) &&
    Arrives(Ticks(Ticks(g, w, a), w, b), w, start, end, c)
  }

  /** One of the three crossings does not arrive within `limit` minutes. */
  ghost predicate Stuck(g: seq<seq<Cell>>, w: nat, start: Pos, end: Pos, limit: nat)
    requires Walled(g, w)
  {
    NoArrival(g, w, start, end, limit) ||
    exists a: nat :: Arrives(g, w, start, end, a) &&
      (NoArrival(Ticks(g, w, a), w, end, start, limit) ||
       exists b: nat :: Arrives(Ticks(g, w, a), w, end, start, b) &&
         NoArrival(Ticks(Ticks(g, w, a), w, b), w, start, end, limit))
  }

  /** The valley with its entrance, its exit and its width; `tick` replaces
      the grid by the next minute's. */
  class Field {
    var field: seq<seq<Cell>>
    const start: Pos
    const end: Pos
    const width: nat

    /** The grid is walled and both ends lie inside the side walls. */
    predicate Valid()
      reads this
    {
      Walled(field, width) && Inside(field, width, start) && Inside(field, width, end)
    }

    constructor (field: seq<seq<Cell>>, start: Pos, end: Pos, width: nat)
      requires Walled(field, width) && Inside(field, width, start) && Inside(field, width, end)
      ensures Valid()
      ensures this.field == field && this.start == start && this.end == end && this.width == width
    {
      this.field := field;
      this.start := start;
      this.end := end;
      this.width := width;
    }

    /** `tick`: build the next minute's grid row by row and cell by cell. */
    method Tick()
      requires Valid()
      modifies this
      ensures Valid() && field == Ticked(old(field), width)
    {
      var g := field;
      var rows := [g[0]];
      var y := 1;
      while y < |g| - 1
        invariant 1 <= y <= |g| - 1 && |rows| == y && rows[0] == g[0]
        invariant forall i :: 1 <= i < y ==> rows[i] == TickedRow(g, width, i)
      {
        var row := [Wall];
        var x := 1;
        while x < width - 1
          invariant 1 <= x <= width - 1 && |row| == x && row[0] == Wall
          invariant forall i :: 1 <= i < x ==> row[i] == Blizzards(Find(g, width, i, y))
        {
          row := row + [Blizzards(Find(g, width, x, y))];
          x := x + 1;
        }
        row := row + [Wall];
        BuiltRow(g, width, y, row);
        rows := rows + [row];
        y := y + 1;
      }
      rows := rows + [g[|g| - 1]];
      BuiltRows(g, width, rows);
      field := rows;
    }

    /** One crossing, as in `find_path`: from the positions so far make a
        minute of moves, stop if `goal` is among them, otherwise tick and go on.
        The source loops until it arrives; here at most `limit + 1` minutes are
        tried and `None` says that none of them arrived. */
    method Leg(from: Pos, goal: Pos, limit: nat) returns (r: Option<nat>)
      requires Valid() && Inside(field, width, from)
      modifies this
      ensures Valid()
      ensures r.Some? ==> r.value <= limit && Arrives(old(field), width, from, goal, r.value)
      ensures r.Some? ==> field == Ticks(old(field), width, r.value)
      ensures r.None? ==> NoArrival(old(field), width, from, goal, limit)
    {
      ghost var initial := field;
      var positions := {from};
      var minutes := 0;
      while true
        invariant Valid() && minutes <= limit && |field| == |initial|
        invariant Walled(initial, width) && Inside(initial, width, from)
        invariant field == Ticks(initial, width, minutes)
        invariant positions == Reached(initial, width, from, minutes)
        invariant Absent(ReachedAt(initial, width, from), goal, minutes)
        decreases limit - minutes
      {
        positions := Spread(field, width, positions);
        ReachedNext(initial, width, from, minutes);
        assert positions == Reached(initial, width, from, minutes + 1);
        if goal in positions {
          return Some(minutes);
        }
        AbsentNext(ReachedAt(initial, width, from), goal, minutes);
        if minutes == limit {
          return None;
        }
        Tick();
        minutes := minutes + 1;
      }
    }

    /** `find_path`: one crossing from the entrance to the exit. */
    method FindPath(limit: nat) returns (r: Option<nat>)
      requires Valid()
      modifies this
      ensures Valid()
      ensures r.Some? ==> Arrives(old(field), width, start, end, r.value)
      ensures r.None? ==> NoArrival(old(field), width, start, end, limit)
    {
      r := Leg(start, end, limit);
    }

    /** `find_paths`: to the exit, back to the entrance and to the exit again,
        the valley moving on throughout; the answer is the sum of the three. */
    method FindPaths(limit: nat) returns (r: Option<nat>)
      requires Valid()
      modifies this
      ensures Valid()
      ensures r.Some? ==> exists a: nat, b: nat, c: nat :: r.value == a + b + c && Trip(old(field), width, start, end, a, b, c)
      ensures r.None? ==> Stuck(old(field), width, start, end, limit)
    {
      ghost var initial := field;
      var first := Leg(start, end, limit);
      if first.None? {
        return None;
      }
      ghost var g1 := field;
      var back := Leg(end, start, limit);
      if back.None? {
        assert Arrives(initial, width, start, end, first.value) && NoArrival(g1, width, end, start, limit);
        return None;
      }
      ghost var g2 := field;
      var again := Leg(start, end, limit);
      if again.None? {
        assert Arrives(initial, width, start, end, first.value) && Arrives(g1, width, end, start, back.value) &&
          NoArrival(g2, width, start, end, limit);
        return None;
      }
      assert Trip(initial, width, start, end, first.value, back.value, again.value);
      r := Some(first.value + back.value + again.value);
    }
  }

  /** `parse`: the grid, the first clear cell of the top row as the entrance,
      the first clear cell of the bottom row as the exit, and the length of
      the top row as the width. `None` where the source panics: a character
      other than the six, no rows, or no clear cell in the top or bottom row. */
  function ParseField(lines: seq<string>): (r: Option<(seq<seq<Cell>>, Pos, Pos, nat)>)
    ensures r.None? <==> (ParseRows(lines).None? || |lines| == 0 ||
      '.' !in lines[0] || '.' !in lines[|lines| - 1])
    ensures r.Some? ==> var (g, s, e, w) := r.value;
      |g| == |lines| && w == |lines[0]| && s.y == 0 && e.y == |g| - 1 &&
      s.x < |lines[0]| && lines[0][s.x] == '.' && (forall i :: 0 <= i < s.x ==> lines[0][i] != '.') &&
      e.x < |lines[e.y]| && lines[e.y][e.x] == '.' && (forall i :: 0 <= i < e.x ==> lines[e.y][i] != '.')
  {
    match ParseRows(lines)
    case None => None
    case Some(g) =>
      if |g| == 0 then None
      else
        ClearIsDot(lines[0], g[0]);
        ClearIsDot(lines[|g| - 1], g[|g| - 1]);
        match (FirstClear(g[0]), FirstClear(g[|g| - 1]))
        case (Some(s), Some(e)) => Some((g, Pos(s, 0), Pos(e, |g| - 1), |g[0]|))
        case _ => None
  }

  /** In a parsed row the clear cells are the '.' characters. */
  lemma ClearIsDot(line: string, row: seq<Cell>)
    requires ParseRow(line) == Some(row)
    ensures forall i :: 0 <= i < |row| ==> (Clear(row[i]) <==> line[i] == '.')
  {
    forall i | 0 <= i < |row| ensures Clear(row[i]) <==> line[i] == '.' {
      ParseCellMeaning(line[i]);
    }
  }

  /** A clear cell of a walled valley lies inside the side walls. */
  lemma ClearInside(g: seq<seq<Cell>>, w: nat, p: Pos)
    requires Walled(g, w) && p.y < |g| && p.x < w && Clear(g[p.y][p.x])
    ensures Inside(g, w, p)
  {
  }

  /** `process1`: the minutes of one crossing, for a walled valley; `None`
      where the source panics or does not arrive within `limit` minutes. */
  method ProcessOne(lines: seq<string>, limit: nat) returns (r: Option<nat>)
    ensures ParseField(lines).None? ==> r.None?
    ensures r.Some? ==> (ParseField(lines).Some? &&
      var (g, s, e, w) := ParseField(lines).value; Walled(g, w) && Arrives(g, w, s, e, r.value))
    ensures r.None? ==> (ParseField(lines).None? ||
      var (g, s, e, w) := ParseField(lines).value; !Walled(g, w) || NoArrival(g, w, s, e, limit))
  {
    var parsed := ParseField(lines);
    if parsed.None? {
      return None;
    }
    var (g, s, e, w) := parsed.value;
    if !Walled(g, w) {
      return None;
    }
    ClearIsDot(lines[0], g[0]);
    ClearIsDot(lines[|g| - 1], g[|g| - 1]);
    ClearInside(g, w, s);
    ClearInside(g, w, e);
    var field := new Field(g, s, e, w);
    r := field.FindPath(limit);
  }

  /** `process2`: the minutes of the three crossings. */
  method ProcessTwo(lines: seq<string>, limit: nat) returns (r: Option<nat>)
    ensures ParseField(lines).None? ==> r.None?
    ensures r.Some? ==> (ParseField(lines).Some? &&
      var (g, s, e, w) := ParseField(lines).value;
      Walled(g, w) && exists a: nat, b: nat, c: nat :: r.value == a + b + c && Trip(g, w, s, e, a, b, c))
    ensures r.None? ==> (ParseField(lines).None? ||
      var (g, s, e, w) := ParseField(lines).value; !Walled(g, w) || Stuck(g, w, s, e, limit))
  {
    var parsed := ParseField(lines);
    if parsed.None? {
      return None;
    }
    var (g, s, e, w) := parsed.value;
    if !Walled(g, w) {
      return None;
    }
    ClearIsDot(lines[0], g[0]);
    ClearIsDot(lines[|g| - 1], g[|g| - 1]);
    ClearInside(g, w, s);
    ClearInside(g, w, e);
    var field := new Field(g, s, e, w);
    r := field.FindPaths(limit);
  }
}
