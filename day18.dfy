/** Day 18: the surface of a lava droplet made of unit cubes. The cubes are marked
    in a cubic boolean matrix; part one counts the faces of every cube that touch
    air or the outside, part two floods the outside air from a corner and counts
    the cube faces it touches. */
module Day18 {
  import opened Wrappers
  import opened Visits

  datatype Cell = Cell(x: nat, y: nat, z: nat)

  type Matrix = seq<seq<seq<bool>>>

  /** Every row and every line has the matrix's side length. */
  predicate Cubic(m: Matrix) {
    forall x :: 0 <= x < |m| ==> |m[x]| == |m| && forall y :: 0 <= y < |m| ==> |m[x][y]| == |m|
  }

  predicate Inside(m: Matrix, c: Cell) {
    c.x < |m| && c.y < |m| && c.z < |m|
  }

  function Solid(m: Matrix, c: Cell): bool
    requires Cubic(m) && Inside(m, c)
  {
    m[c.x][c.y][c.z]
  }

  /** The six neighbours in the source's order, +x, -x, +y, -y, +z, -z; `None`
      where the neighbour lies outside the matrix. */
  function Sides(m: Matrix, c: Cell): (r: seq<Option<Cell>>)
    ensures |r| == 6
    ensures forall i :: 0 <= i < 6 && r[i].Some? ==> Inside(m, r[i].value)
    ensures forall i, j :: 0 <= i < j < 6 && r[i].Some? && r[j].Some? ==> r[i] != r[j]
  {
    [ if c.x + 1 < |m| && c.y < |m| && c.z < |m| then Some(Cell(c.x + 1, c.y, c.z)) else None,
      if 0 < c.x <= |m| && c.y < |m| && c.z < |m| then Some(Cell(c.x - 1, c.y, c.z)) else None,
      if c.x < |m| && c.y + 1 < |m| && c.z < |m| then Some(Cell(c.x, c.y + 1, c.z)) else None,
      if c.x < |m| && 0 < c.y <= |m| && c.z < |m| then Some(Cell(c.x, c.y - 1, c.z)) else None,
      if c.x < |m| && c.y < |m| && c.z + 1 < |m| then Some(Cell(c.x, c.y, c.z + 1)) else None,
      if c.x < |m| && c.y < |m| && 0 < c.z <= |m| then Some(Cell(c.x, c.y, c.z - 1)) else None ]
  }

  /** One face: 1 when the neighbour beyond it is outside the matrix or empty. */
  function Face(m: Matrix, side: Option<Cell>): nat
    requires Cubic(m) && (side.Some? ==> Inside(m, side.value))
  {
    match side
    case None => 1
    case Some(b) => if Solid(m, b) then 0 else 1
  }

  /** The faces among `sides` open to air or to the outside. */
  function OpenFaces(m: Matrix, sides: seq<Option<Cell>>): nat
    requires Cubic(m) && forall i :: 0 <= i < |sides| && sides[i].Some? ==> Inside(m, sides[i].value)
  {
    if sides == [] then 0 else Face(m, sides[0]) + OpenFaces(m, sides[1..])
  }

  /** `check_sides`: the faces of `c` open to air or to the outside, one per
      neighbour. */
  function CheckSides(m: Matrix, c: Cell): nat
    requires Cubic(m) && Inside(m, c)
  {
    OpenFaces(m, Sides(m, c))
  }

  /** How many of `sides` are solid cells. */
  function SolidAmong(m: Matrix, sides: seq<Option<Cell>>): nat
    requires Cubic(m) && forall i :: 0 <= i < |sides| && sides[i].Some? ==> Inside(m, sides[i].value)
  {
    if sides == [] then 0
    else (if sides[0].Some? && Solid(m, sides[0].value) then 1 else 0) + SolidAmong(m, sides[1..])
  }

  /** The solid neighbours of `c`: the cube faces that touch it. */
  function Contacts(m: Matrix, c: Cell): nat
    requires Cubic(m) && Inside(m, c)
  {
    SolidAmong(m, Sides(m, c))
  }

  /** Each side is either an open face or a solid neighbour. */
  lemma {:induction false} FacesOrSolid(m: Matrix, sides: seq<Option<Cell>>)
    requires Cubic(m) && forall i :: 0 <= i < |sides| && sides[i].Some? ==> Inside(m, sides[i].value)
    ensures OpenFaces(m, sides) + SolidAmong(m, sides) == |sides|
  {
    if sides != [] {
      FacesOrSolid(m, sides[1..]);
    }
  }

  /** The open faces and the solid neighbours together make the six faces. */
  lemma CheckSidesContacts(m: Matrix, c: Cell)
    requires Cubic(m) && Inside(m, c)
    ensures CheckSides(m, c) + Contacts(m, c) == 6
    ensures CheckSides(m, c) <= 6
  {
    FacesOrSolid(m, Sides(m, c));
  }

  // Part one.

  /** The open faces of the solid cells on line (x, y) with z below `k`. */
  function LineArea(m: Matrix, x: nat, y: nat, k: nat): nat
    requires Cubic(m) && x < |m| && y < |m| && k <= |m|
  {
    if k == 0 then 0
    else LineArea(m, x, y, k - 1) + (if m[x][y][k - 1] then CheckSides(m, Cell(x, y, k - 1)) else 0)
  }

  function PlaneArea(m: Matrix, x: nat, j: nat): nat
    requires Cubic(m) && x < |m| && j <= |m|
  {
    if j == 0 then 0 else PlaneArea(m, x, j - 1) + LineArea(m, x, j - 1, |m|)
  }

  function BlockArea(m: Matrix, i: nat): nat
    requires Cubic(m) && i <= |m|
  {
    if i == 0 then 0 else BlockArea(m, i - 1) + PlaneArea(m, i - 1, |m|)
  }

  /** The surface area: the open faces of every solid cell. */
  function Area(m: Matrix): nat
    requires Cubic(m)
  {
    BlockArea(m, |m|)
  }

  /** `count_sides`: the nested loops over the matrix add `check_sides` of every
      solid cell. */
  method CountSides(m: Matrix) returns (sum: nat)
    requires Cubic(m)
    ensures sum == Area(m)
  {
    sum := 0;
    var i := 0;
    while i < |m|
      invariant 0 <= i <= |m|
      invariant sum == BlockArea(m, i)
    {
      var j := 0;
      while j < |m|
        invariant 0 <= j <= |m|
        invariant sum == BlockArea(m, i) + PlaneArea(m, i, j)
      {
        var k := 0;
        while k < |m|
          invariant 0 <= k <= |m|
          invariant sum == BlockArea(m, i) + PlaneArea(m, i, j) + LineArea(m, i, j, k)
        {
          if m[i][j][k] {
            sum := sum + CheckSides(m, Cell(i, j, k));
          }
          k := k + 1;
        }
        j := j + 1;
      }
      i := i + 1;
    }
  }

  // Building the matrix.

  /** Cell `c` holds a cube of `cubes` moved by `shift` along every axis. */
  predicate Placed(c: Cell, cubes: seq<Cell>, shift: nat) {
    c.x >= shift && c.y >= shift && c.z >= shift && Cell(c.x - shift, c.y - shift, c.z - shift) in cubes
  }

  /** The matrix of side `n` with the cubes moved by `shift`. */
  function Filled(cubes: seq<Cell>, n: nat, shift: nat): (m: Matrix)
    ensures |m| == n && Cubic(m)
    ensures forall c :: Inside(m, c) ==> (Solid(m, c) <==> Placed(c, cubes, shift))
  {
    seq(n, x requires 0 <= x < n =>
      seq(n, y requires 0 <= y < n =>
        seq(n, z requires 0 <= z < n => Placed(Cell(x, y, z), cubes, shift))))
  }

  /** Two cubic matrices of one side that agree on every cell are equal. */
  lemma SameMatrix(a: Matrix, b: Matrix)
    requires Cubic(a) && Cubic(b) && |a| == |b|
    requires forall c :: Inside(a, c) ==> Solid(a, c) == Solid(b, c)
    ensures a == b
  {
    forall x | 0 <= x < |a| ensures a[x] == b[x] {
      forall y | 0 <= y < |a| ensures a[x][y] == b[x][y] {
        forall z | 0 <= z < |a| ensures a[x][y][z] == b[x][y][z] {
          assert Inside(a, Cell(x, y, z));
        }
      }
    }
  }

  /** The largest coordinate of any cube (the `max` over every parsed number). */
  function MaxCoord(cubes: seq<Cell>): (r: nat)
    requires cubes != []
    ensures forall c :: c in cubes ==> c.x <= r && c.y <= r && c.z <= r
    ensures exists c :: c in cubes && (r == c.x || r == c.y || r == c.z)
  {
    var c := cubes[|cubes| - 1];
    var top := if c.x >= c.y && c.x >= c.z then c.x else if c.y >= c.z then c.y else c.z;
    if |cubes| == 1 then top
    else
      var rest := MaxCoord(cubes[..|cubes| - 1]);
      assert forall d :: d in cubes ==> d in cubes[..|cubes| - 1] || d == c;
      if rest >= top then rest else top
  }

  /** The `vec!` of `false` and the `for_each` that sets the cell of every cube. */
  method Fill(cubes: seq<Cell>, n: nat, shift: nat) returns (m: Matrix)
    requires forall c :: c in cubes ==> c.x + shift < n && c.y + shift < n && c.z + shift < n
    ensures m == Filled(cubes, n, shift)
  {
    m := seq(n, x => seq(n, y => seq(n, z => false)));
    var k := 0;
    while k < |cubes|
      invariant 0 <= k <= |cubes|
      invariant |m| == n && Cubic(m)
      invariant forall c :: Inside(m, c) ==> (Solid(m, c) <==> Placed(c, cubes[..k], shift))
    {
      var t := Cell(cubes[k].x + shift, cubes[k].y + shift, cubes[k].z + shift);
      assert cubes[..k + 1] == cubes[..k] + [cubes[k]];
      ghost var prev := m;
      m := m[t.x := m[t.x][t.y := m[t.x][t.y][t.z := true]]];
      forall c | Inside(m, c) ensures Solid(m, c) <==> Placed(c, cubes[..k + 1], shift) {
        if c != t {
          assert Solid(m, c) == Solid(prev, c);
        }
      }
      k := k + 1;
    }
    assert cubes[..k] == cubes;
    SameMatrix(m, Filled(cubes, n, shift));
  }

  /** `proccess_one`: the surface area of the cubes in a matrix of side
      `max + 1`. `None` where the source panics: no cubes (`max` of nothing). */
  method ProcessOne(cubes: seq<Cell>) returns (r: Option<nat>)
    ensures r.None? <==> cubes == []
    ensures r.Some? ==> r.value == Area(Filled(cubes, MaxCoord(cubes) + 1, 0))
  {
    if cubes == [] {
      return None;
    }
    var m := Fill(cubes, MaxCoord(cubes) + 1, 0);
    var sum := CountSides(m);
    return Some(sum);
  }

  // Part two.

  /** A step of the flood: to an empty neighbour. */
  predicate AirStep(m: Matrix, a: Cell, b: Cell) {
    Cubic(m) && Inside(m, b) && Some(b) in Sides(m, a) && !Solid(m, b)
  }

  /** The empty, unvisited neighbours among `sides`, in order. */
  function Open(m: Matrix, sides: seq<Option<Cell>>, visited: set<Cell>): (r: seq<Cell>)
    requires Cubic(m) && forall i :: 0 <= i < |sides| && sides[i].Some? ==> Inside(m, sides[i].value)
    ensures forall b :: b in r <==> Some(b) in sides && Inside(m, b) && !Solid(m, b) && b !in visited
    ensures (forall i, j :: 0 <= i < j < |sides| && sides[i].Some? && sides[j].Some? ==> sides[i] != sides[j]) ==>
            forall i, j :: 0 <= i < j < |r| ==> r[i] != r[j]
  {
    if sides == [] then []
    else
      var rest := Open(m, sides[1..], visited);
      assert forall b :: Some(b) in sides <==> Some(b) == sides[0] || Some(b) in sides[1..];
      if sides[0].Some? && !Solid(m, sides[0].value) && sides[0].value !in visited then [sides[0].value] + rest
      else rest
  }

  /** `visit_sides`: the neighbours the flood may enter and has not visited,
      without repeats. */
  function VisitSides(m: Matrix, c: Cell, visited: set<Cell>): (r: seq<Cell>)
    requires Cubic(m)
    ensures forall b :: b in r <==> AirStep(m, c, b) && b !in visited
    ensures forall i, j :: 0 <= i < j < |r| ==> r[i] != r[j]
  {
    Open(m, Sides(m, c), visited)
  }

  /** `c` is reached from `s` in at most `k` steps through empty cells. */
  ghost predicate Within(m: Matrix, s: Cell, c: Cell, k: nat)
    decreases k
  {
    if k == 0 then c == s
    else Within(m, s, c, k - 1) || exists a :: Within(m, s, a, k - 1) && AirStep(m, a, c)
  }

  ghost predicate Reachable(m: Matrix, s: Cell, c: Cell) {
    exists k: nat :: Within(m, s, c, k)
  }

  predicate Distinct(cells: seq<Cell>) {
    forall i, j :: 0 <= i < j < |cells| ==> cells[i] != cells[j]
  }

  function Members(cells: seq<Cell>): set<Cell> {
    set c | c in cells
  }

  /** The solid neighbours of every cell of `cells`, added up. */
  function SumContacts(m: Matrix, cells: seq<Cell>): nat
    requires Cubic(m) && forall c :: c in cells ==> Inside(m, c)
  {
    if cells == [] then 0
    else SumContacts(m, cells[..|cells| - 1]) + Contacts(m, cells[|cells| - 1])
  }

  /** `order` lists every cell reachable from `s`, each once. */
  ghost predicate Enumerates(m: Matrix, s: Cell, order: seq<Cell>) {
    Distinct(order) && forall c :: c in order <==> Reachable(m, s, c)
  }

  ghost predicate Flooding(m: Matrix, s: Cell, visited: set<Cell>, q: seq<Cell>, done: seq<Cell>) {
    Cubic(m) && s in visited && visited == Members(done) + Members(q) && Distinct(done + q) &&
    (forall c :: c in visited ==> Inside(m, c) && Reachable(m, s, c)) &&
    Closed(m, done, visited)
  }

  /** Every flood step out of a processed cell lands in `visited`. */
  ghost predicate Closed(m: Matrix, done: seq<Cell>, visited: set<Cell>) {
    forall a, b :: a in done && AirStep(m, a, b) ==> b in visited
  }

  lemma FloodStarts(m: Matrix, s: Cell)
    requires Cubic(m) && Inside(m, s)
    ensures Flooding(m, s, {s}, [s], [])
  {
    assert Within(m, s, s, 0);
    assert [] + [s] == [s];
    assert Members([s]) == {s};
  }

  /** Moving the front of the queue to the processed cells and queueing `next`
      keeps the visited set their union and every cell listed once. */
  lemma FloodSets(visited: set<Cell>, q: seq<Cell>, done: seq<Cell>, next: seq<Cell>,
                  visited': set<Cell>, q': seq<Cell>, done': seq<Cell>)
    requires visited == Members(done) + Members(q) && Distinct(done + q) && q != []
    requires Distinct(next) && forall b :: b in next ==> b !in visited
    requires visited' == visited + Members(next) && q' == q[1..] + next && done' == done + [q[0]]
    ensures visited' == Members(done') + Members(q') && Distinct(done' + q')
  {
    assert done' + q' == (done + q) + next;
    assert Members(done') + Members(q') == Members(done) + Members(q) + Members(next) by {
      assert q == [q[0]] + q[1..];
      assert forall c :: c in q <==> c == q[0] || c in q[1..];
    }
    forall i, j | 0 <= i < j < |done' + q'| ensures (done' + q')[i] != (done' + q')[j] {
      var all := done + q;
      if j >= |all| {
        if i < |all| {
          assert all[i] in visited;
        }
      }
    }
  }

  /** Cells queued from a reachable cell are reachable and inside. */
  lemma FloodReach(m: Matrix, s: Cell, visited: set<Cell>, p: Cell, next: seq<Cell>, visited': set<Cell>)
    requires Cubic(m) && p in visited && forall c :: c in visited ==> Inside(m, c) && Reachable(m, s, c)
    requires forall b :: b in next ==> AirStep(m, p, b)
    requires visited' == visited + Members(next)
    ensures forall c :: c in visited' ==> Inside(m, c) && Reachable(m, s, c)
  {
    var k: nat :| Within(m, s, p, k);
    forall b | b in next ensures Inside(m, b) && Reachable(m, s, b) {
      assert Within(m, s, b, k + 1);
    }
  }

  /** Every step out of a processed cell stays inside the visited set. */
  lemma FloodClosed(m: Matrix, visited: set<Cell>, p: Cell, next: seq<Cell>, done: seq<Cell>,
                    visited': set<Cell>, done': seq<Cell>)
    requires Closed(m, done, visited)
    requires forall b :: AirStep(m, p, b) && b !in visited ==> b in next
    requires visited' == visited + Members(next) && done' == done + [p]
    ensures Closed(m, done', visited')
  {
  }

  lemma FloodStep(m: Matrix, s: Cell, visited: set<Cell>, q: seq<Cell>, done: seq<Cell>, next: seq<Cell>,
                  visited': set<Cell>, q': seq<Cell>, done': seq<Cell>)
    requires Flooding(m, s, visited, q, done) && q != []
    requires next == VisitSides(m, q[0], visited)
    requires visited' == visited + Members(next) && q' == q[1..] + next && done' == done + [q[0]]
    ensures Flooding(m, s, visited', q', done')
  {
    assert q[0] in visited;
    FloodSets(visited, q, done, next, visited', q', done');
    FloodReach(m, s, visited, q[0], next, visited');
    FloodClosed(m, visited, q[0], next, done, visited', done');
  }

  lemma {:induction false} ReachedDone(m: Matrix, s: Cell, visited: set<Cell>, done: seq<Cell>, c: Cell, k: nat)
    requires s in visited && Within(m, s, c, k)
    requires Closed(m, done, visited) && visited == Members(done)
    ensures c in visited
    decreases k
  {
    if k > 0 {
      if Within(m, s, c, k - 1) {
        ReachedDone(m, s, visited, done, c, k - 1);
      } else {
        var a :| Within(m, s, a, k - 1) && AirStep(m, a, c);
        ReachedDone(m, s, visited, done, a, k - 1);
      }
    }
  }

  /** With the queue empty, the processed cells are exactly the reachable ones. */
  lemma FloodDone(m: Matrix, s: Cell, visited: set<Cell>, done: seq<Cell>)
    requires Flooding(m, s, visited, [], done)
    ensures Enumerates(m, s, done)
  {
    assert done + [] == done;
    assert Members([]) == {};
    forall c | Reachable(m, s, c) ensures c in done {
      var k: nat :| Within(m, s, c, k);
      ReachedDone(m, s, visited, done, c, k);
    }
  }

  /** One cell of the full matrix. */
  function AllCells(n: nat): seq<Cell> {
    Block(n, n)
  }

  function Line(x: nat, y: nat, n: nat): seq<Cell> {
    seq(n, z requires 0 <= z < n => Cell(x, y, z))
  }

  function Plane(x: nat, n: nat, j: nat): seq<Cell> {
    if j == 0 then [] else Plane(x, n, j - 1) + Line(x, j - 1, n)
  }

  function Block(n: nat, i: nat): seq<Cell> {
    if i == 0 then [] else Block(n, i - 1) + Plane(i - 1, n, n)
  }

  lemma {:induction false} InPlane(x: nat, n: nat, j: nat, c: Cell)
    requires c.x == x && c.y < j && c.z < n
    ensures c in Plane(x, n, j)
  {
    if c.y < j - 1 {
      InPlane(x, n, j - 1, c);
    } else {
      assert Line(x, j - 1, n)[c.z] == c;
    }
  }

  lemma {:induction false} InBlock(n: nat, i: nat, c: Cell)
    requires c.x < i && c.y < n && c.z < n
    ensures c in Block(n, i)
  {
    if c.x < i - 1 {
      InBlock(n, i - 1, c);
    } else {
      InPlane(i - 1, n, n, c);
    }
  }

  lemma MembersSnoc(cells: seq<Cell>, k: nat)
    requires k < |cells|
    ensures Members(cells[..k + 1]) == Members(cells[..k]) + {cells[k]}
  {
    assert cells[..k + 1] == cells[..k] + [cells[k]];
  }

  /** Marks every cell of `next` visited and queues it, in order. */
  method Enqueue(visited: set<Cell>, q: seq<Cell>, next: seq<Cell>, ghost cells: seq<Cell>)
    returns (visited': set<Cell>, q': seq<Cell>)
    requires forall b :: b in next ==> b in cells && b !in visited
    requires Distinct(next)
    ensures visited' == visited + Members(next) && q' == q + next
    ensures Unseen(cells, visited') + |next| <= Unseen(cells, visited)
  {
    visited', q' := visited, q;
    var k := 0;
    while k < |next|
      invariant 0 <= k <= |next|
      invariant visited' == visited + Members(next[..k]) && q' == q + next[..k]
      invariant Unseen(cells, visited') + k <= Unseen(cells, visited)
    {
      var b := next[k];
      MembersSnoc(next, k);
      assert next[..k + 1] == next[..k] + [b];
      UnseenMark(cells, visited', b);
      visited' := visited' + {b};
      q' := q' + [b];
      k := k + 1;
    }
    assert next[..k] == next;
  }

  /** One round of `check_air_bubbles`: the front cell leaves the queue, its solid
      neighbours are counted, and its unvisited empty neighbours are marked and
      queued. */
  method Spread(m: Matrix, ghost s: Cell, visited: set<Cell>, q: seq<Cell>, ghost done: seq<Cell>, sum: nat)
    returns (visited': set<Cell>, q': seq<Cell>, ghost done': seq<Cell>, sum': nat)
    requires Flooding(m, s, visited, q, done) && q != [] && sum == SumContacts(m, done)
    ensures Flooding(m, s, visited', q', done') && sum' == SumContacts(m, done')
    ensures 2 * Unseen(AllCells(|m|), visited') + |q'| < 2 * Unseen(AllCells(|m|), visited) + |q|
  {
    var coord := q[0];
    assert coord in visited;
    CheckSidesContacts(m, coord);
    sum' := sum + (6 - CheckSides(m, coord));
    var next := VisitSides(m, coord, visited);
    ghost var cells := AllCells(|m|);
    forall b | b in next ensures b in cells {
      InBlock(|m|, |m|, b);
    }
    visited', q' := Enqueue(visited, q[1..], next, cells);
    done' := done + [coord];
    assert done'[..|done'| - 1] == done;
    FloodStep(m, s, visited, q, done, next, visited', q', done');
  }

  /** `check_air_bubbles`: floods the empty cells from the corner (0, 0, 0),
      marking each cell when it is queued, and adds up the solid neighbours of
      every cell it takes from the queue. Every cell reachable from the corner is
      taken exactly once. */
  method CheckAirBubbles(m: Matrix) returns (sum: nat)
    requires Cubic(m) && |m| > 0
    ensures exists order :: Enumerates(m, Cell(0, 0, 0), order) && (forall c :: c in order ==> Inside(m, c)) &&
              sum == SumContacts(m, order)
  {
    var start := Cell(0, 0, 0);
    var q := [start];
    var visited := {start};
    ghost var done: seq<Cell> := [];
    sum := 0;
    FloodStarts(m, start);
    while q != []
      invariant Flooding(m, start, visited, q, done) && sum == SumContacts(m, done)
      decreases 2 * Unseen(AllCells(|m|), visited) + |q|
    {
      visited, q, done, sum := Spread(m, start, visited, q, done, sum);
    }
    FloodDone(m, start, visited, done);
  }

  /** Part two's matrix: side `max + 3`, every cube moved one cell inwards. */
  function Padded(cubes: seq<Cell>): Matrix
    requires cubes != []
  {
    Filled(cubes, MaxCoord(cubes) + 3, 1)
  }

  /** The outer layer of part two's matrix is empty and every cube lies inside
      it, so the corner (0, 0, 0) is outside air. */
  lemma BorderIsAir(cubes: seq<Cell>, c: Cell)
    requires cubes != [] && Inside(Padded(cubes), c)
    requires var n := |Padded(cubes)|; c.x == 0 || c.y == 0 || c.z == 0 || c.x == n - 1 || c.y == n - 1 || c.z == n - 1
    ensures !Solid(Padded(cubes), c)
  {
  }

  /** Every cube of the input is a solid cell of part two's matrix. */
  lemma CubesPlaced(cubes: seq<Cell>, c: Cell)
    requires c in cubes
    ensures Inside(Padded(cubes), Cell(c.x + 1, c.y + 1, c.z + 1))
    ensures Solid(Padded(cubes), Cell(c.x + 1, c.y + 1, c.z + 1))
  {
  }

  /** `proccess_two`: the cube faces touched by the outside air. `None` where the
      source panics: no cubes. */
  method ProcessTwo(cubes: seq<Cell>) returns (r: Option<nat>)
    ensures r.None? <==> cubes == []
    ensures r.Some? ==>
      exists order :: Enumerates(Padded(cubes), Cell(0, 0, 0), order) &&
        (forall c :: c in order ==> Inside(Padded(cubes), c)) && r.value == SumContacts(Padded(cubes), order)
  {
    if cubes == [] {
      return None;
    }
    var m := Fill(cubes, MaxCoord(cubes) + 3, 1);
    assert m == Padded(cubes);
    var sum := CheckAirBubbles(m);
    return Some(sum);
  }
}
