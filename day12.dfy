/** Day 12: the fewest steps up a height map. The grid holds the input bytes, with
    `S` (the start) stored as 254 (`u8::MAX - 1`) and `E` (the goal) as 123
    (`b'z' + 1`). A step goes to one of the four neighbours in the grid whose height is
    at most one more than the current one; a breadth-first search counts the steps. */
module Day12 {
  import opened Wrappers
  import opened Arith
  import opened Visits

  const StartMark: nat := 254
  const EndMark: nat := 123
  const LowestMark: nat := 97

  /** The byte `build_grid` keeps for an input byte. */
  function Encode(b: nat): nat {
    if b == 'S' as nat then StartMark else if b == 'E' as nat then EndMark else b
  }

  type Grid = seq<seq<nat>>

  /** `build_grid`, with the input already split into lines of bytes. */
  function BuildGrid(lines: seq<seq<nat>>): (g: Grid)
    ensures |g| == |lines| && forall r :: 0 <= r < |g| ==> |g[r]| == |lines[r]|
    ensures forall r, c :: 0 <= r < |g| && 0 <= c < |g[r]| ==> g[r][c] == Encode(lines[r][c])
  {
    seq(|lines|, r requires 0 <= r < |lines| => seq(|lines[r]|, c requires 0 <= c < |lines[r]| => Encode(lines[r][c])))
  }

  /** Every row has the width of the first. */
  predicate Rect(g: Grid) {
    |g| > 0 && forall r :: 0 <= r < |g| ==> |g[r]| == |g[0]|
  }

  datatype Pos = Pos(row: nat, col: nat)

  predicate InGrid(g: Grid, p: Pos) {
    p.row < |g| && p.col < |g[p.row]|
  }

  function Height(g: Grid, p: Pos): nat
    requires InGrid(g, p)
  {
    g[p.row][p.col]
  }

  predicate IsEnd(g: Grid, p: Pos) {
    InGrid(g, p) && Height(g, p) == EndMark
  }

  /** The cells of an `h` by `w` grid, row by row. */
  function CellList(h: nat, w: nat): seq<Pos> {
    if h == 0 then [] else CellList(h - 1, w) + seq(w, c requires 0 <= c < w => Pos(h - 1, c))
  }

  lemma {:induction false} InCellList(h: nat, w: nat, p: Pos)
    requires p.row < h && p.col < w
    ensures p in CellList(h, w)
  {
    if p.row < h - 1 {
      InCellList(h - 1, w, p);
    } else {
      assert seq(w, c requires 0 <= c < w => Pos(h - 1, c))[p.col] == p;
    }
  }

  // Flat indices.

  function Flatten(g: Grid): seq<nat> {
    if g == [] then [] else Flatten(g[..|g| - 1]) + g[|g| - 1]
  }

  lemma {:induction false} FlatLength(g: Grid, w: nat)
    requires forall r :: 0 <= r < |g| ==> |g[r]| == w
    ensures |Flatten(g)| == |g| * w
  {
    if g != [] {
      var n := |g| - 1;
      FlatLength(g[..n], w);
      assert (n + 1) * w == n * w + w;
    }
  }

  /** In a grid of rows of width `w`, flat index `i` is row `i / w`, column `i % w`. */
  lemma {:induction false} FlatIndex(g: Grid, w: nat, i: nat)
    requires w > 0 && forall r :: 0 <= r < |g| ==> |g[r]| == w
    ensures |Flatten(g)| == |g| * w
    ensures i < |Flatten(g)| ==> i / w < |g| && Flatten(g)[i] == g[i / w][i % w]
  {
    FlatLength(g, w);
    if g != [] && i < |Flatten(g)| {
      var n := |g| - 1;
      var front := g[..n];
      var base := |Flatten(front)|;
      assert Flatten(g) == Flatten(front) + g[n];
      if i < base {
        FlatIndex(front, w, i);
        assert Flatten(g)[i] == Flatten(front)[i];
        assert front[i / w] == g[i / w];
      } else {
        FlatLength(front, w);
        DivModUnique(i, w, n, i - base);
      }
    }
  }

  /** The cell at a position has flat index `row * w + col`. */
  lemma CellIndex(g: Grid, p: Pos)
    requires Rect(g) && InGrid(g, p)
    ensures var w := |g[0]|; var i := p.row * w + p.col;
      i < |Flatten(g)| && i / w == p.row && i % w == p.col && Flatten(g)[i] == Height(g, p)
  {
    var w := |g[0]|;
    var i := p.row * w + p.col;
    DivModUnique(i, w, p.row, p.col);
    assert i < |g| * w by {
      assert (|g| - p.row) * w >= w by {
        MulAtLeast(|g| - p.row, w);
      }
      assert |g| * w == p.row * w + (|g| - p.row) * w;
    }
    FlatIndex(g, w, i);
  }

  /** The position of flat index `i` in rows of width `w`. */
  function FlatPos(i: nat, w: nat): Pos
    requires w > 0
  {
    Pos(i / w, i % w)
  }

  /** The first flat index at or after `from` that holds `mark`. */
  function FindFlat(flat: seq<nat>, mark: nat, from: nat): (r: Option<nat>)
    ensures r.None? <==> forall j :: from <= j < |flat| ==> flat[j] != mark
    ensures r.Some? ==> from <= r.value < |flat| && flat[r.value] == mark &&
                        forall j :: from <= j < r.value ==> flat[j] != mark
    decreases |flat| - from
  {
    if from >= |flat| then None
    else if flat[from] == mark then Some(from)
    else FindFlat(flat, mark, from + 1)
  }

  /** `find_start`: the first start cell in reading order. `None` where the source
      panics: no start cell (`unwrap`). */
  function FindStart(g: Grid): (r: Option<Pos>)
    requires Rect(g)
    ensures r.None? <==> forall p :: InGrid(g, p) ==> Height(g, p) != StartMark
    ensures r.Some? ==> InGrid(g, r.value) && Height(g, r.value) == StartMark
  {
    var w := |g[0]|;
    if w == 0 then None
    else match FindFlat(Flatten(g), StartMark, 0)
    case None =>
      forall p | InGrid(g, p) ensures Height(g, p) != StartMark {
        CellIndex(g, p);
      }
      None
    case Some(i) =>
      FlatIndex(g, w, i);
      assert InGrid(g, FlatPos(i, w)) && Height(g, FlatPos(i, w)) == StartMark;
      Some(FlatPos(i, w))
  }

  predicate Lowest(b: nat) {
    b == LowestMark || b == StartMark
  }

  /** The positions of the lowest cells among the first `n` flat indices. */
  function StartsUpTo(flat: seq<nat>, w: nat, n: nat): (r: seq<Pos>)
    requires n <= |flat| && w > 0
    ensures forall p :: p in r <==> exists i: nat :: i < n && Lowest(flat[i]) && p == FlatPos(i, w)
  {
    if n == 0 then []
    else
      var rest := StartsUpTo(flat, w, n - 1);
      var here := if Lowest(flat[n - 1]) then [FlatPos(n - 1, w)] else [];
      assert forall p :: p in rest + here <==> p in rest || p in here;
      rest + here
  }

  /** `start_positions`: every `a` or start cell, in reading order. */
  function StartPositions(g: Grid): (r: seq<Pos>)
    requires Rect(g)
    ensures forall p :: p in r <==> InGrid(g, p) && Lowest(Height(g, p))
  {
    if |g[0]| == 0 then []
    else
      var r := StartsUpTo(Flatten(g), |g[0]|, |Flatten(g)|);
      forall p ensures p in r <==> InGrid(g, p) && Lowest(Height(g, p)) {
        if p in r {
          StartSound(g, p);
        }
        if InGrid(g, p) && Lowest(Height(g, p)) {
          StartComplete(g, p);
        }
      }
      r
  }

  lemma StartSound(g: Grid, p: Pos)
    requires Rect(g) && |g[0]| > 0 && p in StartsUpTo(Flatten(g), |g[0]|, |Flatten(g)|)
    ensures InGrid(g, p) && Lowest(Height(g, p))
  {
    var w, flat := |g[0]|, Flatten(g);
    var i: nat :| i < |flat| && Lowest(flat[i]) && p == FlatPos(i, w);
    FlatIndex(g, w, i);
    assert p.row < |g| && |g[p.row]| == w;
    assert p.col < w;
    assert Height(g, p) == flat[i];
  }

  lemma StartComplete(g: Grid, p: Pos)
    requires Rect(g) && |g[0]| > 0 && InGrid(g, p) && Lowest(Height(g, p))
    ensures p in StartsUpTo(Flatten(g), |g[0]|, |Flatten(g)|)
  {
    CellIndex(g, p);
    var w := |g[0]|;
    var i := p.row * w + p.col;
    assert Lowest(Flatten(g)[i]) && p == FlatPos(i, w);
  }

  // Steps.

  /** The neighbours in the grid, in the source's order: left, right, up, down. */
  function Around(g: Grid, p: Pos): (r: seq<Pos>)
    requires Rect(g) && InGrid(g, p)
    ensures forall b :: b in r ==> InGrid(g, b)
    ensures forall i, j :: 0 <= i < j < |r| ==> r[i] != r[j]
  {
    (if p.col > 0 then [Pos(p.row, p.col - 1)] else []) +
    (if p.col + 1 < |g[0]| then [Pos(p.row, p.col + 1)] else []) +
    (if p.row > 0 then [Pos(p.row - 1, p.col)] else []) +
    (if p.row + 1 < |g| then [Pos(p.row + 1, p.col)] else [])
  }

  /** One step: to a neighbour at most one higher. */
  predicate Step(g: Grid, a: Pos, b: Pos) {
    Rect(g) && InGrid(g, a) && b in Around(g, a) && Height(g, b) <= Height(g, a) + 1
  }

  function Climbable(g: Grid, p: Pos, cands: seq<Pos>, visited: set<Pos>): (r: seq<Pos>)
    requires Rect(g) && InGrid(g, p) && forall b :: b in cands ==> InGrid(g, b)
    ensures forall b :: b in r <==> b in cands && Height(g, b) <= Height(g, p) + 1 && b !in visited
    ensures (forall i, j :: 0 <= i < j < |cands| ==> cands[i] != cands[j]) ==>
            forall i, j :: 0 <= i < j < |r| ==> r[i] != r[j]
  {
    if cands == [] then []
    else
      var rest := Climbable(g, p, cands[1..], visited);
      assert forall b :: b in cands[1..] ==> b in cands;
      if Height(g, cands[0]) <= Height(g, p) + 1 && cands[0] !in visited then [cands[0]] + rest else rest
  }

  /** `possible_steps`: the neighbours that may be stepped to and are not yet
      visited, without repeats. */
  function PossibleSteps(g: Grid, p: Pos, visited: set<Pos>): (r: seq<Pos>)
    requires Rect(g) && InGrid(g, p)
    ensures forall b :: b in r <==> Step(g, p, b) && b !in visited
    ensures forall b :: b in r ==> InGrid(g, b)
    ensures forall i, j :: 0 <= i < j < |r| ==> r[i] != r[j]
  {
    Climbable(g, p, Around(g, p), visited)
  }

  // Reachability.

  /** `v` can be reached from `s` in at most `n` steps. */
  ghost predicate Within(g: Grid, s: Pos, v: Pos, n: nat)
    decreases n
  {
    if n == 0 then v == s
    else Within(g, s, v, n - 1) || exists a :: Within(g, s, a, n - 1) && Step(g, a, v)
  }

  lemma {:induction false} WithinMono(g: Grid, s: Pos, v: Pos, n: nat, m: nat)
    requires n <= m && Within(g, s, v, n)
    ensures Within(g, s, v, m)
    decreases m - n
  {
    if n < m {
      assert Within(g, s, v, n + 1);
      WithinMono(g, s, v, n + 1, m);
    }
  }

  /** An end cell can be reached in at most `n` steps. */
  ghost predicate EndWithin(g: Grid, s: Pos, n: nat) {
    exists v :: IsEnd(g, v) && Within(g, s, v, n)
  }

  /** No end cell is nearer than `d` steps. */
  ghost predicate NotBefore(g: Grid, s: Pos, d: nat) {
    forall n: nat :: n < d ==> !EndWithin(g, s, n)
  }

  /** `d` is the fewest steps to an end cell. */
  ghost predicate Fewest(g: Grid, s: Pos, d: nat) {
    EndWithin(g, s, d) && NotBefore(g, s, d)
  }

  /** No end cell can be reached at all. */
  ghost predicate Unreached(g: Grid, s: Pos) {
    forall n: nat :: !EndWithin(g, s, n)
  }

  // The search.

  function Entries(q: seq<(Pos, nat)>): set<Pos> {
    set i | 0 <= i < |q| :: q[i].0
  }

  function Pushes(steps: seq<Pos>, d: nat): (r: seq<(Pos, nat)>)
    ensures |r| == |steps| && forall i :: 0 <= i < |r| ==> r[i] == (steps[i], d)
  {
    seq(|steps|, i requires 0 <= i < |steps| => (steps[i], d))
  }

  /** The step counts in the queue never fall from front to back, and differ by at
      most one. */
  ghost predicate Levels(q: seq<(Pos, nat)>) {
    forall i, j :: 0 <= i <= j < |q| ==> q[i].1 <= q[j].1 <= q[i].1 + 1
  }

  /** Each queued count is the exact distance of its cell. */
  ghost predicate Exact(g: Grid, s: Pos, q: seq<(Pos, nat)>) {
    forall i :: 0 <= i < |q| ==>
      Within(g, s, q[i].0, q[i].1) && (q[i].1 > 0 ==> !Within(g, s, q[i].0, q[i].1 - 1))
  }

  /** Every step out of a dequeued cell leads to a visited one. */
  ghost predicate Closed(g: Grid, done: set<Pos>, visited: set<Pos>) {
    forall a, b :: a in done && Step(g, a, b) ==> b in visited
  }

  /** Every cell as near as the front of the queue has been visited. */
  ghost predicate Frontier(g: Grid, s: Pos, q: seq<(Pos, nat)>, visited: set<Pos>) {
    q != [] ==> forall v :: Within(g, s, v, q[0].1) ==> v in visited
  }

  ghost predicate Searching(g: Grid, s: Pos, visited: set<Pos>, q: seq<(Pos, nat)>, done: set<Pos>) {
    Rect(g) && s in visited && (forall v :: v in visited ==> InGrid(g, v)) && visited == done + Entries(q) &&
    Levels(q) && Exact(g, s, q) && Closed(g, done, visited) && Frontier(g, s, q, visited) &&
    forall v :: v in done ==> !IsEnd(g, v)
  }

  lemma SearchStarts(g: Grid, s: Pos)
    requires Rect(g) && InGrid(g, s)
    ensures Searching(g, s, {s}, [(s, 0)], {})
  {
    assert [(s, 0)][0].0 == s;
    assert Entries([(s, 0)]) == {s};
  }

  /** The first dequeued end cell is at the fewest steps. */
  lemma SearchFound(g: Grid, s: Pos, visited: set<Pos>, q: seq<(Pos, nat)>, done: set<Pos>)
    requires Searching(g, s, visited, q, done) && q != [] && IsEnd(g, q[0].0)
    ensures Fewest(g, s, q[0].1)
  {
    forall n: nat, v | n < q[0].1 && Within(g, s, v, n) ensures !IsEnd(g, v) {
      NearerDequeued(g, s, visited, q, done, v, n);
    }
  }

  /** A cell nearer than the front of the queue has already been dequeued. */
  lemma NearerDequeued(g: Grid, s: Pos, visited: set<Pos>, q: seq<(Pos, nat)>, done: set<Pos>, v: Pos, n: nat)
    requires visited == done + Entries(q) && Levels(q) && Exact(g, s, q) && Frontier(g, s, q, visited)
    requires q != [] && n < q[0].1 && Within(g, s, v, n)
    ensures v in done
  {
    WithinMono(g, s, v, n, q[0].1);
    if v !in done {
      var i :| 0 <= i < |q| && q[i].0 == v;
      WithinMono(g, s, v, n, q[i].1 - 1);
    }
  }

  /** An empty queue means every reachable cell was dequeued, so no end cell is
      reachable. */
  lemma SearchExhausted(g: Grid, s: Pos, visited: set<Pos>, done: set<Pos>)
    requires Searching(g, s, visited, [], done)
    ensures Unreached(g, s)
  {
    assert visited == done;
    forall n: nat, v | Within(g, s, v, n) ensures v in done {
      ReachedDone(g, s, done, v, n);
    }
  }

  lemma {:induction false} ReachedDone(g: Grid, s: Pos, done: set<Pos>, v: Pos, n: nat)
    requires s in done && Closed(g, done, done) && Within(g, s, v, n)
    ensures v in done
    decreases n
  {
    if n > 0 {
      if Within(g, s, v, n - 1) {
        ReachedDone(g, s, done, v, n - 1);
      } else {
        var a :| Within(g, s, a, n - 1) && Step(g, a, v);
        ReachedDone(g, s, done, a, n - 1);
      }
    }
  }

  function Members(steps: seq<Pos>): set<Pos> {
    set b | b in steps
  }

  lemma StepLevels(q: seq<(Pos, nat)>, steps: seq<Pos>)
    requires Levels(q) && q != []
    ensures Levels(q[1..] + Pushes(steps, q[0].1 + 1))
  {
    var q' := q[1..] + Pushes(steps, q[0].1 + 1);
    forall i, j | 0 <= i <= j < |q'| ensures q'[i].1 <= q'[j].1 <= q'[i].1 + 1 {
      if j < |q| - 1 {
        assert q'[i] == q[i + 1] && q'[j] == q[j + 1];
      } else if i < |q| - 1 {
        assert q'[i] == q[i + 1];
      }
    }
  }

  lemma StepExact(g: Grid, s: Pos, q: seq<(Pos, nat)>, visited: set<Pos>, steps: seq<Pos>)
    requires Exact(g, s, q) && Frontier(g, s, q, visited) && q != []
    requires forall b :: b in steps ==> Step(g, q[0].0, b) && b !in visited
    ensures Exact(g, s, q[1..] + Pushes(steps, q[0].1 + 1))
  {
    var p, d := q[0].0, q[0].1;
    var q' := q[1..] + Pushes(steps, d + 1);
    forall i | 0 <= i < |q'|
      ensures Within(g, s, q'[i].0, q'[i].1) && (q'[i].1 > 0 ==> !Within(g, s, q'[i].0, q'[i].1 - 1))
    {
      if i < |q| - 1 {
        assert q'[i] == q[i + 1];
      } else {
        var b := steps[i - (|q| - 1)];
        assert q'[i] == (b, d + 1);
        assert Within(g, s, p, d) && Step(g, p, b);
      }
    }
  }

  lemma StepClosed(g: Grid, done: set<Pos>, visited: set<Pos>, p: Pos, steps: seq<Pos>)
    requires Closed(g, done, visited)
    requires forall b :: Step(g, p, b) && b !in visited ==> b in steps
    ensures Closed(g, done + {p}, visited + Members(steps))
  {
  }

  /** The frontier moves on with the front of the queue: a cell one step beyond
      the old front level comes from a cell that has been dequeued. */
  lemma StepFrontier(g: Grid, s: Pos, d: nat, q: seq<(Pos, nat)>, visited: set<Pos>, done: set<Pos>)
    requires forall v :: Within(g, s, v, d) ==> v in visited
    requires Levels(q) && Exact(g, s, q) && Closed(g, done, visited) && visited == done + Entries(q)
    requires q != [] ==> d <= q[0].1 <= d + 1
    ensures Frontier(g, s, q, visited)
  {
    if q != [] && q[0].1 == d + 1 {
      forall v | Within(g, s, v, d + 1) ensures v in visited {
        if !Within(g, s, v, d) {
          var a :| Within(g, s, a, d) && Step(g, a, v);
          if a !in done {
            var i :| 0 <= i < |q| && q[i].0 == a;
            WithinMono(g, s, a, d, q[i].1 - 1);
          }
        }
      }
    }
  }

  lemma EntriesAfter(q: seq<(Pos, nat)>, steps: seq<Pos>, d: nat)
    requires q != []
    ensures Entries(q) == {q[0].0} + Entries(q[1..])
    ensures Entries(q[1..] + Pushes(steps, d)) == Entries(q[1..]) + Members(steps)
  {
    var q' := q[1..] + Pushes(steps, d);
    assert forall i :: 1 <= i < |q| ==> q[i] == q[1..][i - 1];
    forall b | b in Entries(q') ensures b in Entries(q[1..]) + Members(steps) {
      var i :| 0 <= i < |q'| && q'[i].0 == b;
      if i < |q| - 1 {
        assert q'[i] == q[1..][i];
      } else {
        assert q'[i].0 == steps[i - (|q| - 1)];
      }
    }
    forall b | b in Members(steps) ensures b in Entries(q') {
      var k :| 0 <= k < |steps| && steps[k] == b;
      assert q'[|q| - 1 + k].0 == b;
    }
    forall b | b in Entries(q[1..]) ensures b in Entries(q') {
      var i :| 0 <= i < |q[1..]| && q[1..][i].0 == b;
      assert q'[i].0 == b;
    }
  }

  /** Moving the front of the queue to the dequeued cells and queueing `steps`
      keeps the visited set the union of the two. */
  lemma StepSets(visited: set<Pos>, q: seq<(Pos, nat)>, done: set<Pos>, steps: seq<Pos>, d: nat,
                 visited': set<Pos>, q': seq<(Pos, nat)>, done': set<Pos>)
    requires visited == done + Entries(q) && q != []
    requires visited' == visited + Members(steps) && q' == q[1..] + Pushes(steps, d) && done' == done + {q[0].0}
    ensures visited' == done' + Entries(q')
  {
    EntriesAfter(q, steps, d);
  }

  /** Dequeuing a cell that is not an end and queueing its possible steps one
      further keeps the search invariant. */
  /** The bookkeeping half of `SearchStep`: everything but the frontier. */
  lemma StepBooks(g: Grid, s: Pos, visited: set<Pos>, q: seq<(Pos, nat)>, done: set<Pos>, d: nat, steps: seq<Pos>,
                  visited': set<Pos>, q': seq<(Pos, nat)>, done': set<Pos>)
    requires Rect(g) && (forall v :: v in visited ==> InGrid(g, v)) && visited == done + Entries(q) && q != [] && InGrid(g, q[0].0)
    requires Levels(q) && Exact(g, s, q) && Closed(g, done, visited) && Frontier(g, s, q, visited)
    requires steps == PossibleSteps(g, q[0].0, visited)
    requires d == q[0].1
    requires visited' == visited + Members(steps) && q' == q[1..] + Pushes(steps, d + 1) && done' == done + {q[0].0}
    ensures visited' == done' + Entries(q') && forall v :: v in visited' ==> InGrid(g, v)
    ensures Levels(q') && Exact(g, s, q') && Closed(g, done', visited')
    ensures q' != [] ==> d <= q'[0].1 <= d + 1
  {
    var p := q[0].0;
    StepSets(visited, q, done, steps, d + 1, visited', q', done');
    StepLevels(q, steps);
    StepExact(g, s, q, visited, steps);
    StepClosed(g, done, visited, p, steps);
    if |q| > 1 {
      assert q'[0] == q[1];
    } else if q' != [] {
      assert q'[0] == (steps[0], d + 1);
    }
  }

  /** Dequeuing a cell that is not an end and queueing its possible steps one
      further keeps the search invariant. */
  lemma SearchStep(g: Grid, s: Pos, visited: set<Pos>, q: seq<(Pos, nat)>, done: set<Pos>, d: nat, steps: seq<Pos>,
                    visited': set<Pos>, q': seq<(Pos, nat)>, done': set<Pos>)
    requires Searching(g, s, visited, q, done)
    requires q != [] && d == q[0].1 && !IsEnd(g, q[0].0)
    requires steps == PossibleSteps(g, q[0].0, visited)
    requires visited' == visited + Members(steps)
    requires q' == q[1..] + Pushes(steps, d + 1)
    requires done' == done + {q[0].0}
    ensures Searching(g, s, visited', q', done')
  {
    assert q[0].0 in Entries(q);
    StepBooks(g, s, visited, q, done, d, steps, visited', q', done');
    assert forall v :: Within(g, s, v, d) ==> v in visited';
    StepFrontier(g, s, d, q', visited', done');
  }

  lemma PushesSnoc(q: seq<(Pos, nat)>, steps: seq<Pos>, k: nat, d: nat)
    requires k < |steps|
    ensures q + Pushes(steps[..k + 1], d) == (q + Pushes(steps[..k], d)) + [(steps[k], d)]
  {
    assert Pushes(steps[..k + 1], d) == Pushes(steps[..k], d) + [(steps[k], d)];
  }

  lemma MembersSnoc(steps: seq<Pos>, k: nat)
    requires k < |steps| && forall i, j :: 0 <= i < j < |steps| ==> steps[i] != steps[j]
    ensures forall v :: v + Members(steps[..k + 1]) == (v + Members(steps[..k])) + {steps[k]}
    ensures steps[k] !in Members(steps[..k])
  {
    assert steps[..k + 1] == steps[..k] + [steps[k]];
  }

  /** Marks the possible steps visited and queues them (the `for_each`), one at a
      time. */
  method Enqueue(visited: set<Pos>, q: seq<(Pos, nat)>, steps: seq<Pos>, d: nat, ghost cells: seq<Pos>)
    returns (visited': set<Pos>, q': seq<(Pos, nat)>)
    requires forall b :: b in steps ==> b in cells && b !in visited
    requires forall i, j :: 0 <= i < j < |steps| ==> steps[i] != steps[j]
    ensures visited' == visited + Members(steps) && q' == q + Pushes(steps, d)
    ensures Unseen(cells, visited') + |steps| <= Unseen(cells, visited)
  {
    visited', q' := visited, q;
    var k := 0;
    while k < |steps|
      invariant 0 <= k <= |steps|
      invariant visited' == visited + Members(steps[..k]) && q' == q + Pushes(steps[..k], d)
      invariant Unseen(cells, visited') + k <= Unseen(cells, visited)
    {
      var b := steps[k];
      MembersSnoc(steps, k);
      PushesSnoc(q, steps, k, d);
      UnseenMark(cells, visited', b);
      visited' := visited' + {b};
      q' := q' + [(b, d)];
      k := k + 1;
    }
    assert steps[..k] == steps;
  }

  /** One round of `bfs` past the end check: the front cell leaves the queue, and
      its possible steps are marked visited and queued one step further. */
  method Expand(g: Grid, ghost s: Pos, visited: set<Pos>, q: seq<(Pos, nat)>, ghost done: set<Pos>)
    returns (visited': set<Pos>, q': seq<(Pos, nat)>, ghost done': set<Pos>)
    requires Searching(g, s, visited, q, done) && q != [] && !IsEnd(g, q[0].0)
    ensures Searching(g, s, visited', q', done')
    ensures 2 * Unseen(CellList(|g|, |g[0]|), visited') + |q'| < 2 * Unseen(CellList(|g|, |g[0]|), visited) + |q|
  {
    var p, len := q[0].0, q[0].1;
    var steps := PossibleSteps(g, p, visited);
    ghost var cells := CellList(|g|, |g[0]|);
    forall b | b in steps ensures b in cells {
      InCellList(|g|, |g[0]|, b);
    }
    visited', q' := Enqueue(visited, q[1..], steps, len + 1, cells);
    done' := done + {p};
    SearchStep(g, s, visited, q, done, len, steps, visited', q', done');
  }

  /** `bfs`: dequeue from the front; an end cell gives its step count, otherwise its
      possible steps are marked visited and queued one step further. `Some` holds
      the fewest steps to an end cell, `None` says none is reachable. */
  method Bfs(g: Grid, start: Pos) returns (r: Option<nat>)
    requires Rect(g) && InGrid(g, start)
    ensures r.Some? ==> Fewest(g, start, r.value)
    ensures r.None? ==> Unreached(g, start)
  {
    var visited: set<Pos> := {start};
    var q: seq<(Pos, nat)> := [(start, 0)];
    ghost var done: set<Pos> := {};
    SearchStarts(g, start);
    while q != []
      invariant Searching(g, start, visited, q, done)
      decreases 2 * Unseen(CellList(|g|, |g[0]|), visited) + |q|
    {
      var p, len := q[0].0, q[0].1;
      if Height(g, p) == EndMark {
        SearchFound(g, start, visited, q, done);
        return Some(len);
      }
      visited, q, done := Expand(g, start, visited, q, done);
    }
    SearchExhausted(g, start, visited, done);
    return None;
  }

  /** `proccess_one`: the fewest steps from the start cell. `None` where the source
      panics: no start cell, or no reachable end cell. */
  method ProcessOne(lines: seq<seq<nat>>) returns (r: Option<nat>)
    requires Rect(BuildGrid(lines))
    ensures var g := BuildGrid(lines);
      (r.None? <==> FindStart(g).None? || Unreached(g, FindStart(g).value)) &&
      (r.Some? ==> Fewest(g, FindStart(g).value, r.value))
  {
    var g := BuildGrid(lines);
    var start := FindStart(g);
    if start.None? {
      return None;
    }
    r := Bfs(g, start.value);
  }

  /** `proccess_two`: the fewest steps from any lowest cell (`a` or the start),
      skipping those that reach no end cell. `None` where the source panics: no
      lowest cell reaches an end cell (`min` of nothing). */
  method ProcessTwo(lines: seq<seq<nat>>) returns (r: Option<nat>)
    requires Rect(BuildGrid(lines))
    ensures var g := BuildGrid(lines);
      (r.None? <==> forall s :: InGrid(g, s) && Lowest(Height(g, s)) ==> Unreached(g, s)) &&
      (r.Some? ==> (exists s :: InGrid(g, s) && Lowest(Height(g, s)) && EndWithin(g, s, r.value)) &&
                   forall s :: InGrid(g, s) && Lowest(Height(g, s)) ==> NotBefore(g, s, r.value))
  {
    var g := BuildGrid(lines);
    var starts := StartPositions(g);
    r := MinSteps(g, starts);
  }

  /** The `filter_map` over `bfs` and the `min` in `proccess_two`: the fewest steps
      from any of `starts`, `None` when none of them reaches an end cell. */
  method MinSteps(g: Grid, starts: seq<Pos>) returns (r: Option<nat>)
    requires Rect(g) && forall s :: s in starts ==> InGrid(g, s)
    ensures r.None? <==> forall s :: s in starts ==> Unreached(g, s)
    ensures r.Some? ==> (exists s :: s in starts && EndWithin(g, s, r.value)) &&
                        forall s :: s in starts ==> NotBefore(g, s, r.value)
  {
    r := None;
    var k := 0;
    while k < |starts|
      invariant 0 <= k <= |starts|
      invariant r.None? ==> forall s :: s in starts[..k] ==> Unreached(g, s)
      invariant r.Some? ==> (exists s :: s in starts[..k] && EndWithin(g, s, r.value)) &&
                            forall s :: s in starts[..k] ==> NotBefore(g, s, r.value)
    {
      assert starts[..k + 1] == starts[..k] + [starts[k]];
      var d := Bfs(g, starts[k]);
      if d.Some? && (r.None? || d.value < r.value) {
        r := d;
      }
      k := k + 1;
    }
    assert starts[..k] == starts;
  }
}
