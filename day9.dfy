/** Day 9: rope bridge. The head of a rope moves one unit at a time; each following
    knot moves by `next_follow`. Part one counts the positions the tail of a two-knot
    rope visits, part two the same for the last knot of a ten-knot rope. */
module Day9 {
  import opened Wrappers

  datatype Dir = Left | Right | Up | Down

  datatype Step = Step(dir: Dir, count: nat)

  type Pos = (int, int)

  /** `parse_step`: the direction letter; any other letter panics (line 20). */
  function ParseStep(letter: string, count: nat): (r: Option<Step>)
    ensures r.Some? <==> letter in {"R", "L", "U", "D"}
    ensures r.Some? ==> r.value.count == count
  {
    match letter
    case "R" => Some(Step(Right, count))
    case "L" => Some(Step(Left, count))
    case "U" => Some(Step(Up, count))
    case "D" => Some(Step(Down, count))
    case _ => None
  }

  function Abs(x: int): nat { if x < 0 then -x else x }

  function Signum(x: int): int { if x < 0 then -1 else if x == 0 then 0 else 1 }

  /** Two knots touch when they are at most one apart along each axis. */
  predicate Touching(a: Pos, b: Pos) {
    Abs(a.0 - b.0) <= 1 && Abs(a.1 - b.1) <= 1
  }

  /** `next_follow`: a knot that no longer touches the knot ahead moves next to it, on
      the side it came from. Afterwards the two touch; a knot that already touched
      stays; and a knot at most two away along each axis moves by at most one along
      each axis. */
  function NextFollow(cur: Pos, head: Pos): (r: Pos)
    ensures Touching(r, head)
    ensures Touching(cur, head) ==> r == cur
    ensures Abs(cur.0 - head.0) <= 2 && Abs(cur.1 - head.1) <= 2 ==> Touching(r, cur)
  {
    var xDiff, yDiff := cur.0 - head.0, cur.1 - head.1;
    if Abs(xDiff) < 2 && Abs(yDiff) < 2 then cur
    else if Abs(yDiff) < 2 then (head.0 + Signum(xDiff), head.1)
    else if Abs(xDiff) < 2 then (head.0, head.1 + Signum(yDiff))
    else (head.0 + Signum(xDiff), head.1 + Signum(yDiff))
  }

  /** The unit cases the program's own test lists (lines 127-141). */
  lemma NextFollowExamples()
    ensures NextFollow((0, 0), (2, 0)) == (1, 0) && NextFollow((0, 0), (-2, 0)) == (-1, 0)
    ensures NextFollow((2, 0), (0, 0)) == (1, 0) && NextFollow((0, 0), (0, 2)) == (0, 1)
    ensures NextFollow((0, 2), (0, 0)) == (0, 1) && NextFollow((0, 0), (1, 1)) == (0, 0)
    ensures NextFollow((0, 0), (1, 0)) == (0, 0) && NextFollow((0, 0), (0, 1)) == (0, 0)
    ensures NextFollow((0, 0), (-1, 0)) == (0, 0) && NextFollow((0, 0), (0, -1)) == (0, 0)
    ensures NextFollow((0, 0), (1, 2)) == (1, 1) && NextFollow((0, 0), (2, 1)) == (1, 1)
    ensures NextFollow((2, 1), (0, 0)) == (1, 0) && NextFollow((1, 2), (0, 0)) == (0, 1)
    ensures NextFollow((0, 0), (2, 2)) == (1, 1)
  {
  }

  /** One unit move of the head (lines 40, 45, 50, 55). */
  function Move(p: Pos, d: Dir): Pos {
    match d
    case Left => (p.0 - 1, p.1)
    case Right => (p.0 + 1, p.1)
    case Up => (p.0, p.1 + 1)
    case Down => (p.0, p.1 - 1)
  }

  function Repeat(d: Dir, n: nat): (r: seq<Dir>)
    ensures |r| == n && forall i :: 0 <= i < n ==> r[i] == d
  {
    if n == 0 then [] else Repeat(d, n - 1) + [d]
  }

  /** The steps as the sequence of unit moves that the `for _ in 0..s` loops make. */
  function Expand(steps: seq<Step>): seq<Dir> {
    if steps == [] then [] else Expand(steps[..|steps| - 1]) + Repeat(steps[|steps| - 1].dir, steps[|steps| - 1].count)
  }

  // Part one: a head and one tail, both starting at the origin.

  datatype Rope = Rope(head: Pos, tail: Pos, visited: set<Pos>)

  /** The state after the given unit moves: each move shifts the head, lets the tail
      follow and records the tail's position. After every move the tail touches the
      head and its current position has been recorded; each move records at most one
      new position. */
  function RunOne(moves: seq<Dir>): (r: Rope)
    ensures Touching(r.tail, r.head)
    ensures moves != [] ==> r.tail in r.visited
    ensures |r.visited| <= |moves|
  {
    if moves == [] then Rope((0, 0), (0, 0), {})
    else
      var r := RunOne(moves[..|moves| - 1]);
      var head := Move(r.head, moves[|moves| - 1]);
      var tail := NextFollow(r.tail, head);
      Rope(head, tail, r.visited + {tail})
  }

  /** process_part_one. */
  method PartOne(steps: seq<Step>) returns (count: nat)
    ensures count == |RunOne(Expand(steps)).visited|
  {
    var head, tail := (0, 0), (0, 0);
    var visited: set<Pos> := {};
    var si := 0;
    while si < |steps|
      invariant 0 <= si <= |steps|
      invariant Rope(head, tail, visited) == RunOne(Expand(steps[..si]))
    {
      ExpandPrefix(steps, si);
      head, tail, visited := WalkOne(head, tail, visited, steps[si], Expand(steps[..si]));
      si := si + 1;
    }
    assert steps[..si] == steps;
    count := |visited|;
  }

  /** The `for _ in 0..s` loop of one step in part one. */
  method WalkOne(head: Pos, tail: Pos, visited: set<Pos>, step: Step, ghost done: seq<Dir>)
    returns (head': Pos, tail': Pos, visited': set<Pos>)
    requires Rope(head, tail, visited) == RunOne(done)
    ensures Rope(head', tail', visited') == RunOne(done + Repeat(step.dir, step.count))
  {
    head', tail', visited' := head, tail, visited;
    var k := 0;
    assert done + Repeat(step.dir, 0) == done;
    while k < step.count
      invariant 0 <= k <= step.count
      invariant Rope(head', tail', visited') == RunOne(done + Repeat(step.dir, k))
    {
      head' := Move(head', step.dir);
      tail' := NextFollow(tail', head');
      visited' := visited' + {tail'};
      RepeatSnoc(done, step.dir, k);
      RunOneStep(done + Repeat(step.dir, k), step.dir);
      k := k + 1;
    }
  }

  lemma ExpandPrefix(steps: seq<Step>, i: nat)
    requires i < |steps|
    ensures Expand(steps[..i + 1]) == Expand(steps[..i]) + Repeat(steps[i].dir, steps[i].count)
  {
    assert steps[..i + 1][..i] == steps[..i];
  }

  lemma RepeatSnoc(done: seq<Dir>, d: Dir, k: nat)
    ensures done + Repeat(d, k + 1) == (done + Repeat(d, k)) + [d]
  {
  }

  lemma RunOneStep(moves: seq<Dir>, d: Dir)
    ensures RunOne(moves + [d]) ==
      var r := RunOne(moves);
      var head := Move(r.head, d);
      Rope(head, NextFollow(r.tail, head), r.visited + {NextFollow(r.tail, head)})
  {
    assert (moves + [d])[..|moves|] == moves;
  }

  lemma RunTwoStep(moves: seq<Dir>, d: Dir)
    ensures RunTwo(moves + [d]) ==
      var r := RunTwo(moves);
      var knots := RopeStep(r.knots, d);
      LongRope(knots, r.visited + {knots[Knots - 1]})
  {
    assert (moves + [d])[..|moves|] == moves;
  }

  // Part two: ten knots, all starting at (1001, 1000).

  const Knots := 10

  /** The inner `for i in 1..10` loop from index `i` on: each knot follows the knot
      ahead of it, which has already moved. */
  function Pull(rope: seq<Pos>, i: nat): (r: seq<Pos>)
    requires 1 <= i
    ensures |r| == |rope|
    decreases |rope| - i
  {
    if i >= |rope| then rope
    else Pull(rope[i := NextFollow(rope[i], rope[i - 1])], i + 1)
  }

  /** One unit move of the whole rope. */
  function RopeStep(rope: seq<Pos>, d: Dir): seq<Pos>
    requires |rope| == Knots
  {
    Pull(rope[0 := Move(rope[0], d)], 1)
  }

  datatype LongRope = LongRope(knots: seq<Pos>, visited: set<Pos>)

  /** The state after the given unit moves. After every move each knot touches the
      knot ahead of it, so no knot is ever left more than one cell behind, and the
      last knot's position has been recorded; each move records at most one new
      position. */
  function RunTwo(moves: seq<Dir>): (r: LongRope)
    ensures |r.knots| == Knots
    ensures moves != [] ==> AllTouching(r.knots) && r.knots[Knots - 1] in r.visited
    ensures |r.visited| <= |moves|
  {
    if moves == [] then LongRope(seq(Knots, _ => (1001, 1000)), {})
    else
      var r := RunTwo(moves[..|moves| - 1]);
      var d := moves[|moves| - 1];
      PullTouches(r.knots[0 := Move(r.knots[0], d)], 1);
      var knots := RopeStep(r.knots, d);
      LongRope(knots, r.visited + {knots[Knots - 1]})
  }

  /** process_part_two, on a ten-element array that is updated in place. */
  method PartTwo(steps: seq<Step>) returns (count: nat)
    ensures count == |RunTwo(Expand(steps)).visited|
  {
    var rope := new Pos[Knots](_ => (1001, 1000));
    var visited: set<Pos> := {};
    assert rope[..] == RunTwo([]).knots;
    var si := 0;
    while si < |steps|
      invariant 0 <= si <= |steps|
      invariant LongRope(rope[..], visited) == RunTwo(Expand(steps[..si]))
    {
      ExpandPrefix(steps, si);
      visited := WalkTwo(rope, visited, steps[si], Expand(steps[..si]));
      si := si + 1;
    }
    assert steps[..si] == steps;
    count := |visited|;
  }

  /** The `for _ in 0..s` loop of one step in part two. */
  method WalkTwo(rope: array<Pos>, visited: set<Pos>, step: Step, ghost done: seq<Dir>)
    returns (visited': set<Pos>)
    requires LongRope(rope[..], visited) == RunTwo(done)
    modifies rope
    ensures LongRope(rope[..], visited') == RunTwo(done + Repeat(step.dir, step.count))
  {
    visited' := visited;
    var k := 0;
    assert done + Repeat(step.dir, 0) == done;
    while k < step.count
      invariant 0 <= k <= step.count
      invariant LongRope(rope[..], visited') == RunTwo(done + Repeat(step.dir, k))
    {
      PullRope(rope, step.dir);
      visited' := visited' + {rope[Knots - 1]};
      RepeatSnoc(done, step.dir, k);
      RunTwoStep(done + Repeat(step.dir, k), step.dir);
      k := k + 1;
    }
  }

  /** One unit move of the whole rope: the head moves, then each knot follows
      the one ahead of it. */
  method PullRope(rope: array<Pos>, dir: Dir)
    requires rope.Length == Knots
    modifies rope
    ensures rope[..] == RopeStep(old(rope[..]), dir)
  {
    ghost var before := rope[..];
    rope[0] := Move(rope[0], dir);
    var i := 1;
    while i < Knots
      invariant 1 <= i <= Knots
      invariant Pull(rope[..], i) == RopeStep(before, dir)
    {
      rope[i] := NextFollow(rope[i], rope[i - 1]);
      i := i + 1;
    }
  }

  predicate AllTouching(rope: seq<Pos>) {
    forall j :: 1 <= j < |rope| ==> Touching(rope[j], rope[j - 1])
  }

  lemma {:induction false} PullTouches(rope: seq<Pos>, i: nat)
    requires 1 <= i
    requires forall j :: 1 <= j < i && j < |rope| ==> Touching(rope[j], rope[j - 1])
    ensures AllTouching(Pull(rope, i))
    decreases |rope| - i
  {
    if i < |rope| {
      PullTouches(rope[i := NextFollow(rope[i], rope[i - 1])], i + 1);
    }
  }
}
