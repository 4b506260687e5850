/** Day 23: elves spreading out on an unbounded grid. Each round every elf with
    a neighbour proposes a step in the first free direction of a rotating order
    of four; proposals nobody else made are carried out, and the order rotates. */
module Day23 {
  import opened Wrappers
  import Utf8

  datatype Pos = Pos(x: int, y: int)

  /** The four directions in the order the rotation starts with. */
  datatype Dir = North | South | West | East

  /** The direction tried `i`-th, counting from the start of the rotation. */
  function DirAt(i: nat): Dir {
    [North, South, West, East][i % 4]
  }

  /** The elves read from the rows of the input: a `#` of row y at byte offset
      x, the index `char_indices` reports. */
  function Elves(lines: seq<string>): (r: set<Pos>)
    ensures forall p :: p in r <==> (0 <= p.y < |lines| &&
      exists i :: 0 <= i < |lines[p.y]| && lines[p.y][i] == '#' && p.x == Utf8.ByteLen(lines[p.y][..i]))
  {
    set y, i | 0 <= y < |lines| && 0 <= i < |lines[y]| && lines[y][i] == '#' :: Pos(Utf8.ByteLen(lines[y][..i]), y)
  }

  /** On ASCII rows the byte offset is the column: an elf stands at (x, y)
      exactly when row y has a '#' in column x. */
  lemma ElvesAscii(lines: seq<string>)
    requires forall y :: 0 <= y < |lines| ==> Utf8.Ascii(lines[y])
    ensures forall p :: p in Elves(lines) <==>
      (0 <= p.y < |lines| && 0 <= p.x < |lines[p.y]| && lines[p.y][p.x] == '#')
  {
    forall y, i | 0 <= y < |lines| && 0 <= i <= |lines[y]| ensures Utf8.ByteLen(lines[y][..i]) == i {
      assert Utf8.Ascii(lines[y][..i]);
      Utf8.AsciiBytes(lines[y][..i]);
    }
  }

  /** Before a non-ASCII character the offsets part: in "é#" the elf is at
      byte 2, the second character. */
  lemma ElvesByteOffset()
    ensures Elves(["é#"]) == {Pos(2, 0)}
  {
    assert "é#"[..1] == "é" && "é#"[..0] == [];
    assert Utf8.ByteLen("é") == 2 by {
      assert "é"[1..] == [];
    }
  }

  /** The three cells on side `d` of `p` are empty: for North the cells above-left,
      above and above-right, and likewise for the others. */
  predicate Free(elves: set<Pos>, p: Pos, d: Dir) {
    match d
    case North => Pos(p.x - 1, p.y - 1) !in elves && Pos(p.x, p.y - 1) !in elves && Pos(p.x + 1, p.y - 1) !in elves
    case South => Pos(p.x - 1, p.y + 1) !in elves && Pos(p.x, p.y + 1) !in elves && Pos(p.x + 1, p.y + 1) !in elves
    case West => Pos(p.x - 1, p.y + 1) !in elves && Pos(p.x - 1, p.y) !in elves && Pos(p.x - 1, p.y - 1) !in elves
    case East => Pos(p.x + 1, p.y + 1) !in elves && Pos(p.x + 1, p.y) !in elves && Pos(p.x + 1, p.y - 1) !in elves
  }

  /** The cell one step from `p` towards `d`; y grows southwards. */
  function Target(p: Pos, d: Dir): Pos {
    match d
    case North => Pos(p.x, p.y - 1)
    case South => Pos(p.x, p.y + 1)
    case West => Pos(p.x - 1, p.y)
    case East => Pos(p.x + 1, p.y)
  }

  /** `check_direction`: the step towards `d` if that side is free. */
  function CheckDirection(elves: set<Pos>, p: Pos, d: Dir): (r: Option<Pos>)
    ensures r.Some? <==> Free(elves, p, d)
    ensures r.Some? ==> r.value == Target(p, d)
  {
    if Free(elves, p, d) then Some(Target(p, d)) else None
  }

  /** Side `j` of the rotation starting at `start` is free. */
  predicate FreeAt(elves: set<Pos>, p: Pos, start: nat, j: nat) {
    Free(elves, p, DirAt(start + j))
  }

  /** Side `j` is free and is the first free one from side `i` on. */
  predicate FirstFrom(elves: set<Pos>, p: Pos, start: nat, i: nat, j: nat) {
    FreeAt(elves, p, start, j) && forall k: nat :: i <= k < j ==> !FreeAt(elves, p, start, k)
  }

  /** The `find_map` over the directions `i` to 3 of the rotation. */
  function FindMap(elves: set<Pos>, p: Pos, start: nat, i: nat): Option<Pos>
    requires i <= 4
    decreases 4 - i
  {
    if i == 4 then None
    else
      var here := CheckDirection(elves, p, DirAt(start + i));
      if here.Some? then here else FindMap(elves, p, start, i + 1)
  }

  /** `find_map` finds nothing exactly when no side from `i` on is free, and
      otherwise the step towards the first free one. */
  lemma {:induction false} FindMapFirst(elves: set<Pos>, p: Pos, start: nat, i: nat)
    requires i <= 4
    ensures FindMap(elves, p, start, i).None? <==> forall j :: i <= j < 4 ==> !FreeAt(elves, p, start, j)
    ensures FindMap(elves, p, start, i).Some? ==>
      exists j :: i <= j < 4 && FirstFrom(elves, p, start, i, j) && FindMap(elves, p, start, i).value == Target(p, DirAt(start + j))
    decreases 4 - i
  {
    if i < 4 {
      if FreeAt(elves, p, start, i) {
        assert FirstFrom(elves, p, start, i, i);
      } else {
        FindMapFirst(elves, p, start, i + 1);
        var r := FindMap(elves, p, start, i + 1);
        if r.Some? {
          var j :| i + 1 <= j < 4 && FirstFrom(elves, p, start, i + 1, j) && r.value == Target(p, DirAt(start + j));
          assert FirstFrom(elves, p, start, i, j);
        }
      }
    }
  }

  /** The eight cells around `p`. */
  function Neighbours(p: Pos): set<Pos> {
    { Pos(p.x - 1, p.y - 1), Pos(p.x, p.y - 1), Pos(p.x + 1, p.y - 1),
      Pos(p.x - 1, p.y), Pos(p.x + 1, p.y),
      Pos(p.x - 1, p.y + 1), Pos(p.x, p.y + 1), Pos(p.x + 1, p.y + 1) }
  }

  /** No elf in any of the eight cells around `p`. */
  predicate Alone(elves: set<Pos>, p: Pos) {
    forall q :: q in Neighbours(p) ==> q !in elves
  }

  /** All four sides free is the same as all eight neighbours empty. */
  lemma AllFreeAlone(elves: set<Pos>, p: Pos)
    ensures Free(elves, p, North) && Free(elves, p, South) && Free(elves, p, West) && Free(elves, p, East) <==> Alone(elves, p)
  {
  }

  /** `move_to`: an elf with all four sides free stays; otherwise it proposes
      the step in the first free direction of the rotation starting at `start`,
      and none when no side is free. So an elf stays exactly when it is alone or
      boxed in on all four sides. */
  function MoveTo(elves: set<Pos>, p: Pos, start: nat): (r: Option<Pos>)
    ensures r.None? <==> Alone(elves, p) || forall j :: 0 <= j < 4 ==> !FreeAt(elves, p, start, j)
    ensures r.Some? ==> exists j :: 0 <= j < 4 && FirstFrom(elves, p, start, 0, j) && r.value == Target(p, DirAt(start + j))
  {
    AllFreeAlone(elves, p);
    FindMapFirst(elves, p, start, 0);
    var north, south, west, east := Free(elves, p, North), Free(elves, p, South), Free(elves, p, West), Free(elves, p, East);
    if north && south && west && east then None else FindMap(elves, p, start, 0)
  }

  /** A proposed cell is empty. */
  lemma ProposalEmpty(elves: set<Pos>, p: Pos, start: nat)
    requires MoveTo(elves, p, start).Some?
    ensures MoveTo(elves, p, start).value !in elves
  {
    var j :| 0 <= j < 4 && FirstFrom(elves, p, start, 0, j) && MoveTo(elves, p, start).value == Target(p, DirAt(start + j));
  }

  /** Elf `q` proposes the cell `t`. */
  predicate Proposes(elves: set<Pos>, start: nat, q: Pos, t: Pos) {
    q in elves && MoveTo(elves, q, start) == Some(t)
  }

  /** No elf other than `p` proposes the cell `t`. */
  predicate Unique(elves: set<Pos>, start: nat, p: Pos, t: Pos) {
    forall q {:trigger Proposes(elves, start, q, t)} :: q in elves && Proposes(elves, start, q, t) ==> q == p
  }

  /** Elf `p` proposes a cell and is the only one to propose it: the entries
      of the proposal count that are kept are those equal to one. */
  predicate Moving(elves: set<Pos>, start: nat, p: Pos) {
    p in elves && MoveTo(elves, p, start).Some? && Unique(elves, start, p, MoveTo(elves, p, start).value)
  }

  /** The moves of a round: every elf whose proposal nobody else made, mapped
      to the cell it proposed. */
  function Moves(elves: set<Pos>, start: nat): map<Pos, Pos> {
    map p | p in elves && Moving(elves, start, p) :: MoveTo(elves, p, start).value
  }

  /** The elves proposing the cell `t`. */
  function Proposers(elves: set<Pos>, start: nat, t: Pos): set<Pos> {
    set q | q in elves && Proposes(elves, start, q, t)
  }

  /** Being the only proposer is the proposal count being one. */
  lemma UniqueCount(elves: set<Pos>, start: nat, p: Pos, t: Pos)
    requires Proposes(elves, start, p, t)
    ensures Unique(elves, start, p, t) <==> |Proposers(elves, start, t)| == 1
  {
    var others := Proposers(elves, start, t);
    assert p in others;
    if Unique(elves, start, p, t) {
      assert others == {p};
    }
    if |others| == 1 {
      forall q | Proposes(elves, start, q, t) ensures q == p {
        assert q in others;
        SingletonHas(others, p, q);
      }
    }
  }

  /** Moves leave from elves, land on empty cells, and no two share a target. */
  predicate Sound(elves: set<Pos>, changes: map<Pos, Pos>) {
    (forall p :: p in changes ==> p in elves && changes[p] !in elves) &&
    (forall p, q :: p in changes && q in changes && changes[p] == changes[q] ==> p == q)
  }

  lemma MovesSound(elves: set<Pos>, start: nat)
    ensures Sound(elves, Moves(elves, start))
  {
    var m := Moves(elves, start);
    forall p | p in m ensures p in elves && m[p] !in elves {
      ProposalEmpty(elves, p, start);
    }
    forall p, q | p in m && q in m && m[p] == m[q] ensures p == q {
      assert Proposes(elves, start, q, m[p]);
    }
  }

  lemma SingletonHas<T>(s: set<T>, a: T, b: T)
    requires |s| == 1 && a in s && b in s
    ensures a == b
  {
    assert |s - {a}| == 0;
    assert b !in s - {a};
  }

  /** The round starting its rotation at `start` has no moves. */
  predicate Still(elves: set<Pos>, start: nat) {
    |Moves(elves, start)| == 0
  }

  /** A round is still exactly when no elf is moving in it. */
  lemma StillNoMoves(elves: set<Pos>, start: nat)
    ensures Still(elves, start) <==> forall p :: p in elves ==> !Moving(elves, start, p)
  {
    var m := Moves(elves, start);
    if exists p :: p in elves && Moving(elves, start, p) {
      var p :| p in elves && Moving(elves, start, p);
      assert p in m;
    } else {
      assert m.Keys == {};
    }
  }

  /** The elves after a round's moves: as many as before. */
  function Step(elves: set<Pos>, start: nat): (r: set<Pos>)
    ensures |r| == |elves|
  {
    var m := Moves(elves, start);
    MovesSound(elves, start);
    MovedSize(elves, m);
    (elves - m.Keys) + m.Values
  }

  function Image(changes: map<Pos, Pos>, keys: set<Pos>): set<Pos> {
    set p | p in keys && p in changes :: changes[p]
  }

  /** One move of the `for_each`: the elf leaves a cell that is occupied and
      arrives at one that is not. */
  lemma ApplyStep(elves: set<Pos>, changes: map<Pos, Pos>, done: set<Pos>, from: Pos)
    requires Sound(elves, changes) && done <= changes.Keys
    requires from in changes && from !in done
    ensures from in (elves - done) + Image(changes, done)
    ensures changes[from] !in (elves - done) + Image(changes, done)
    ensures (elves - done) + Image(changes, done) - {from} + {changes[from]}
         == (elves - (done + {from})) + Image(changes, done + {from})
  {
    assert from !in Image(changes, done);
    assert Image(changes, done + {from}) == Image(changes, done) + {changes[from]};
  }

  lemma ImageAll(changes: map<Pos, Pos>)
    ensures Image(changes, changes.Keys) == changes.Values
  {
  }

  /** A map that sends no two keys to the same value has as many values as keys. */
  lemma {:induction false} InjectiveValues(changes: map<Pos, Pos>)
    requires forall p, q :: p in changes && q in changes && changes[p] == changes[q] ==> p == q
    ensures |changes.Values| == |changes.Keys|
    decreases |changes.Keys|
  {
    if changes != map[] {
      var k :| k in changes;
      var rest := changes - {k};
      forall v | v in changes.Values - {changes[k]} ensures v in rest.Values {
        var p :| p in changes && changes[p] == v;
        assert p in rest;
      }
      forall v | v in rest.Values ensures v in changes.Values - {changes[k]} {
        var p :| p in rest && rest[p] == v;
        assert changes[p] == v;
      }
      assert rest.Values == changes.Values - {changes[k]};
      assert rest.Keys == changes.Keys - {k};
      InjectiveValues(rest);
    }
  }

  /** Sound moves keep the number of elves. */
  lemma MovedSize(elves: set<Pos>, changes: map<Pos, Pos>)
    requires Sound(elves, changes)
    ensures |(elves - changes.Keys) + changes.Values| == |elves|
  {
    InjectiveValues(changes);
    assert elves == (elves - changes.Keys) + changes.Keys;
    assert (elves - changes.Keys) !! changes.Keys;
    assert (elves - changes.Keys) !! changes.Values;
  }
  /** The `for_each` that removes every moving elf from its cell and inserts it
      at its target, in whatever order the moves come. No removal misses and no
      insertion overwrites, so the number of elves stays the same. */
  method Apply(elves: set<Pos>, changes: map<Pos, Pos>) returns (r: set<Pos>)
    requires Sound(elves, changes)
    ensures r == (elves - changes.Keys) + changes.Values
    ensures |r| == |elves|
  {
    r := elves;
    ghost var done: set<Pos> := {};
    var rest := changes.Keys;
    while rest != {}
      invariant done <= changes.Keys && rest == changes.Keys - done
      invariant r == (elves - done) + Image(changes, done)
      decreases |rest|
    {
      var from :| from in rest;
      ApplyStep(elves, changes, done, from);
      r := r - {from} + {changes[from]};
      done := done + {from};
      rest := rest - {from};
    }
    assert done == changes.Keys;
    ImageAll(changes);
    MovedSize(elves, changes);
  }

  /** `n` applications of `round`, the first numbered `start`: the round
      number passes on by one each time. */
  function Iterate(round: (set<Pos>, nat) -> set<Pos>, elves: set<Pos>, start: nat, n: nat): set<Pos>
    decreases n
  {
    if n == 0 then elves else Iterate(round, round(elves, start), start + 1, n - 1)
  }

  /** One application of `Iterate`, stated on the values a loop holds after it. */
  lemma IterateStep(round: (set<Pos>, nat) -> set<Pos>, elves: set<Pos>, start: nat, n: nat,
                    elves': set<Pos>, start': nat, n': nat)
    requires n > 0 && elves' == round(elves, start) && start' == start + 1 && n' == n - 1
    ensures Iterate(round, elves, start, n) == Iterate(round, elves', start', n')
  {
  }

  /** The number of the first of the `n` applications of `round` numbered
      `start + 1` onwards for which `still` holds beforehand, if any. */
  function FirstStillAfter(still: (set<Pos>, nat) -> bool, round: (set<Pos>, nat) -> set<Pos>,
                           elves: set<Pos>, start: nat, n: nat): Option<nat>
    decreases n
  {
    if n == 0 then None
    else if still(elves, start) then Some(start + 1)
    else FirstStillAfter(still, round, round(elves, start), start + 1, n - 1)
  }

  /** One application of `FirstStillAfter` that is not still. */
  lemma FirstStillAfterStep(still: (set<Pos>, nat) -> bool, round: (set<Pos>, nat) -> set<Pos>,
                            elves: set<Pos>, start: nat, n: nat, elves': set<Pos>, start': nat, n': nat)
    requires n > 0 && !still(elves, start)
    requires elves' == round(elves, start) && start' == start + 1 && n' == n - 1
    ensures FirstStillAfter(still, round, elves, start, n) == FirstStillAfter(still, round, elves', start', n')
  {
  }

  /** `FirstStillAfter` finds the first still state: every earlier one is not
      still, and `None` means that none of the `n` is. */
  lemma {:induction false} FirstStillAfterFirst(still: (set<Pos>, nat) -> bool, round: (set<Pos>, nat) -> set<Pos>,
                                                elves: set<Pos>, start: nat, n: nat)
    ensures FirstStillAfter(still, round, elves, start, n).Some? ==>
      var v := FirstStillAfter(still, round, elves, start, n).value;
      start < v <= start + n && still(Iterate(round, elves, start, v - 1 - start), v - 1) &&
      forall j :: 0 <= j < v - 1 - start ==> !still(Iterate(round, elves, start, j), start + j)
    ensures FirstStillAfter(still, round, elves, start, n).None? ==>
      forall j :: 0 <= j < n ==> !still(Iterate(round, elves, start, j), start + j)
    decreases n
  {
    if n > 0 && !still(elves, start) {
      var next := round(elves, start);
      FirstStillAfterFirst(still, round, next, start + 1, n - 1);
      forall j | 0 < j
        ensures Iterate(round, elves, start, j) == Iterate(round, next, start + 1, j - 1)
      {
        IterateStep(round, elves, start, j, next, start + 1, j - 1);
      }
    }
  }

  /** `still` holds before application `k` of `round` (counting from 1, the
      first numbered 0). */
  predicate StillBefore(still: (set<Pos>, nat) -> bool, round: (set<Pos>, nat) -> set<Pos>, elves: set<Pos>, k: nat)
    requires k >= 1
  {
    still(Iterate(round, elves, 0, k - 1), k - 1)
  }

  /** `FirstStillAfter` from 0 counts the applications from 1. */
  lemma FirstStillFromOne(still: (set<Pos>, nat) -> bool, round: (set<Pos>, nat) -> set<Pos>, elves: set<Pos>, n: nat)
    ensures FirstStillAfter(still, round, elves, 0, n).Some? ==>
      var v := FirstStillAfter(still, round, elves, 0, n).value;
      1 <= v <= n && StillBefore(still, round, elves, v) &&
      forall k :: 1 <= k < v ==> !StillBefore(still, round, elves, k)
    ensures FirstStillAfter(still, round, elves, 0, n).None? ==>
      forall k :: 1 <= k <= n ==> !StillBefore(still, round, elves, k)
  {
    FirstStillAfterFirst(still, round, elves, 0, n);
  }

  /** The elves after `n` rounds, the first of them starting its rotation at
      `start`; the rotation moves on by one every round. */
  function Run(elves: set<Pos>, start: nat, n: nat): set<Pos> {
    Iterate(Step, elves, start, n)
  }

  /** Round `k` (counting from 1, the first starting at North) has no moves. */
  predicate Quiet(elves: set<Pos>, k: nat)
    requires k >= 1
  {
    StillBefore(Still, Step, elves, k)
  }

  /** The number of the first of the `n` rounds numbered `start + 1` onwards
      that has no moves, if any. */
  function Settle(elves: set<Pos>, start: nat, n: nat): Option<nat> {
    FirstStillAfter(Still, Step, elves, start, n)
  }

  /** One round of `process1`/`process2`: collect the unique proposals and move. */
  method Round(elves: set<Pos>, start: nat) returns (moved: bool, r: set<Pos>)
    ensures moved <==> !Still(elves, start)
    ensures r == Step(elves, start) && |r| == |elves|
  {
    var changes := Moves(elves, start);
    if |changes| == 0 {
      return false, elves;
    }
    MovesSound(elves, start);
    r := Apply(elves, changes);
    moved := true;
  }

  /** The tight bounding box of the elves: every elf inside, every side touched. */
  predicate Box(elves: set<Pos>, minX: int, maxX: int, minY: int, maxY: int) {
    (forall p :: p in elves ==> minX <= p.x <= maxX && minY <= p.y <= maxY) &&
    (exists p :: p in elves && p.x == minX) && (exists p :: p in elves && p.x == maxX) &&
    (exists p :: p in elves && p.y == minY) && (exists p :: p in elves && p.y == maxY)
  }

  /** The `minmax` of both coordinates; `None` (the source's `unwrap` panics)
      when there are no elves. */
  method Bounds(elves: set<Pos>) returns (r: Option<(int, int, int, int)>)
    ensures r.None? <==> elves == {}
    ensures r.Some? ==> Box(elves, r.value.0, r.value.1, r.value.2, r.value.3)
  {
    if elves == {} {
      return None;
    }
    var first :| first in elves;
    var minX, maxX, minY, maxY := first.x, first.x, first.y, first.y;
    var rest := elves - {first};
    while rest != {}
      invariant rest <= elves && first in elves - rest
      invariant Box(elves - rest, minX, maxX, minY, maxY)
      decreases |rest|
    {
      var p :| p in rest;
      if p.x < minX { minX := p.x; }
      if p.x > maxX { maxX := p.x; }
      if p.y < minY { minY := p.y; }
      if p.y > maxY { maxY := p.y; }
      rest := rest - {p};
    }
    assert elves - rest == elves;
    return Some((minX, maxX, minY, maxY));
  }

  /** `n` rounds one after the other, the first starting its rotation at `start`. */
  method Simulate(elves: set<Pos>, start: nat, n: nat) returns (r: set<Pos>)
    ensures r == Run(elves, start, n) && |r| == |elves|
  {
    r := elves;
    var round, left := start, n;
    while left > 0
      invariant Run(elves, start, n) == Run(r, round, left) && |r| == |elves|
    {
      ghost var before, beforeRound, beforeLeft := r, round, left;
      var _, next := Round(r, round);
      r := next;
      round, left := round + 1, left - 1;
      IterateStep(Step, before, beforeRound, beforeLeft, r, round, left);
    }
  }

  /** The cells of the box from (`minX`, `minY`) to (`maxX`, `maxY`) that are not
      among `n` occupied ones. */
  function EmptyCells(minX: int, maxX: int, minY: int, maxY: int, n: nat): int {
    (maxY + 1 - minY) * (maxX + 1 - minX) - n
  }

  /** `process1`: after ten rounds, the empty cells of the elves' bounding box.
      `None` where the source panics: no elves. */
  method ProcessOne(lines: seq<string>) returns (r: Option<int>)
    ensures r.None? <==> Elves(lines) == {}
    ensures r.Some? ==> exists minX, maxX, minY, maxY ::
      Box(Run(Elves(lines), 0, 10), minX, maxX, minY, maxY) &&
      r.value == EmptyCells(minX, maxX, minY, maxY, |Run(Elves(lines), 0, 10)|)
  {
    var elves := Simulate(Elves(lines), 0, 10);
    var box := Bounds(elves);
    if box.None? {
      return None;
    }
    var (minX, maxX, minY, maxY) := box.value;
    r := Some(EmptyCells(minX, maxX, minY, maxY, |elves|));
  }

  /** The last round `1..` on `i32` yields: the range computes the number after
      the one it returns, so in a debug build the step from 2147483646 to the
      largest `i32` already panics, and that largest value is never a round. */
  const RoundLimit: nat := 0x7fff_fffe

  /** `process2`: the number of the first round in which no elf moves. `None`
      where the source panics instead: when every round `1..` yields, up to
      2147483646, has moves. */
  method ProcessTwo(lines: seq<string>) returns (r: Option<nat>)
    ensures r == Settle(Elves(lines), 0, RoundLimit)
  {
    r := FirstStill(Elves(lines), 0, RoundLimit);
  }

  /** The `for round in 1..` loop: run rounds until one has no moves. */
  method FirstStill(elves: set<Pos>, start: nat, n: nat) returns (r: Option<nat>)
    ensures r == Settle(elves, start, n)
  {
    var current := elves;
    var done, left := start, n;
    while left > 0
      invariant Settle(elves, start, n) == Settle(current, done, left)
    {
      var moved, next := Round(current, done);
      if !moved {
        return Some(done + 1);
      }
      ghost var before, beforeDone, beforeLeft := current, done, left;
      current := next;
      done, left := done + 1, left - 1;
      FirstStillAfterStep(Still, Step, before, beforeDone, beforeLeft, current, done, left);
    }
    return None;
  }

  /** What `process2` returns is the first round without moves, and `None`
      means every round `1..` yields has moves. */
  lemma ProcessTwoFirst(elves: set<Pos>)
    ensures Settle(elves, 0, RoundLimit).Some? ==>
      var v := Settle(elves, 0, RoundLimit).value;
      1 <= v <= RoundLimit && Quiet(elves, v) && forall k :: 1 <= k < v ==> !Quiet(elves, k)
    ensures Settle(elves, 0, RoundLimit).None? ==> forall k :: 1 <= k <= RoundLimit ==> !Quiet(elves, k)
  {
    FirstStillFromOne(Still, Step, elves, RoundLimit);
  }
}
