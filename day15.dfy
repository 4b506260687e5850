/** Day 15: beacon exclusion zone. Each sensor rules out the cells within the Manhattan
    distance of its closest beacon; on one row those cells form an interval. The
    intervals of a row are sorted by start and folded together; a row whose folded
    intervals leave a cell free holds the distress beacon. */
module Day15 {
  import opened Wrappers
  import Sorting

  datatype Point = Point(x: int, y: int)

  /** One input line: a sensor and its closest beacon. */
  datatype Report = Report(sensor: Point, beacon: Point)

  /** `RangeInclusive<i32>`: the integers `lo..=hi`; empty when `lo > hi`. */
  datatype Range = Range(lo: int, hi: int)

  function Abs(n: int): nat {
    if n < 0 then -n else n
  }

  function Min(a: int, b: int): int {
    if a <= b then a else b
  }

  function Max(a: int, b: int): int {
    if a >= b then a else b
  }

  /** The Manhattan distance from the sensor to its beacon (`abs_diff` on each axis). */
  function Dist(rep: Report): nat {
    Abs(rep.sensor.x - rep.beacon.x) + Abs(rep.sensor.y - rep.beacon.y)
  }

  /** The cell `(x, y)` is no farther from the sensor than its beacon. */
  predicate InReach(rep: Report, x: int, y: int) {
    Abs(x - rep.sensor.x) + Abs(y - rep.sensor.y) <= Dist(rep)
  }

  predicate Contains(r: Range, x: int) {
    r.lo <= x <= r.hi
  }

  function Start(r: Range): int {
    r.lo
  }

  /** `Sensor::line_intersections`: the cells of row `line` in the sensor's reach, or
      `None` when the row is out of reach. */
  function LineIntersections(rep: Report, line: int): (r: Option<Range>)
    ensures r.Some? <==> Abs(line - rep.sensor.y) <= Dist(rep)
    ensures r.Some? ==> forall x :: Contains(r.value, x) <==> InReach(rep, x, line)
  {
    var s := rep.sensor;
    var dist := Dist(rep);
    if (line >= s.y && line <= s.y + dist) || (line <= s.y && line >= s.y - dist) then
      var yDiff := Abs(s.y - line);
      Some(Range(s.x - (dist - yDiff), s.x + (dist - yDiff)))
    else
      None
  }

  /** `Sensor::line_intersections_2`: the same interval clamped to `0..=space`. */
  function LineIntersections2(rep: Report, line: int, space: int): (r: Option<Range>)
    ensures r.Some? <==> Abs(line - rep.sensor.y) <= Dist(rep)
    ensures r.Some? ==> 0 <= r.value.lo && r.value.hi <= space
    ensures r.Some? ==> forall x :: Contains(r.value, x) <==> 0 <= x <= space && InReach(rep, x, line)
  {
    match LineIntersections(rep, line)
    case None => None
    case Some(r) => Some(Range(Max(r.lo, 0), Min(r.hi, space)))
  }

  // Merging intervals, as written.

  /** The test of `merge_ranges`: an endpoint of one interval lies in the other. */
  predicate Overlaps(a: Range, r: Range) {
    Contains(a, r.lo) || Contains(a, r.hi) || Contains(r, a.lo) || Contains(r, a.hi)
  }

  function Hull(a: Range, r: Range): Range {
    Range(Min(r.lo, a.lo), Max(r.hi, a.hi))
  }

  /** The hull of two overlapping intervals holds exactly the cells of the two. */
  lemma HullIsUnion(a: Range, r: Range, x: int)
    requires Overlaps(a, r)
    ensures Contains(Hull(a, r), x) <==> Contains(a, x) || Contains(r, x)
  {
  }

  /** The index of the first interval of `s` that overlaps `r`. */
  function FirstOverlap(s: seq<Range>, r: Range): (k: Option<nat>)
    ensures k.Some? ==> k.value < |s| && Overlaps(s[k.value], r)
    ensures k.Some? ==> forall i :: 0 <= i < k.value ==> !Overlaps(s[i], r)
    ensures k.None? <==> forall i :: 0 <= i < |s| ==> !Overlaps(s[i], r)
  {
    if s == [] then None
    else if Overlaps(s[0], r) then Some(0)
    else
      match FirstOverlap(s[1..], r)
      case None => assert forall i :: 1 <= i < |s| ==> s[i] == s[1..][i - 1]; None
      case Some(k) => Some(k + 1)
  }

  /** One step of the fold: widen the first overlapping interval to the hull, or
      append `r` when none overlaps. */
  function Step(acc: seq<Range>, r: Range): seq<Range> {
    match FirstOverlap(acc, r)
    case None => acc + [r]
    case Some(k) => acc[k := Hull(acc[k], r)]
  }

  /** The fold of `fold_rages` over intervals in the given order. */
  function Fold(rs: seq<Range>): (r: seq<Range>)
    ensures |r| <= |rs|
  {
    if rs == [] then [] else Step(Fold(rs[..|rs| - 1]), rs[|rs| - 1])
  }

  /** `merge_ranges`, in place on the first `n` intervals of `ranges`: widens the first
      interval that overlaps `r` and reports whether there was one. */
  method MergeRanges(ranges: array<Range>, n: nat, r: Range) returns (merged: bool)
    requires n <= ranges.Length
    modifies ranges
    ensures merged <==> FirstOverlap(old(ranges[..n]), r).Some?
    ensures ranges[..n] == (if merged then Step(old(ranges[..n]), r) else old(ranges[..n]))
    ensures ranges[n..] == old(ranges[n..])
  {
    var i := 0;
    while i < n
      invariant 0 <= i <= n
      invariant forall k :: 0 <= k < i ==> !Overlaps(ranges[k], r)
      invariant ranges[..] == old(ranges[..])
    {
      if Overlaps(ranges[i], r) {
        ghost var before := ranges[..n];
        assert FirstOverlap(before, r) == Some(i);
        ranges[i] := Hull(ranges[i], r);
        assert ranges[..n] == before[i := Hull(before[i], r)];
        return true;
      }
      i := i + 1;
    }
    return false;
  }

  /** `fold_rages`: sort by start (in place), then fold. */
  method FoldRanges(ranges: seq<Range>) returns (res: seq<Range>)
    ensures exists t :: Sorting.SortedBy(t, Start) && multiset(t) == multiset(ranges) && res == Fold(t)
  {
    var a := new Range[|ranges|](i requires 0 <= i < |ranges| => ranges[i]);
    assert a[..] == ranges;
    Sorting.SortByKey(a, Start);
    res := FoldInto(a);
  }

  /** The fold proper, into an accumulator that grows by `push` (an array with a
      length). */
  method FoldInto(a: array<Range>) returns (res: seq<Range>)
    ensures res == Fold(a[..])
  {
    var acc := new Range[a.Length];
    var n := 0;
    var i := 0;
    while i < a.Length
      invariant 0 <= n <= i <= a.Length
      invariant acc[..n] == Fold(a[..i])
    {
      assert a[..i + 1][..i] == a[..i];
      var merged := MergeRanges(acc, n, a[i]);
      if !merged {
        acc[n] := a[i];
        n := n + 1;
      }
      i := i + 1;
    }
    assert a[..a.Length] == a[..];
    res := acc[..n];
  }

  /** A cell is in one of the intervals. */
  predicate Covered(s: seq<Range>, x: int) {
    exists i :: 0 <= i < |s| && Contains(s[i], x)
  }

  lemma StepCovers(acc: seq<Range>, r: Range, x: int)
    ensures Covered(Step(acc, r), x) <==> Covered(acc, x) || Contains(r, x)
  {
    match FirstOverlap(acc, r)
    case None =>
      assert (acc + [r])[|acc|] == r;
      assert forall i :: 0 <= i < |acc| ==> (acc + [r])[i] == acc[i];
    case Some(k) =>
      var next := acc[k := Hull(acc[k], r)];
      HullIsUnion(acc[k], r, x);
      if Covered(next, x) {
        var i :| 0 <= i < |next| && Contains(next[i], x);
        if i != k {
          assert Contains(acc[i], x);
        }
      }
      if Covered(acc, x) {
        var i :| 0 <= i < |acc| && Contains(acc[i], x);
        if i != k {
          assert Contains(next[i], x);
        } else {
          assert Contains(next[k], x);
        }
      }
      if Contains(r, x) {
        assert Contains(next[k], x);
      }
  }

  /** Folding loses no cell and adds none: the folded intervals cover exactly the
      cells of the input intervals. */
  lemma {:induction false} FoldCovers(rs: seq<Range>, x: int)
    ensures Covered(Fold(rs), x) <==> Covered(rs, x)
  {
    if rs != [] {
      var n := |rs|;
      FoldCovers(rs[..n - 1], x);
      StepCovers(Fold(rs[..n - 1]), rs[n - 1], x);
      if Covered(rs[..n - 1], x) {
        var i :| 0 <= i < n - 1 && Contains(rs[..n - 1][i], x);
        assert Contains(rs[i], x);
      }
      if Covered(rs, x) && !Contains(rs[n - 1], x) {
        var i :| 0 <= i < n && Contains(rs[i], x);
        assert Contains(rs[..n - 1][i], x);
      }
    }
  }

  /** Intervals that only touch are not merged: the test is endpoint containment. */
  lemma TouchingKeptApart()
    ensures Fold([Range(1, 3), Range(4, 6)]) == [Range(1, 3), Range(4, 6)]
  {
    assert [Range(1, 3), Range(4, 6)][..1] == [Range(1, 3)];
    assert [Range(1, 3)][..0] == [];
  }

  // Merging intervals that overlap or touch (the corrected fold).

  /** Nothing lies between the two intervals: they overlap or touch. */
  predicate Joins(a: Range, r: Range) {
    a.lo <= r.hi + 1 && r.lo <= a.hi + 1
  }

  predicate NonEmpty(r: Range) {
    r.lo <= r.hi
  }

  lemma JoinedHullIsUnion(a: Range, r: Range, x: int)
    requires NonEmpty(a) && NonEmpty(r) && Joins(a, r)
    ensures Contains(Hull(a, r), x) <==> Contains(a, x) || Contains(r, x)
  {
  }

  function FirstJoin(s: seq<Range>, r: Range): (k: Option<nat>)
    ensures k.Some? ==> k.value < |s| && Joins(s[k.value], r)
    ensures k.Some? ==> forall i :: 0 <= i < k.value ==> !Joins(s[i], r)
    ensures k.None? <==> forall i :: 0 <= i < |s| ==> !Joins(s[i], r)
  {
    if s == [] then None
    else if Joins(s[0], r) then Some(0)
    else
      match FirstJoin(s[1..], r)
      case None => assert forall i :: 1 <= i < |s| ==> s[i] == s[1..][i - 1]; None
      case Some(k) => Some(k + 1)
  }

  /** The fold step with the test corrected: an empty interval adds no cell and is
      skipped; otherwise the first interval that `r` overlaps or touches is widened. */
  function JoinStep(acc: seq<Range>, r: Range): seq<Range> {
    if !NonEmpty(r) then acc
    else
      match FirstJoin(acc, r)
      case None => acc + [r]
      case Some(k) => acc[k := Hull(acc[k], r)]
  }

  function JoinedFold(rs: seq<Range>): (r: seq<Range>)
    ensures |r| <= |rs|
    ensures forall i :: 0 <= i < |r| ==> NonEmpty(r[i])
  {
    if rs == [] then [] else JoinStep(JoinedFold(rs[..|rs| - 1]), rs[|rs| - 1])
  }

  lemma JoinStepCovers(acc: seq<Range>, r: Range, x: int)
    requires forall i :: 0 <= i < |acc| ==> NonEmpty(acc[i])
    ensures Covered(JoinStep(acc, r), x) <==> Covered(acc, x) || Contains(r, x)
  {
    if NonEmpty(r) {
      match FirstJoin(acc, r)
      case None =>
        assert (acc + [r])[|acc|] == r;
        assert forall i :: 0 <= i < |acc| ==> (acc + [r])[i] == acc[i];
      case Some(k) =>
        var next := acc[k := Hull(acc[k], r)];
        JoinedHullIsUnion(acc[k], r, x);
        if Covered(next, x) {
          var i :| 0 <= i < |next| && Contains(next[i], x);
          if i != k {
            assert Contains(acc[i], x);
          }
        }
        if Covered(acc, x) {
          var i :| 0 <= i < |acc| && Contains(acc[i], x);
          if i != k {
            assert Contains(next[i], x);
          } else {
            assert Contains(next[k], x);
          }
        }
        if Contains(r, x) {
          assert Contains(next[k], x);
        }
    }
  }

  /** The corrected fold also covers exactly the cells of its input. */
  lemma {:induction false} JoinedFoldCovers(rs: seq<Range>, x: int)
    ensures Covered(JoinedFold(rs), x) <==> Covered(rs, x)
  {
    if rs != [] {
      var n := |rs|;
      JoinedFoldCovers(rs[..n - 1], x);
      JoinStepCovers(JoinedFold(rs[..n - 1]), rs[n - 1], x);
      if Covered(rs[..n - 1], x) {
        var i :| 0 <= i < n - 1 && Contains(rs[..n - 1][i], x);
        assert Contains(rs[i], x);
      }
      if Covered(rs, x) && !Contains(rs[n - 1], x) {
        var i :| 0 <= i < n && Contains(rs[i], x);
        assert Contains(rs[..n - 1][i], x);
      }
    }
  }

  /** At least one free cell lies between any two intervals. */
  predicate Separated(s: seq<Range>) {
    forall i, j :: 0 <= i < j < |s| ==> s[i].hi + 1 < s[j].lo
  }

  predicate Within(s: seq<Range>, space: int) {
    forall i :: 0 <= i < |s| ==> 0 <= s[i].lo && s[i].hi <= space
  }

  /** One step of the corrected fold keeps the intervals separated when `r` starts no
      earlier than each of them. */
  lemma JoinStepSeparated(acc: seq<Range>, r: Range, space: int)
    requires Separated(acc) && Within(acc, space) && Within([r], space)
    requires forall k :: 0 <= k < |acc| ==> NonEmpty(acc[k]) && acc[k].lo <= r.lo
    ensures Separated(JoinStep(acc, r)) && Within(JoinStep(acc, r), space)
    ensures forall k :: 0 <= k < |JoinStep(acc, r)| ==> JoinStep(acc, r)[k].lo <= r.lo
  {
    assert [r][0] == r;
    if NonEmpty(r) {
      match FirstJoin(acc, r)
      case None =>
        AppendSeparated(acc, r);
      case Some(k) =>
        JoinedAtEnd(acc, r, k);
        WidenSeparated(acc, r);
    }
  }

  /** An interval that touches none of the separated ones and starts after each
      of them keeps them separated when appended. */
  lemma AppendSeparated(acc: seq<Range>, r: Range)
    requires Separated(acc) && NonEmpty(r)
    requires forall k :: 0 <= k < |acc| ==> acc[k].lo <= r.lo && !Joins(acc[k], r)
    ensures Separated(acc + [r])
  {
    var next := acc + [r];
    forall i, j | 0 <= i < j < |next| ensures next[i].hi + 1 < next[j].lo {
      assert next[i] == acc[i];
      if j == |acc| {
        assert next[j] == r && !Joins(acc[i], r);
      } else {
        assert next[j] == acc[j];
      }
    }
  }

  /** Among separated intervals all starting no later than `r`, only the last
      can be touched by `r`. */
  lemma JoinedAtEnd(acc: seq<Range>, r: Range, k: nat)
    requires Separated(acc) && k < |acc| && Joins(acc[k], r)
    requires forall i :: 0 <= i < |acc| ==> acc[i].lo <= r.lo
    ensures k == |acc| - 1
  {
    if k + 1 < |acc| {
      NoJoinBeforeLast(acc, r, k);
    }
  }

  lemma NoJoinBeforeLast(acc: seq<Range>, r: Range, k: nat)
    requires Separated(acc) && k + 1 < |acc| && acc[k + 1].lo <= r.lo
    ensures !Joins(acc[k], r)
  {
    assert acc[k].hi + 1 < acc[k + 1].lo;
  }

  /** Widening the last of the separated intervals to take in `r`, which starts
      no earlier than it, keeps them separated. */
  lemma WidenSeparated(acc: seq<Range>, r: Range)
    requires Separated(acc) && acc != [] && acc[|acc| - 1].lo <= r.lo
    ensures Separated(acc[|acc| - 1 := Hull(acc[|acc| - 1], r)])
  {
    var k := |acc| - 1;
    var next := acc[k := Hull(acc[k], r)];
    assert next[k].lo == acc[k].lo;
    forall i, j | 0 <= i < j < |next| ensures next[i].hi + 1 < next[j].lo {
      assert next[i] == acc[i];
    }
  }

  /** Folding intervals sorted by start leaves them separated by free cells, each
      starting no later than the last input interval, inside the bounds of the input. */
  lemma {:induction false} JoinedFoldSeparated(rs: seq<Range>, space: int)
    requires Sorting.SortedBy(rs, Start) && Within(rs, space)
    ensures Separated(JoinedFold(rs)) && Within(JoinedFold(rs), space)
    ensures rs != [] ==> forall k :: 0 <= k < |JoinedFold(rs)| ==> JoinedFold(rs)[k].lo <= rs[|rs| - 1].lo
  {
    if rs != [] {
      var n := |rs|;
      var r := rs[n - 1];
      var acc := JoinedFold(rs[..n - 1]);
      assert Sorting.SortedBy(rs[..n - 1], Start) && Within(rs[..n - 1], space) by {
        assert forall i :: 0 <= i < n - 1 ==> rs[..n - 1][i] == rs[i];
      }
      JoinedFoldSeparated(rs[..n - 1], space);
      if n > 1 {
        assert rs[..n - 1][n - 2] == rs[n - 2];
        assert Start(rs[n - 2]) <= Start(r);
      }
      assert Within([r], space) by { assert [r][0] == r; }
      JoinStepSeparated(acc, r, space);
    }
  }

  /** When the folded intervals of a row are more than one, the cell just before the
      second one is free and inside the bounds. */
  lemma GapBeforeSecond(res: seq<Range>, space: int)
    requires |res| > 1 && Separated(res) && Within(res, space)
    requires forall i :: 0 <= i < |res| ==> NonEmpty(res[i])
    ensures 0 <= res[1].lo - 1 <= space && !Covered(res, res[1].lo - 1)
  {
    assert res[0].hi + 1 < res[1].lo;
    forall i | 0 <= i < |res| ensures !Contains(res[i], res[1].lo - 1) {
      if i >= 2 {
        assert res[1].hi + 1 < res[i].lo;
      }
    }
  }

  /** Whether a cell is covered depends only on which intervals there are. */
  lemma CoveredPermutation(s: seq<Range>, t: seq<Range>, x: int)
    requires multiset(s) == multiset(t)
    ensures Covered(s, x) <==> Covered(t, x)
  {
    if Covered(s, x) {
      var i :| 0 <= i < |s| && Contains(s[i], x);
      assert s[i] in multiset(t);
      var j :| 0 <= j < |t| && t[j] == s[i];
    }
    if Covered(t, x) {
      var i :| 0 <= i < |t| && Contains(t[i], x);
      assert t[i] in multiset(s);
      var j :| 0 <= j < |s| && s[j] == t[i];
    }
  }

  /** `fold_rages` with the corrected fold: sort by start in place, then fold. */
  method JoinRanges(ranges: seq<Range>) returns (res: seq<Range>)
    ensures exists t :: Sorting.SortedBy(t, Start) && multiset(t) == multiset(ranges) && res == JoinedFold(t)
  {
    var a := new Range[|ranges|](i requires 0 <= i < |ranges| => ranges[i]);
    assert a[..] == ranges;
    Sorting.SortByKey(a, Start);
    res := JoinedFold(a[..]);
  }

  // Part two.

  /** Some sensor reaches the cell. */
  predicate Detected(reports: seq<Report>, x: int, y: int) {
    exists k :: 0 <= k < |reports| && InReach(reports[k], x, y)
  }

  /** Appending an interval adds exactly its cells to those covered. */
  lemma CoveredSnoc(rest: seq<Range>, range: Range, x: int)
    ensures Covered(rest + [range], x) <==> Covered(rest, x) || Contains(range, x)
  {
    var s := rest + [range];
    if Covered(s, x) && !Contains(range, x) {
      var i :| 0 <= i < |s| && Contains(s[i], x);
      assert i != |rest|;
      assert s[i] == rest[i];
    }
    if Covered(rest, x) {
      var i :| 0 <= i < |rest| && Contains(rest[i], x);
      assert s[i] == rest[i];
    }
    assert s[|rest|] == range;
  }

  /** The clamped intervals of all sensors that reach row `line` (the `flat_map`). */
  function RowRanges(reports: seq<Report>, line: int, space: int): (r: seq<Range>)
    ensures Within(r, space)
    ensures forall x :: Covered(r, x) <==> 0 <= x <= space && Detected(reports, x, line)
  {
    if reports == [] then []
    else
      var rest := RowRanges(reports[..|reports| - 1], line, space);
      var last := reports[|reports| - 1];
      var r := match LineIntersections2(last, line, space)
        case None => rest
        case Some(range) => rest + [range];
      assert forall x :: Detected(reports, x, line) <==>
        Detected(reports[..|reports| - 1], x, line) || InReach(last, x, line) by {
        forall x | Detected(reports, x, line) && !InReach(last, x, line)
          ensures Detected(reports[..|reports| - 1], x, line)
        {
          var k :| 0 <= k < |reports| && InReach(reports[k], x, line);
          assert reports[..|reports| - 1][k] == reports[k];
        }
        forall x | Detected(reports[..|reports| - 1], x, line) ensures Detected(reports, x, line) {
          var k :| 0 <= k < |reports| - 1 && InReach(reports[..|reports| - 1][k], x, line);
          assert reports[k] == reports[..|reports| - 1][k];
        }
      }
      assert forall x :: Covered(r, x) <==> (Covered(rest, x) || (LineIntersections2(last, line, space).Some? &&
                                                                  Contains(LineIntersections2(last, line, space).value, x))) by {
        if LineIntersections2(last, line, space).Some? {
          forall x ensures Covered(r, x) <==> Covered(rest, x) || Contains(LineIntersections2(last, line, space).value, x) {
            CoveredSnoc(rest, LineIntersections2(last, line, space).value, x);
          }
        }
      }
      r
  }

  /** A free cell of row `line` lies between two detected cells of `0..=space`. */
  ghost predicate InnerGap(reports: seq<Report>, line: int, space: int) {
    exists a, x, b :: 0 <= a < x < b <= space &&
      Detected(reports, a, line) && !Detected(reports, x, line) && Detected(reports, b, line)
  }

  /** `proccess_two`, with the corrected fold: the first row of `0..=space` whose
      folded intervals are more than one, which is the first row with a free cell
      between two detected ones, holds a free cell `x` just before the second
      interval; the answer is its tuning frequency `x * 4000000 + y`. `None` where
      the source's `unwrap` panics: no row has such a cell. */
  method ProcessTwo(reports: seq<Report>, space: int) returns (r: Option<int>)
    ensures r.Some? ==> exists x, y ::
                          0 <= x <= space && 0 <= y <= space && !Detected(reports, x, y) && r.value == x * 4000000 + y &&
                          InnerGap(reports, y, space) && forall l :: 0 <= l < y ==> !InnerGap(reports, l, space)
    ensures r.None? ==> forall l :: 0 <= l <= space ==> !InnerGap(reports, l, space)
  {
    var line := 0;
    while line <= space
      invariant line >= 0
      invariant forall l :: 0 <= l < line ==> !InnerGap(reports, l, space)
    {
      var ranges := RowRanges(reports, line, space);
      var res := JoinRanges(ranges);
      RowFolded(reports, line, space, res);
      FoldedGap(reports, line, space, res);
      if |res| > 1 {
        var x := res[1].lo - 1;
        GapBeforeSecond(res, space);
        return Some(x * 4000000 + line);
      }
      line := line + 1;
    }
    return None;
  }

  /** The folded intervals of a row are separated, inside the space, and cover
      exactly the detected cells of the row inside the space. */
  lemma RowFolded(reports: seq<Report>, line: int, space: int, res: seq<Range>)
    requires exists t :: Sorting.SortedBy(t, Start) && multiset(t) == multiset(RowRanges(reports, line, space)) &&
                         res == JoinedFold(t)
    ensures Separated(res) && Within(res, space) && forall i :: 0 <= i < |res| ==> NonEmpty(res[i])
    ensures forall x :: Covered(res, x) <==> 0 <= x <= space && Detected(reports, x, line)
  {
    var ranges := RowRanges(reports, line, space);
    var t: seq<Range> :| Sorting.SortedBy(t, Start) && multiset(t) == multiset(ranges) && res == JoinedFold(t);
    assert Within(t, space) by {
      forall i | 0 <= i < |t| ensures 0 <= t[i].lo && t[i].hi <= space {
        assert t[i] in multiset(ranges);
        var j :| 0 <= j < |ranges| && ranges[j] == t[i];
      }
    }
    JoinedFoldSeparated(t, space);
    forall x ensures Covered(res, x) <==> 0 <= x <= space && Detected(reports, x, line) {
      JoinedFoldCovers(t, x);
      CoveredPermutation(t, ranges, x);
    }
  }

  /** Separated intervals covering exactly the detected cells of a row are more
      than one exactly when a free cell lies between two detected ones. */
  lemma FoldedGap(reports: seq<Report>, line: int, space: int, res: seq<Range>)
    requires Separated(res) && Within(res, space) && forall i :: 0 <= i < |res| ==> NonEmpty(res[i])
    requires forall x :: Covered(res, x) <==> 0 <= x <= space && Detected(reports, x, line)
    ensures |res| > 1 <==> InnerGap(reports, line, space)
  {
    if |res| > 1 {
      var a, x, b := res[0].hi, res[1].lo - 1, res[1].lo;
      assert Contains(res[0], a) && Contains(res[1], b);
      GapBeforeSecond(res, space);
      assert Covered(res, a) && !Covered(res, x) && Covered(res, b);
      assert 0 <= a < x < b <= space;
      assert Detected(reports, a, line) && !Detected(reports, x, line) && Detected(reports, b, line);
    } else {
      forall a, x, b | 0 <= a < x < b <= space && Detected(reports, a, line) && Detected(reports, b, line)
        ensures Detected(reports, x, line)
      {
        assert Covered(res, a) && Covered(res, b);
        assert Contains(res[0], x);
      }
    }
  }

  /** The source's fold on two intervals that touch keeps them apart, so the row
      counts as having a free cell, yet the cell it reports is covered. */
  lemma TouchingRowReportsCoveredCell()
    ensures var rs := [Range(0, 3), Range(4, 20)];
      |Fold(rs)| > 1 && Covered(rs, Fold(rs)[1].lo - 1) &&
      |JoinedFold(rs)| == 1
  {
    var rs := [Range(0, 3), Range(4, 20)];
    assert rs[..1] == [Range(0, 3)];
    assert [Range(0, 3)][..0] == [];
    assert Fold(rs) == rs;
    assert Contains(rs[0], 3);
  }

  /** Clamping to `0..=space` leaves an empty interval for a sensor whose reach
      on the row lies right of the space. The source's fold keeps it as a second
      interval when the last column is free, and the cell it then reports lies
      outside the space; the corrected fold drops it. */
  lemma EmptyIntervalReportsOutsideSpace()
    ensures var rs := [Range(0, 19), Range(25, 20)];
      |Fold(rs)| > 1 && Fold(rs)[1].lo - 1 > 20 &&
      JoinedFold(rs) == [Range(0, 19)]
  {
    var rs := [Range(0, 19), Range(25, 20)];
    assert rs[..1] == [Range(0, 19)];
    assert [Range(0, 19)][..0] == [];
    assert Fold(rs) == rs;
    assert JoinedFold(rs[..1]) == [Range(0, 19)];
  }
}
