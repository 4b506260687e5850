/** Day 4: pairs of section assignments `lo-hi`; count the pairs where one assignment
    fully contains the other, and the pairs that overlap at all. */
module Day4 {
  /** A parsed assignment `lo-hi` (both ends included). */
  datatype Assignment = Assignment(lo: nat, hi: nat)

  datatype Pair = Pair(left: Assignment, right: Assignment)

  /** A real elf assignment names its lower section first. */
  predicate WellFormed(a: Assignment) { a.lo <= a.hi }

  predicate Covers(a: Assignment, section: int) { a.lo <= section <= a.hi }

  /** The filter of procces_one: one assignment's bounds lie inside the other's. */
  predicate FullyContains(p: Pair) {
    (p.left.lo <= p.right.lo && p.left.hi >= p.right.hi) ||
    (p.right.lo <= p.left.lo && p.right.hi >= p.left.hi)
  }

  /** The filter of procces_two: the two assignments are not apart. */
  predicate Overlapping(p: Pair) {
    !(p.left.lo > p.right.hi || p.left.hi < p.right.lo)
  }

  /** procces_one: the number of pairs where one assignment contains the other. */
  function ProcessOne(pairs: seq<Pair>): (r: nat)
    ensures r <= |pairs|
  {
    if pairs == [] then 0
    else ProcessOne(pairs[..|pairs| - 1]) + (if FullyContains(pairs[|pairs| - 1]) then 1 else 0)
  }

  /** procces_two: the number of overlapping pairs. */
  function ProcessTwo(pairs: seq<Pair>): (r: nat)
    ensures r <= |pairs|
  {
    if pairs == [] then 0
    else ProcessTwo(pairs[..|pairs| - 1]) + (if Overlapping(pairs[|pairs| - 1]) then 1 else 0)
  }

  /** The pair with its two assignments in the other order. */
  function Swap(p: Pair): (r: Pair)
    ensures r.left == p.right && r.right == p.left
  {
    Pair(p.right, p.left)
  }

  /** Every pair with its assignments swapped. */
  function SwapAll(pairs: seq<Pair>): (r: seq<Pair>)
    ensures |r| == |pairs| && forall i :: 0 <= i < |pairs| ==> r[i] == Swap(pairs[i])
  {
    seq(|pairs|, i requires 0 <= i < |pairs| => Swap(pairs[i]))
  }

  /** Both filters treat the two assignments of a pair alike. */
  lemma Symmetric(p: Pair)
    ensures FullyContains(Swap(p)) == FullyContains(p)
    ensures Overlapping(Swap(p)) == Overlapping(p)
  {
  }

  /** Swapping the assignments of every pair changes neither count. */
  lemma {:induction false} CountsSymmetric(pairs: seq<Pair>)
    ensures ProcessOne(SwapAll(pairs)) == ProcessOne(pairs)
    ensures ProcessTwo(SwapAll(pairs)) == ProcessTwo(pairs)
  {
    if pairs != [] {
      var n := |pairs| - 1;
      assert SwapAll(pairs)[..n] == SwapAll(pairs[..n]);
      CountsSymmetric(pairs[..n]);
      Symmetric(pairs[n]);
    }
  }

  /** The indices of the pairs a filter keeps, split at the last pair. */
  lemma LastIndex(pairs: seq<Pair>, keep: set<int>, kept: set<int>, last: bool)
    requires pairs != []
    requires forall i :: i in keep <==> 0 <= i < |pairs| - 1 && i in kept
    requires |pairs| - 1 in kept <==> last
    requires forall i :: i in kept ==> 0 <= i < |pairs|
    ensures |kept| == |keep| + (if last then 1 else 0)
  {
    var n := |pairs| - 1;
    var rest := if last then keep + {n} else keep;
    forall i ensures i in kept <==> i in rest {
      if i in kept {
        assert 0 <= i < |pairs|;
      }
    }
    assert kept == rest;
  }

  /** procces_one counts exactly the indices of the pairs its filter keeps. */
  lemma {:induction false} ProcessOneCounts(pairs: seq<Pair>)
    ensures ProcessOne(pairs) == |set i | 0 <= i < |pairs| && FullyContains(pairs[i])|
  {
    if pairs != [] {
      var n := |pairs| - 1;
      var init := pairs[..n];
      ProcessOneCounts(init);
      LastIndex(pairs, (set i | 0 <= i < |init| && FullyContains(init[i])),
        (set i | 0 <= i < |pairs| && FullyContains(pairs[i])), FullyContains(pairs[n]));
    }
  }

  /** procces_two counts exactly the indices of the pairs its filter keeps. */
  lemma {:induction false} ProcessTwoCounts(pairs: seq<Pair>)
    ensures ProcessTwo(pairs) == |set i | 0 <= i < |pairs| && Overlapping(pairs[i])|
  {
    if pairs != [] {
      var n := |pairs| - 1;
      var init := pairs[..n];
      ProcessTwoCounts(init);
      LastIndex(pairs, (set i | 0 <= i < |init| && Overlapping(init[i])),
        (set i | 0 <= i < |pairs| && Overlapping(pairs[i])), Overlapping(pairs[n]));
    }
  }

  /** The bounds test of procces_one means that every section of one assignment
      is a section of the other. */
  lemma ContainsMeansSubset(p: Pair)
    requires WellFormed(p.left) && WellFormed(p.right)
    ensures FullyContains(p) <==>
      (forall s :: Covers(p.right, s) ==> Covers(p.left, s)) ||
      (forall s :: Covers(p.left, s) ==> Covers(p.right, s))
  {
    if forall s :: Covers(p.right, s) ==> Covers(p.left, s) {
      assert Covers(p.right, p.right.lo) && Covers(p.right, p.right.hi);
    }
    if forall s :: Covers(p.left, s) ==> Covers(p.right, s) {
      assert Covers(p.left, p.left.lo) && Covers(p.left, p.left.hi);
    }
  }

  /** The test of procces_two means that the two assignments share a section. */
  lemma OverlapMeansShared(p: Pair)
    requires WellFormed(p.left) && WellFormed(p.right)
    ensures Overlapping(p) <==> exists s :: Covers(p.left, s) && Covers(p.right, s)
  {
    if Overlapping(p) {
      var s := if p.left.lo < p.right.lo then p.right.lo else p.left.lo;
      assert Covers(p.left, s) && Covers(p.right, s);
    }
  }

  /** Every pair counted by procces_one is counted by procces_two. */
  lemma {:induction false} PartOneAtMostPartTwo(pairs: seq<Pair>)
    requires forall i :: 0 <= i < |pairs| ==> WellFormed(pairs[i].left) && WellFormed(pairs[i].right)
    ensures ProcessOne(pairs) <= ProcessTwo(pairs)
  {
    if pairs != [] {
      PartOneAtMostPartTwo(pairs[..|pairs| - 1]);
    }
  }

  function Sample(): seq<Pair> {
    [Pair(Assignment(2, 4), Assignment(6, 8)), Pair(Assignment(2, 3), Assignment(4, 5)),
     Pair(Assignment(5, 7), Assignment(7, 9)), Pair(Assignment(2, 8), Assignment(3, 7)),
     Pair(Assignment(6, 6), Assignment(4, 6)), Pair(Assignment(2, 6), Assignment(4, 8))]
  }

  /** The puzzle's example: two containing pairs, four overlapping pairs. */
  lemma SampleAnswers()
    ensures ProcessOne(Sample()) == 2 && ProcessTwo(Sample()) == 4
  {
    var s := Sample();
    assert s[..1][..0] == [] && s[..2][..1] == s[..1] && s[..3][..2] == s[..2];
    assert s[..4][..3] == s[..3] && s[..5][..4] == s[..4] && s[..6][..5] == s[..5] && s[..6] == s;
    assert ProcessOne(s[..1]) == 0 && ProcessTwo(s[..1]) == 0;
    assert ProcessOne(s[..2]) == 0 && ProcessTwo(s[..2]) == 0;
    assert ProcessOne(s[..3]) == 0 && ProcessTwo(s[..3]) == 1;
    assert ProcessOne(s[..4]) == 1 && ProcessTwo(s[..4]) == 2;
    assert ProcessOne(s[..5]) == 2 && ProcessTwo(s[..5]) == 3;
  }
}
