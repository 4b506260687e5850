/** Day 1 ("day_one"): calorie counting. The input is a list of elves, each a
    non-empty list of calorie counts; part one is the largest per-elf total, part two
    the sum of the three largest totals. */
module DayOne {
  import opened Wrappers
  import Sorting

  /** Sum of one elf's items (the inner `sum` of lines 16-17 and 29-30). */
  function Sum(items: seq<nat>): nat {
    if items == [] then 0 else Sum(items[..|items| - 1]) + items[|items| - 1]
  }

  function Totals(elves: seq<seq<nat>>): (r: seq<nat>)
    ensures |r| == |elves| && forall i :: 0 <= i < |elves| ==> r[i] == Sum(elves[i])
  {
    seq(|elves|, i requires 0 <= i < |elves| => Sum(elves[i]))
  }

  /** `Iterator::max`: the greatest element, or `None` for an empty sequence. */
  function Max(s: seq<nat>): (r: Option<nat>)
    ensures r.None? <==> s == []
    ensures r.Some? ==> r.value in s && forall i :: 0 <= i < |s| ==> s[i] <= r.value
  {
    if s == [] then None
    else
      match Max(s[..|s| - 1])
      case None => Some(s[|s| - 1])
      case Some(m) => Some(if m < s[|s| - 1] then s[|s| - 1] else m)
  }

  /** part_one: the largest total (the `unwrap` of `max` fails only without elves). */
  function PartOne(elves: seq<seq<nat>>): (r: Option<nat>)
    ensures r.None? <==> elves == []
    ensures r.Some? ==> (exists i :: 0 <= i < |elves| && Sum(elves[i]) == r.value) &&
                        forall i :: 0 <= i < |elves| ==> Sum(elves[i]) <= r.value
  {
    Max(Totals(elves))
  }

  /** `rev().take(k).sum()`: the sum of the last `k` elements (all of them if fewer). */
  function SumOfLast(s: seq<int>, k: nat): int {
    if k == 0 || s == [] then 0 else s[|s| - 1] + SumOfLast(s[..|s| - 1], k - 1)
  }

  /** part_two: sort the totals ascending in place, then sum the last three. The
      result is the same for every sorted arrangement of the totals, so it depends
      only on which totals occur, not on the elves' order. */
  method PartTwo(elves: seq<seq<nat>>) returns (r: int)
    ensures forall t :: Sorting.Sorted(t) && multiset(t) == multiset(Totals(elves)) ==> r == SumOfLast(t, 3)
  {
    var totals := Totals(elves);
    var a := new int[|totals|](i requires 0 <= i < |totals| => totals[i]);
    assert a[..] == totals;
    Sorting.SortByKey(a, x => x);
    assert Sorting.Sorted(a[..]);
    r := SumOfLast(a[..], 3);
    forall t | Sorting.Sorted(t) && multiset(t) == multiset(Totals(elves)) ensures r == SumOfLast(t, 3) {
      Sorting.SortedUnique(a[..], t);
    }
  }

  /** The last element of a sorted non-empty sequence is its maximum. */
  lemma LastOfSortedIsMax(t: seq<int>, m: int)
    requires Sorting.Sorted(t) && t != [] && m in t
    ensures m <= t[|t| - 1]
  {
  }

  /** The three largest totals together carry at least as many calories as the
      largest alone (all totals are non-negative). */
  lemma {:induction false} PartTwoAtLeastPartOne(elves: seq<seq<nat>>, t: seq<int>)
    requires elves != []
    requires Sorting.Sorted(t) && multiset(t) == multiset(Totals(elves))
    ensures PartOne(elves).Some? && SumOfLast(t, 3) >= PartOne(elves).value
  {
    var totals := Totals(elves);
    var m := PartOne(elves).value;
    assert m in multiset(t);
    LastOfSortedIsMax(t, m);
    assert |t| == |multiset(totals)| == |totals|;
    forall i | 0 <= i < |t| ensures t[i] >= 0 {
      assert t[i] in multiset(totals);
    }
    SumOfLastNonNegative(t[..|t| - 1], 2);
  }

  lemma {:induction false} SumOfLastNonNegative(s: seq<int>, k: nat)
    requires forall i :: 0 <= i < |s| ==> s[i] >= 0
    ensures SumOfLast(s, k) >= 0
  {
    if k > 0 && s != [] {
      SumOfLastNonNegative(s[..|s| - 1], k - 1);
    }
  }

  /** The puzzle's example: the fourth elf carries the most, 24000 calories. */
  lemma SampleAnswer()
    ensures PartOne([[1000, 2000, 3000], [4000], [5000, 6000], [7000, 8000, 9000], [10000]]) == Some(24000)
  {
    var elves: seq<seq<nat>> := [[1000, 2000, 3000], [4000], [5000, 6000], [7000, 8000, 9000], [10000]];
    var totals := Totals(elves);
    assert Sum([1000, 2000, 3000]) == 6000 by {
      assert [1000, 2000, 3000][..2] == [1000, 2000] && [1000, 2000][..1] == [1000];
      assert [1000][..0] == [];
    }
    assert Sum([5000, 6000]) == 11000 by {
      assert [5000, 6000][..1] == [5000] && [5000][..0] == [];
    }
    assert Sum([7000, 8000, 9000]) == 24000 by {
      assert [7000, 8000, 9000][..2] == [7000, 8000] && [7000, 8000][..1] == [7000];
      assert [7000][..0] == [];
    }
    assert Sum([4000]) == 4000 && Sum([10000]) == 10000 by {
      assert [4000][..0] == [] && [10000][..0] == [];
    }
    assert totals == [6000, 4000, 11000, 24000, 10000];
    assert totals[..4][..3][..2][..1][..0] == [];
  }
}
