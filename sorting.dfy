/** In-place sorting by an integer key, standing for the standard library's
    `sort` / `sort_by` / `sort_by_key` on a slice, and the facts about sorted
    sequences that the day modules rely on. */
module Sorting {
  /** Keys never decrease from left to right. */
  predicate SortedBy<T>(s: seq<T>, key: T -> int) {
    forall i, j :: 0 <= i < j < |s| ==> key(s[i]) <= key(s[j])
  }

  predicate Sorted(s: seq<int>) {
    forall i, j :: 0 <= i < j < |s| ==> s[i] <= s[j]
  }

  /** Insertion sort: afterwards the slice is ordered by `key` and holds the same
      elements. */
  method SortByKey<T>(a: array<T>, key: T -> int)
    modifies a
    ensures SortedBy(a[..], key)
    ensures multiset(a[..]) == multiset(old(a[..]))
  {
    var i := 0;
    while i < a.Length
      invariant 0 <= i <= a.Length
      invariant SortedBy(a[..i], key)
      invariant multiset(a[..]) == multiset(old(a[..]))
    {
      InsertLast(a, i, key);
      i := i + 1;
    }
  }

  /** Halfway through inserting `s[j]`: `s[..i + 1]` is sorted except at `j`, and
      every key after position `j` is larger than `s[j]`'s. */
  predicate Inserting<T>(s: seq<T>, i: nat, j: nat, key: T -> int) {
    j <= i < |s| &&
    (forall p, q :: 0 <= p < q <= i && p != j && q != j ==> key(s[p]) <= key(s[q])) &&
    (forall q :: j < q <= i ==> key(s[j]) < key(s[q]))
  }

  /** `s` with the elements at `j - 1` and `j` exchanged. */
  function Swap<T>(s: seq<T>, j: nat): (r: seq<T>)
    requires 0 < j < |s|
    ensures |r| == |s| && multiset(r) == multiset(s)
  {
    s[j - 1 := s[j]][j := s[j - 1]]
  }

  lemma SwapStep<T>(s: seq<T>, i: nat, j: nat, key: T -> int)
    requires Inserting(s, i, j, key) && 0 < j && key(s[j - 1]) > key(s[j])
    ensures Inserting(Swap(s, j), i, j - 1, key)
  {
    var r := Swap(s, j);
    forall p, q | 0 <= p < q <= i && p != j - 1 && q != j - 1 ensures key(r[p]) <= key(r[q]) {
      if q == j {
        assert r[q] == s[j - 1];
      } else if p == j {
        assert r[p] == s[j - 1];
      }
    }
  }

  lemma InsertingDone<T>(s: seq<T>, i: nat, j: nat, key: T -> int)
    requires Inserting(s, i, j, key) && (j == 0 || key(s[j - 1]) <= key(s[j]))
    ensures SortedBy(s[..i + 1], key)
  {
  }

  /** Moves `a[i]` left past every larger key, so that `a[..i + 1]` becomes sorted. */
  method InsertLast<T>(a: array<T>, i: nat, key: T -> int)
    requires i < a.Length
    requires SortedBy(a[..i], key)
    modifies a
    ensures SortedBy(a[..i + 1], key)
    ensures multiset(a[..]) == multiset(old(a[..]))
  {
    var j := i;
    while j > 0 && key(a[j - 1]) > key(a[j])
      invariant 0 <= j <= i
      invariant Inserting(a[..], i, j, key)
      invariant multiset(a[..]) == multiset(old(a[..]))
    {
      ghost var before := a[..];
      a[j - 1], a[j] := a[j], a[j - 1];
      assert a[..] == Swap(before, j);
      SwapStep(before, i, j, key);
      j := j - 1;
    }
    InsertingDone(a[..], i, j, key);
  }

  /** A multiset of integers has exactly one sorted arrangement. */
  lemma {:induction false} SortedUnique(s: seq<int>, t: seq<int>)
    requires Sorted(s) && Sorted(t) && multiset(s) == multiset(t)
    ensures s == t
  {
    assert |t| == |multiset(t)| == |multiset(s)| == |s|;
    if s != [] {
      assert s[0] == t[0] by { HeadIsLeast(s, t[0]); HeadIsLeast(t, s[0]); }
      assert multiset(s[1..]) == multiset(t[1..]) by { TailMultiset(s); TailMultiset(t); }
      assert Sorted(s[1..]) && Sorted(t[1..]) by { TailSorted(s); TailSorted(t); }
      SortedUnique(s[1..], t[1..]);
      assert s == [s[0]] + s[1..] && t == [t[0]] + t[1..];
    }
  }

  lemma TailMultiset(s: seq<int>)
    requires s != []
    ensures s == [s[0]] + s[1..]
    ensures multiset(s[1..]) == multiset(s) - multiset{s[0]}
  {
    assert s == [s[0]] + s[1..];
  }

  lemma TailSorted(s: seq<int>)
    requires Sorted(s) && s != []
    ensures Sorted(s[1..])
  {
    forall i, j | 0 <= i < j < |s| - 1 ensures s[1..][i] <= s[1..][j] {
      assert s[1..][i] == s[i + 1] && s[1..][j] == s[j + 1];
    }
  }

  /** The first element of a sorted non-empty sequence is at most each of its elements. */
  lemma HeadIsLeast(s: seq<int>, v: int)
    requires Sorted(s) && s != [] && v in multiset(s)
    ensures s[0] <= v
  {
    assert v in s;
  }
}
