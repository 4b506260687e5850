/** The second solver for day 13. Its packets, ordering and part one are the same as
    in `Day13`; part two looks the dividers up by structural equality in the sorted
    packets instead of by binary search. */
module DayThirdteen {
  import opened Day13

  /** A packet that is, structurally, one of the two dividers. */
  predicate IsDivider(p: Packet) {
    p == Divider2 || p == Divider6
  }

  /** The product of the 1-based positions of the packets that are dividers. */
  function MarkedProduct(s: seq<Packet>): nat {
    if s == [] then 1
    else MarkedProduct(s[..|s| - 1]) * (if IsDivider(s[|s| - 1]) then |s| else 1)
  }

  /** `proccess_two` (day_thirdteen/src/lib.rs:52-68): sort all packets with the
      dividers, stably, then multiply the positions of the dividers. */
  method ProcessTwo(pairs: seq<(Packet, Packet)>) returns (r: nat)
    ensures r == MarkedProduct(InsertionSort(AllPackets(pairs)))
    ensures exists s :: Sorted(s) && multiset(s) == multiset(AllPackets(pairs)) && r == MarkedProduct(s)
  {
    var all := AllPackets(pairs);
    var a := new Packet[|all|](i requires 0 <= i < |all| => all[i]);
    assert a[..] == all;
    Sort(a);
    r := MarkedProduct(a[..]);
  }

  /** The answer is that of every stable sort: any sorted arrangement of the
      packets that keeps each class of the ordering in input order is the one
      `ProcessTwo` multiplies over. */
  lemma StableAnswer(pairs: seq<(Packet, Packet)>, s: seq<Packet>)
    requires Sorted(s) && SameClasses(s, AllPackets(pairs))
    ensures MarkedProduct(s) == MarkedProduct(InsertionSort(AllPackets(pairs)))
  {
    var all := AllPackets(pairs);
    InsertionSortSorted(all);
    forall d ensures EqualTo(s, d) == EqualTo(InsertionSort(all), d) {
      InsertionSortStable(all, d);
    }
    StableUnique(s, InsertionSort(all));
  }

  /** `[2]` compares equal to the divider `[[2]]` but is not it. Sorted stably
      it stays ahead of the divider, which lands third: the answer is 3 * 4. An
      unstable sort could put the divider second and answer 2 * 4. */
  lemma EqualToDividerStaysAhead(a: Packet, b: Packet)
    requires a == List([Num(2)]) && b == List([Num(1)])
    ensures MarkedProduct(InsertionSort(AllPackets([(a, b)]))) == 12
  {
    SampleOrder(a, b);
    assert !IsDivider(a) && !IsDivider(b) by {
      assert a.items[0].Num? && b.items[0].Num?;
      assert Divider2.items[0].List? && Divider6.items[0].List?;
    }
    TieBeforeDivider(a, b);
  }

  /** A first packet greater than the second and tied with the divider `[[2]]`
      keeps its place ahead of that divider. */
  lemma TieBeforeDivider(a: Packet, b: Packet)
    requires Cmp(a, b) == Greater && Cmp(a, Divider2) == Equal && Cmp(Divider2, Divider6) == Less
    requires !IsDivider(a) && !IsDivider(b)
    ensures InsertionSort(AllPackets([(a, b)])) == [b, a, Divider2, Divider6]
    ensures MarkedProduct(InsertionSort(AllPackets([(a, b)]))) == 12
  {
    assert AllPackets([(a, b)]) == [a, b, Divider2, Divider6] by {
      assert Unpaired([(a, b)]) == Unpaired([]) + [a, b];
    }
    SortFour(a, b, Divider2, Divider6);
    MarksAtThreeAndFour(b, a, Divider2, Divider6);
  }

  /** Two packets that are not dividers followed by two that are: the
      dividers are third and fourth. */
  lemma MarksAtThreeAndFour(a: Packet, b: Packet, c: Packet, d: Packet)
    requires !IsDivider(a) && !IsDivider(b) && IsDivider(c) && IsDivider(d)
    ensures MarkedProduct([a, b, c, d]) == 12
  {
    var s := [a, b, c, d];
    forall i | 0 <= i < |s| ensures IsDivider(s[i]) <==> i == 2 || i == 3 {
    }
    BothMarks(s, 2, 3);
    assert DecoderKey(2, 3) == 12;
  }

  /** Four packets where only the first two are out of order sort by swapping
      those two. */
  lemma SortFour(a: Packet, b: Packet, c: Packet, d: Packet)
    requires Cmp(a, b) == Greater && Le(a, c) && Le(c, d)
    ensures InsertionSort([a, b, c, d]) == [b, a, c, d]
  {
    SortThree(a, b, c);
    SortAfter([a, b, c], [b, a, c], d);
    Snoc3(a, b, c, d);
    Snoc3(b, a, c, d);
  }

  lemma Snoc3(a: Packet, b: Packet, c: Packet, d: Packet)
    ensures [a, b, c] + [d] == [a, b, c, d]
  {
  }

  /** The same for three packets. */
  lemma SortThree(a: Packet, b: Packet, c: Packet)
    requires Cmp(a, b) == Greater && Le(a, c)
    ensures InsertionSort([a, b, c]) == [b, a, c]
  {
    SortPair(a, b);
    SortAfter([a, b], [b, a], c);
    Snoc2(a, b, c);
    Snoc2(b, a, c);
  }

  lemma Snoc2(a: Packet, b: Packet, c: Packet)
    ensures [a, b] + [c] == [a, b, c]
  {
  }

  /** A packet no smaller than the last one sorted goes at the end. */
  lemma SortAfter(s: seq<Packet>, sorted: seq<Packet>, x: Packet)
    requires InsertionSort(s) == sorted && sorted != [] && Le(sorted[|sorted| - 1], x)
    ensures InsertionSort(s + [x]) == sorted + [x]
  {
    SortSnoc(s, x);
  }

  /** Sorting one more packet inserts it into the sorted packets before it. */
  lemma SortSnoc(s: seq<Packet>, x: Packet)
    ensures InsertionSort(s + [x]) == Insert(InsertionSort(s), x)
  {
    assert (s + [x])[..|s|] == s;
  }

  /** Two packets in decreasing order sort to the reverse. */
  lemma SortPair(a: Packet, b: Packet)
    requires Cmp(a, b) == Greater
    ensures InsertionSort([a, b]) == [b, a]
  {
    SortSnoc([], a);
    assert Insert([], a) == [a];
    SortSnoc([a], b);
    Snoc1(a, b);
    InsertBelow(a, b);
  }

  lemma Snoc1(a: Packet, b: Packet)
    ensures [a] + [b] == [a, b]
  {
  }

  /** A packet below the only one goes in front of it. */
  lemma InsertBelow(a: Packet, b: Packet)
    requires Cmp(a, b) == Greater
    ensures Insert([a], b) == [b, a]
  {
    assert Insert([a], b) == Insert([], b) + [a];
  }

  /** How the sample packets compare: `[2]` ties with the divider `[[2]]`. */
  lemma SampleOrder(a: Packet, b: Packet)
    requires a == List([Num(2)]) && b == List([Num(1)])
    ensures Cmp(a, b) == Greater && Cmp(b, Divider2) == Less
    ensures Cmp(a, Divider2) == Equal && Cmp(Divider2, Divider6) == Less
  {
  }

  /** The product over a sequence whose dividers sit exactly at indices `p` and `q`. */
  lemma {:induction false} TwoMarks(s: seq<Packet>, p: nat, q: nat, m: nat)
    requires p != q && m <= |s|
    requires forall i :: 0 <= i < |s| ==> (IsDivider(s[i]) <==> i == p || i == q)
    ensures MarkedProduct(s[..m]) == (if p < m then p + 1 else 1) * (if q < m then q + 1 else 1)
  {
    if m > 0 {
      var t := s[..m];
      assert t[..m - 1] == s[..m - 1] && t[m - 1] == s[m - 1];
      TwoMarks(s, p, q, m - 1);
      var a := if p < m - 1 then p + 1 else 1;
      var b := if q < m - 1 then q + 1 else 1;
      var f := if IsDivider(s[m - 1]) then m else 1;
      assert MarkedProduct(t) == (a * b) * f;
      if m - 1 == p {
        assert a == 1 && f == m;
        assert (a * b) * f == m * b;
      } else if m - 1 == q {
        assert b == 1 && f == m;
        assert (a * b) * f == a * m;
      } else {
        assert f == 1;
      }
    } else {
      assert s[..m] == [];
    }
  }

  /** In the sorted packets a divider that is alone in its class of the ordering
      appears, and only at the position counting the packets below it. */
  lemma DividerAt(s: seq<Packet>, all: seq<Packet>, d: Packet) returns (k: nat)
    requires Sorted(s) && multiset(s) == multiset(all)
    requires d in all && Count(all, d, Equal) == 1
    ensures k < |s| && s[k] == d && k == Count(all, d, Less)
    ensures forall i :: 0 <= i < |s| && s[i] == d ==> i == k
  {
    CmpReflexive(d);
    forall i | 0 <= i < |s| && s[i] == d ensures i == Count(all, d, Less) {
      Position(s, d, i);
      InBlockPermutation(s, all, d, i);
    }
    assert d in multiset(s);
    k :| 0 <= k < |s| && s[k] == d;
  }

  /** When each divider is the only packet in its class of the ordering, the two
      solvers agree: the structural lookup finds the dividers at the positions the
      binary search of `Day13.ProcessTwo` is confined to. */
  lemma AgreesWithBinarySearch(s: seq<Packet>, all: seq<Packet>)
    requires Sorted(s) && multiset(s) == multiset(all)
    requires Divider2 in all && Divider6 in all
    requires Count(all, Divider2, Equal) == 1 && Count(all, Divider6, Equal) == 1
    ensures MarkedProduct(s) == DecoderKey(Count(all, Divider2, Less), Count(all, Divider6, Less))
  {
    var p := DividerAt(s, all, Divider2);
    var q := DividerAt(s, all, Divider6);
    assert p != q;
    BothMarks(s, p, q);
  }

  /** The product over a sequence whose only dividers are at `p` and `q` is the
      decoder key of those positions. */
  lemma BothMarks(s: seq<Packet>, p: nat, q: nat)
    requires p != q && p < |s| && q < |s|
    requires forall i :: 0 <= i < |s| ==> (IsDivider(s[i]) <==> i == p || i == q)
    ensures MarkedProduct(s) == DecoderKey(p, q)
  {
    TwoMarks(s, p, q, |s|);
    assert s[..|s|] == s;
  }
}
