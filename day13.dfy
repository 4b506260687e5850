/** Day 13: distress signal. Packets are numbers or nested lists of packets, ordered
    by the recursive comparison of the `PartialOrd` implementation: numbers by value,
    lists lexicographically (a proper prefix first), and a number against a list as
    the one-element list holding that number. */
module Day13 {
  import opened Wrappers
  import opened Multisets

  datatype Packet = Num(n: nat) | List(items: seq<Packet>)

  datatype Ordering = Less | Equal | Greater

  function Flip(o: Ordering): Ordering {
    match o
    case Less => Greater
    case Equal => Equal
    case Greater => Less
  }

  /** The number of constructors in a packet: the measure the comparison descends on. */
  function Size(p: Packet): nat
    decreases p, 1
  {
    match p
    case Num(_) => 1
    case List(items) => 1 + SizeList(items)
  }

  function SizeList(ps: seq<Packet>): nat
    decreases ps, 0
  {
    if ps == [] then 0 else Size(ps[0]) + SizeList(ps[1..])
  }

  lemma SizeSingle(p: Packet)
    ensures SizeList([p]) == Size(p)
  {
    assert [p][1..] == [];
  }

  /** `partial_cmp` (day_13/src/lib.rs:37-47). It is total: every pair of packets
      compares, which is why `cmp` may unwrap it. */
  function Cmp(a: Packet, b: Packet): Ordering
    decreases Size(a) + Size(b), 1
  {
    match (a, b)
    case (Num(l), Num(r)) => if l < r then Less else if l == r then Equal else Greater
    case (Num(_), List(r)) => SizeSingle(a); CmpList([a], r)
    case (List(l), Num(_)) => SizeSingle(b); CmpList(l, [b])
    case (List(l), List(r)) => CmpList(l, r)
  }

  /** Slice comparison: the first unequal pair decides, otherwise the shorter slice is
      smaller. */
  function CmpList(l: seq<Packet>, r: seq<Packet>): Ordering
    decreases SizeList(l) + SizeList(r), 2
  {
    if l == [] && r == [] then Equal
    else if l == [] then Less
    else if r == [] then Greater
    else
      match Cmp(l[0], r[0])
      case Equal => CmpList(l[1..], r[1..])
      case o => o
  }

  /** `l.le(r)`. */
  predicate Le(a: Packet, b: Packet) {
    Cmp(a, b) != Greater
  }

  /** The list a packet stands for when compared: a number is the one-element list. */
  function AsList(p: Packet): (r: seq<Packet>)
    ensures SizeList(r) <= Size(p)
    ensures p.List? ==> SizeList(r) < Size(p)
  {
    match p
    case Num(_) => SizeSingle(p); [p]
    case List(items) => items
  }

  /** Every comparison is a comparison of the lists the packets stand for; for two
      numbers the one-element lists compare as the numbers do. */
  lemma CmpViaLists(a: Packet, b: Packet)
    ensures Cmp(a, b) == CmpList(AsList(a), AsList(b))
  {
    if a.Num? && b.Num? {
      assert [a][1..] == [] && [b][1..] == [];
    }
  }

  /** Every packet equals itself. */
  lemma {:induction false} CmpReflexive(a: Packet)
    ensures Cmp(a, a) == Equal
    decreases Size(a) + Size(a), 1
  {
    match a
    case Num(_) =>
    case List(items) => CmpListReflexive(items);
  }

  lemma {:induction false} CmpListReflexive(l: seq<Packet>)
    ensures CmpList(l, l) == Equal
    decreases SizeList(l) + SizeList(l), 2
  {
    if l != [] {
      CmpReflexive(l[0]);
      CmpListReflexive(l[1..]);
    }
  }

  /** Antisymmetry: swapping the arguments reverses the result, the property `sort`
      relies on. */
  lemma {:induction false} CmpFlip(a: Packet, b: Packet)
    ensures Cmp(b, a) == Flip(Cmp(a, b))
    decreases Size(a) + Size(b), 1
  {
    match (a, b)
    case (Num(_), Num(_)) =>
    case (Num(_), List(r)) => SizeSingle(a); CmpListFlip([a], r);
    case (List(l), Num(_)) => SizeSingle(b); CmpListFlip(l, [b]);
    case (List(l), List(r)) => CmpListFlip(l, r);
  }

  lemma {:induction false} CmpListFlip(l: seq<Packet>, r: seq<Packet>)
    ensures CmpList(r, l) == Flip(CmpList(l, r))
    decreases SizeList(l) + SizeList(r), 2
  {
    if l != [] && r != [] {
      CmpFlip(l[0], r[0]);
      if Cmp(l[0], r[0]) == Equal {
        CmpListFlip(l[1..], r[1..]);
      }
    }
  }

  /** Transitivity of `<=`, with equality at the end only when both steps are
      equalities: together with `CmpFlip` this makes the ordering a total preorder. */
  lemma {:induction false} CmpTransitive(a: Packet, b: Packet, c: Packet)
    requires Le(a, b) && Le(b, c)
    ensures Le(a, c)
    ensures Cmp(a, c) == Equal <==> Cmp(a, b) == Equal && Cmp(b, c) == Equal
    decreases Size(a) + Size(b) + Size(c), 1
  {
    if a.Num? && b.Num? && c.Num? {
    } else {
      CmpViaLists(a, b);
      CmpViaLists(b, c);
      CmpViaLists(a, c);
      CmpListTransitive(AsList(a), AsList(b), AsList(c));
    }
  }

  lemma {:induction false} CmpListTransitive(l: seq<Packet>, m: seq<Packet>, r: seq<Packet>)
    requires CmpList(l, m) != Greater && CmpList(m, r) != Greater
    ensures CmpList(l, r) != Greater
    ensures CmpList(l, r) == Equal <==> CmpList(l, m) == Equal && CmpList(m, r) == Equal
    decreases SizeList(l) + SizeList(m) + SizeList(r), 2
  {
    if l != [] && m != [] && r != [] {
      var x, y := Cmp(l[0], m[0]), Cmp(m[0], r[0]);
      CmpTransitive(l[0], m[0], r[0]);
      if x == Equal && y == Equal {
        CmpListTransitive(l[1..], m[1..], r[1..]);
      }
    }
  }

  // Part one.

  /** `proccess_one`: the sum of the 1-based indices of the pairs whose left packet is
      at most the right one. */
  function ProcessOne(pairs: seq<(Packet, Packet)>): (r: nat)
    ensures r <= Triangle(|pairs|)
    ensures (forall i :: 0 <= i < |pairs| ==> Le(pairs[i].0, pairs[i].1)) ==> r == Triangle(|pairs|)
    ensures (forall i :: 0 <= i < |pairs| ==> !Le(pairs[i].0, pairs[i].1)) ==> r == 0
  {
    if pairs == [] then 0
    else
      var last := pairs[|pairs| - 1];
      assert forall i :: 0 <= i < |pairs| - 1 ==> pairs[..|pairs| - 1][i] == pairs[i];
      ProcessOne(pairs[..|pairs| - 1]) + (if Le(last.0, last.1) then |pairs| else 0)
  }

  /** 1 + 2 + ... + n. */
  function Triangle(n: nat): (r: nat)
    ensures 2 * r == n * (n + 1)
  {
    if n == 0 then 0 else Triangle(n - 1) + n
  }

  function Swapped(pairs: seq<(Packet, Packet)>): (r: seq<(Packet, Packet)>)
    ensures |r| == |pairs|
  {
    seq(|pairs|, i requires 0 <= i < |pairs| => (pairs[i].1, pairs[i].0))
  }

  /** When no pair compares equal, every index is counted either for the pairs or for
      the pairs read right to left, never both: the two answers add up to 1 + ... + n. */
  lemma {:induction false} ProcessOneSwapped(pairs: seq<(Packet, Packet)>)
    requires forall i :: 0 <= i < |pairs| ==> Cmp(pairs[i].0, pairs[i].1) != Equal
    ensures ProcessOne(pairs) + ProcessOne(Swapped(pairs)) == Triangle(|pairs|)
  {
    if pairs != [] {
      var n := |pairs|;
      assert Swapped(pairs)[..n - 1] == Swapped(pairs[..n - 1]);
      ProcessOneSwapped(pairs[..n - 1]);
      CmpFlip(pairs[n - 1].0, pairs[n - 1].1);
    }
  }

  // Sorting.

  predicate Sorted(s: seq<Packet>) {
    forall i, j :: 0 <= i < j < |s| ==> Le(s[i], s[j])
  }

  /** Stable insertion of `x` into `s`: it goes after every packet, from the
      right, that is not greater than it. */
  function Insert(s: seq<Packet>, x: Packet): (r: seq<Packet>)
    ensures multiset(r) == multiset(s) + multiset{x}
  {
    if s == [] then [x]
    else if Cmp(s[|s| - 1], x) == Greater then
      assert s == s[..|s| - 1] + [s[|s| - 1]];
      Insert(s[..|s| - 1], x) + [s[|s| - 1]]
    else s + [x]
  }

  /** The arrangement a stable sort leaves: each packet inserted in input order. */
  function InsertionSort(s: seq<Packet>): (r: seq<Packet>)
    ensures multiset(r) == multiset(s)
  {
    if s == [] then []
    else
      assert s == s[..|s| - 1] + [s[|s| - 1]];
      Insert(InsertionSort(s[..|s| - 1]), s[|s| - 1])
  }

  /** `packets.sort()`, as an insertion sort in place: it leaves the stable
      arrangement, so the packets end up in order and are the same packets. */
  method Sort(a: array<Packet>)
    modifies a
    ensures a[..] == InsertionSort(old(a[..]))
    ensures Sorted(a[..])
    ensures multiset(a[..]) == multiset(old(a[..]))
  {
    ghost var input := a[..];
    var i := 0;
    while i < a.Length
      invariant 0 <= i <= a.Length
      invariant a[..i] == InsertionSort(input[..i]) && a[i..] == input[i..]
    {
      ghost var before := a[..];
      InsertLast(a, i);
      SortStep(input, before, a[..], i);
      i := i + 1;
    }
    assert a[..] == a[..i] && input == input[..i];
    InsertionSortSorted(input);
  }

  /** One pass of the outer loop extends the sorted prefix by the next input
      packet. */
  lemma SortStep(input: seq<Packet>, before: seq<Packet>, after: seq<Packet>, i: nat)
    requires i < |input| == |before| == |after|
    requires before[..i] == InsertionSort(input[..i]) && before[i..] == input[i..]
    requires after[..i + 1] == Insert(before[..i], before[i]) && after[i + 1..] == before[i + 1..]
    ensures after[..i + 1] == InsertionSort(input[..i + 1]) && after[i + 1..] == input[i + 1..]
  {
    assert input[..i + 1][..i] == input[..i];
    assert before[i] == before[i..][0] == input[i];
    assert before[i + 1..] == before[i..][1..];
  }

  /** Moves `a[i]` left past every strictly greater packet: the prefix up to `i`
      becomes the stable insertion of `a[i]` into the prefix before it. */
  method InsertLast(a: array<Packet>, i: nat)
    requires i < a.Length
    modifies a
    ensures a[..i + 1] == Insert(old(a[..i]), old(a[i]))
    ensures a[i + 1..] == old(a[i + 1..])
  {
    ghost var s0, x := a[..], a[i];
    var j := i;
    assert a[j + 1..i + 1] == [];
    while j > 0 && Cmp(a[j - 1], a[j]) == Greater
      invariant 0 <= j <= i && a[j] == x
      invariant Insert(s0[..i], x) == Insert(a[..j], x) + a[j + 1..i + 1]
      invariant a[i + 1..] == s0[i + 1..]
    {
      ghost var before := a[..];
      a[j - 1], a[j] := a[j], a[j - 1];
      SwapStep(before, a[..], i, j, x);
      j := j - 1;
    }
    Inserted(a[..], i, j, x);
  }

  /** One swap of the insertion loop moves the packet greater than `x` from the
      prefix into the finished suffix. */
  lemma SwapStep(s: seq<Packet>, t: seq<Packet>, i: nat, j: nat, x: Packet)
    requires 0 < j <= i < |s| && s[j] == x && Cmp(s[j - 1], x) == Greater
    requires t == s[j - 1 := x][j := s[j - 1]]
    ensures t[j - 1] == x && t[i + 1..] == s[i + 1..]
    ensures Insert(s[..j], x) + s[j + 1..i + 1] == Insert(t[..j - 1], x) + t[j..i + 1]
  {
    assert s[..j][..j - 1] == s[..j - 1] == t[..j - 1];
    assert t[j..i + 1] == [s[j - 1]] + s[j + 1..i + 1];
  }

  /** Where the insertion loop stops, the packet is in its place. */
  lemma Inserted(s: seq<Packet>, i: nat, j: nat, x: Packet)
    requires j <= i < |s| && s[j] == x
    requires j > 0 ==> Cmp(s[j - 1], x) != Greater
    ensures Insert(s[..j], x) + s[j + 1..i + 1] == s[..i + 1]
  {
    assert s[..i + 1] == s[..j] + [x] + s[j + 1..i + 1];
  }

  /** Inserting into a sorted sequence keeps it sorted. */
  lemma {:induction false} InsertSorted(s: seq<Packet>, x: Packet)
    requires Sorted(s)
    ensures Sorted(Insert(s, x))
  {
    if s != [] {
      var init, y := s[..|s| - 1], s[|s| - 1];
      if Cmp(y, x) == Greater {
        InsertSorted(init, x);
        BelowLast(init, x, y, Insert(init, x));
        SortedSnoc(Insert(init, x), y);
        assert Insert(s, x) == Insert(init, x) + [y];
      } else {
        AboveLast(s, x);
        assert Insert(s, x) == s + [x];
      }
    }
  }

  /** Inserting a packet below `y` into packets all at most `y` gives packets
      all at most `y`. */
  lemma BelowLast(init: seq<Packet>, x: Packet, y: Packet, t: seq<Packet>)
    requires forall m :: 0 <= m < |init| ==> Le(init[m], y)
    requires Cmp(y, x) == Greater && t == Insert(init, x)
    ensures forall k :: 0 <= k < |t| ==> Le(t[k], y)
  {
    forall k | 0 <= k < |t| ensures Le(t[k], y) {
      assert t[k] in multiset(t);
      if t[k] == x {
        CmpFlip(y, x);
      } else {
        assert t[k] in multiset(init);
        var m :| 0 <= m < |init| && init[m] == t[k];
      }
    }
  }

  /** A packet at least every packet of a sorted sequence can follow them. */
  lemma SortedSnoc(t: seq<Packet>, y: Packet)
    requires Sorted(t) && forall k :: 0 <= k < |t| ==> Le(t[k], y)
    ensures Sorted(t + [y])
  {
  }

  /** A packet not below the last one of a sorted sequence can follow it. */
  lemma AboveLast(s: seq<Packet>, x: Packet)
    requires Sorted(s) && s != [] && Le(s[|s| - 1], x)
    ensures Sorted(s + [x])
  {
    var n := |s|;
    forall k | 0 <= k < n - 1 ensures Le(s[k], x) {
      CmpTransitive(s[k], s[n - 1], x);
    }
    SortedSnoc(s, x);
  }

  /** The stable arrangement is sorted. */
  lemma {:induction false} InsertionSortSorted(s: seq<Packet>)
    ensures Sorted(InsertionSort(s))
  {
    if s != [] {
      InsertionSortSorted(s[..|s| - 1]);
      InsertSorted(InsertionSort(s[..|s| - 1]), s[|s| - 1]);
    }
  }

  // Stability.

  /** The packets of `s` that compare equal to `d`, in their order in `s`. */
  function EqualTo(s: seq<Packet>, d: Packet): seq<Packet>
  {
    if s == [] then []
    else EqualTo(s[..|s| - 1], d) + Class(s[|s| - 1], d)
  }

  /** The class of `d` holds exactly the packets of `s` equal to `d`. */
  lemma {:induction false} EqualToMembers(s: seq<Packet>, d: Packet, z: Packet)
    ensures z in EqualTo(s, d) <==> z in s && Cmp(z, d) == Equal
  {
    if s != [] {
      var n := |s|;
      assert s == s[..n - 1] + [s[n - 1]];
      EqualToMembers(s[..n - 1], d, z);
    }
  }

  lemma EqualToSnoc(s: seq<Packet>, y: Packet, d: Packet)
    ensures EqualTo(s + [y], d) == EqualTo(s, d) + Class(y, d)
  {
    assert (s + [y])[..|s|] == s;
  }

  /** Inserting `x` puts it after the packets of its class already placed, and
      leaves every other class in order. */
  lemma {:induction false} InsertStable(s: seq<Packet>, x: Packet, d: Packet)
    ensures EqualTo(Insert(s, x), d) == EqualTo(s, d) + Class(x, d)
  {
    if s == [] {
      assert Insert(s, x) == [] + [x];
      EqualToSnoc([], x, d);
    } else {
      var n := |s|;
      var y := s[n - 1];
      EqualToSnoc(s[..n - 1], y, d);
      assert s[..n - 1] + [y] == s;
      if Cmp(y, x) == Greater {
        InsertStable(s[..n - 1], x, d);
        InsertPast(s, x, d);
      } else {
        assert Insert(s, x) == s + [x];
        EqualToSnoc(s, x, d);
      }
    }
  }

  /** `[p]` when `p` is in the class of `d`, else nothing. */
  function Class(p: Packet, d: Packet): seq<Packet> {
    if Cmp(p, d) == Equal then [p] else []
  }

  /** The step of `InsertStable` where `x` moves left past a greater packet `y`:
      `x` and `y` are never both in the class of `d`. */
  lemma InsertPast(s: seq<Packet>, x: Packet, d: Packet)
    requires s != [] && Cmp(s[|s| - 1], x) == Greater
    requires EqualTo(s, d) == EqualTo(s[..|s| - 1], d) + Class(s[|s| - 1], d)
    requires EqualTo(Insert(s[..|s| - 1], x), d) == EqualTo(s[..|s| - 1], d) + Class(x, d)
    ensures EqualTo(Insert(s, x), d) == EqualTo(s, d) + Class(x, d)
  {
    var y := s[|s| - 1];
    var init := s[..|s| - 1];
    assert Insert(s, x) == Insert(init, x) + [y];
    EqualToSnoc(Insert(init, x), y, d);
    if Cmp(x, d) == Equal && Cmp(y, d) == Equal {
      CmpFlip(x, d);
      CmpTransitive(y, d, x);
      assert false;
    }
    var e := EqualTo(init, d);
    if Class(x, d) == [] {
      assert e + Class(x, d) == e;
      assert EqualTo(s, d) + Class(x, d) == EqualTo(s, d);
    } else {
      assert Class(y, d) == [];
      assert e + Class(y, d) == e;
      assert EqualTo(Insert(init, x), d) + Class(y, d) == EqualTo(Insert(init, x), d);
    }
  }

  /** Stability: the packets of each class of the ordering keep their input
      order. */
  lemma {:induction false} InsertionSortStable(s: seq<Packet>, d: Packet)
    ensures EqualTo(InsertionSort(s), d) == EqualTo(s, d)
  {
    if s != [] {
      var init, y := s[..|s| - 1], s[|s| - 1];
      assert s == init + [y];
      InsertionSortStable(init, d);
      InsertStable(InsertionSort(init), y, d);
      EqualToSnoc(init, y, d);
    }
  }

  /** Two sequences with the same packets in every class. */
  ghost predicate SameClasses(s: seq<Packet>, t: seq<Packet>) {
    forall d :: EqualTo(s, d) == EqualTo(t, d)
  }

  /** A sorted sequence is determined by the order within each class: any two
      sorted arrangements that agree on it are equal, so every stable sort leaves
      the arrangement `InsertionSort` describes. */
  lemma {:induction false} StableUnique(s: seq<Packet>, t: seq<Packet>)
    requires Sorted(s) && Sorted(t) && SameClasses(s, t)
    ensures s == t
    decreases |s| + |t|
  {
    if s != [] {
      SameLength(s, t);
      LastOfClass(s, t);
      var s', t' := s[..|s| - 1], t[..|t| - 1];
      assert s == s' + [s[|s| - 1]] && t == t' + [s[|s| - 1]];
      InitClasses(s', t', s[|s| - 1]);
      StableUnique(s', t');
    } else {
      SameLength(s, t);
    }
  }

  /** Agreeing classes hold the same number of packets overall. */
  lemma SameLength(s: seq<Packet>, t: seq<Packet>)
    requires SameClasses(s, t)
    ensures s == [] <==> t == []
  {
    if s != [] {
      var y := s[0];
      CmpReflexive(y);
      EqualToMembers(s, y, y);
      assert EqualTo(s, y) == EqualTo(t, y);
      EqualToMembers(t, y, y);
    }
    if t != [] {
      var z := t[0];
      CmpReflexive(z);
      EqualToMembers(t, z, z);
      assert EqualTo(s, z) == EqualTo(t, z);
      EqualToMembers(s, z, z);
    }
  }

  /** The last packet of `s` is in `t` when its class agrees in both, so it is
      not greater than the last packet of a sorted `t`. */
  lemma LastBelow(s: seq<Packet>, t: seq<Packet>)
    requires Sorted(t) && s != [] && t != []
    requires EqualTo(s, s[|s| - 1]) == EqualTo(t, s[|s| - 1])
    ensures Le(s[|s| - 1], t[|t| - 1])
  {
    var y := s[|s| - 1];
    CmpReflexive(y);
    EqualToMembers(s, y, y);
    EqualToMembers(t, y, y);
    var m :| 0 <= m < |t| && t[m] == y;
  }

  /** The last packets of two sorted sequences with the same classes are in
      the same class, so the same last packet of that class. */
  lemma LastOfClass(s: seq<Packet>, t: seq<Packet>)
    requires Sorted(s) && Sorted(t) && SameClasses(s, t) && s != [] && t != []
    ensures s[|s| - 1] == t[|t| - 1]
  {
    var y, z := s[|s| - 1], t[|t| - 1];
    var s', t' := s[..|s| - 1], t[..|t| - 1];
    assert s == s' + [y] && t == t' + [z];
    LastBelow(s, t);
    LastBelow(t, s);
    CmpFlip(y, z);
    assert EqualTo(s, y) == EqualTo(t, y);
    SameLastInClass(s', t', y, z);
  }

  /** When `y` and `z` are equal packets ending two sequences, and the class
      of `y` is the same in both, `y` and `z` are the same packet: each ends
      that class. */
  lemma SameLastInClass(s: seq<Packet>, t: seq<Packet>, y: Packet, z: Packet)
    requires Cmp(z, y) == Equal && EqualTo(s + [y], y) == EqualTo(t + [z], y)
    ensures y == z
  {
    CmpReflexive(y);
    EqualToSnoc(s, y, y);
    EqualToSnoc(t, z, y);
    assert EqualTo(s + [y], y)[|EqualTo(s + [y], y)| - 1] == y;
    assert EqualTo(t + [z], y)[|EqualTo(t + [z], y)| - 1] == z;
  }

  /** Dropping the same last packet from both keeps the classes agreeing. */
  lemma InitClasses(s: seq<Packet>, t: seq<Packet>, y: Packet)
    requires SameClasses(s + [y], t + [y])
    ensures SameClasses(s, t)
  {
    forall d ensures EqualTo(s, d) == EqualTo(t, d) {
      EqualToSnoc(s, y, d);
      EqualToSnoc(t, y, d);
      assert EqualTo(s + [y], d) == EqualTo(t + [y], d);
      CancelRight(EqualTo(s, d), EqualTo(t, d), Class(y, d));
    }
  }

  /** Sequences with the same ending agree without it. */
  lemma CancelRight(u: seq<Packet>, v: seq<Packet>, e: seq<Packet>)
    requires u + e == v + e
    ensures u == v
  {
    assert |u| == |v|;
    assert u == (u + e)[..|u|];
  }

  // Where a packet lands in a sorted sequence.

  /** The number of packets of `s` that compare as `o` with `d`. */
  function Count(s: seq<Packet>, d: Packet, o: Ordering): (r: nat)
    ensures r <= |s|
  {
    if s == [] then 0
    else Count(s[..|s| - 1], d, o) + (if Cmp(s[|s| - 1], d) == o then 1 else 0)
  }

  lemma {:induction false} CountConcat(s: seq<Packet>, t: seq<Packet>, d: Packet, o: Ordering)
    ensures Count(s + t, d, o) == Count(s, d, o) + Count(t, d, o)
  {
    if t != [] {
      assert (s + t)[..|s + t| - 1] == s + t[..|t| - 1];
      CountConcat(s, t[..|t| - 1], d, o);
    } else {
      assert s + t == s;
    }
  }

  /** Counting does not depend on the order of the packets. */
  lemma {:induction false} CountPermutation(s: seq<Packet>, t: seq<Packet>, d: Packet, o: Ordering)
    requires multiset(s) == multiset(t)
    ensures Count(s, d, o) == Count(t, d, o)
    decreases |s|
  {
    if s != [] {
      var n := |s|;
      var x := s[n - 1];
      assert s == s[..n - 1] + [x];
      assert x in multiset(t);
      var j :| 0 <= j < |t| && t[j] == x;
      var rest := t[..j] + t[j + 1..];
      CountRemove(t, j, d, o);
      assert multiset(s[..n - 1]) == multiset(rest) by {
        assert multiset(s) == multiset(s[..n - 1]) + multiset{x};
        Cancel(multiset(s[..n - 1]), multiset(rest), multiset{x});
      }
      CountPermutation(s[..n - 1], rest, d, o);
      CountConcat(s[..n - 1], [x], d, o);
      CountSingle(x, d, o);
    }
  }

  lemma CountSingle(x: Packet, d: Packet, o: Ordering)
    ensures Count([x], d, o) == if Cmp(x, d) == o then 1 else 0
  {
    assert [x][..0] == [];
  }

  /** Taking the `j`-th packet out of `t` takes it out of the multiset and the count. */
  lemma CountRemove(t: seq<Packet>, j: nat, d: Packet, o: Ordering)
    requires j < |t|
    ensures multiset(t) == multiset(t[..j] + t[j + 1..]) + multiset{t[j]}
    ensures Count(t, d, o) == Count(t[..j] + t[j + 1..], d, o) + (if Cmp(t[j], d) == o then 1 else 0)
  {
    var x := t[j];
    assert t == t[..j] + [x] + t[j + 1..];
    assert multiset(t) == multiset(t[..j]) + multiset([x]) + multiset(t[j + 1..]);
    CountConcat(t[..j], [x], d, o);
    CountConcat(t[..j] + [x], t[j + 1..], d, o);
    CountConcat(t[..j], t[j + 1..], d, o);
    CountSingle(x, d, o);
  }

  /** No packet of `s` compares as `o` with `d`. */
  lemma {:induction false} CountNone(s: seq<Packet>, d: Packet, o: Ordering)
    requires forall i :: 0 <= i < |s| ==> Cmp(s[i], d) != o
    ensures Count(s, d, o) == 0
  {
    if s != [] {
      CountNone(s[..|s| - 1], d, o);
    }
  }

  /** Every packet of `s` is below or equal to `d`. */
  lemma {:induction false} CountAllBelow(s: seq<Packet>, d: Packet)
    requires forall i :: 0 <= i < |s| ==> Le(s[i], d)
    ensures Count(s, d, Less) + Count(s, d, Equal) == |s|
  {
    if s != [] {
      CountAllBelow(s[..|s| - 1], d);
    }
  }

  /** Index `k` lies in the block of packets equal to `d` in a sorted arrangement. */
  predicate InBlock(s: seq<Packet>, d: Packet, k: int) {
    Count(s, d, Less) <= k < Count(s, d, Less) + Count(s, d, Equal)
  }

  lemma InBlockPermutation(s: seq<Packet>, t: seq<Packet>, d: Packet, k: int)
    requires multiset(s) == multiset(t) && InBlock(s, d, k)
    ensures InBlock(t, d, k)
  {
    CountPermutation(s, t, d, Less);
    CountPermutation(s, t, d, Equal);
  }

  /** In a sorted sequence every packet equal to `d` sits after all packets below `d`
      and before all packets above it; so when only one packet equals `d`, its index
      is the number of packets below `d`. */
  lemma Position(s: seq<Packet>, d: Packet, k: nat)
    requires Sorted(s) && k < |s| && Cmp(s[k], d) == Equal
    ensures InBlock(s, d, k)
  {
    CmpFlip(s[k], d);
    forall i | k < i < |s| ensures Cmp(s[i], d) != Less {
      CmpTransitive(d, s[k], s[i]);
      CmpFlip(s[i], d);
    }
    forall i | 0 <= i <= k ensures Le(s[i], d) {
      if i < k {
        CmpTransitive(s[i], s[k], d);
      }
    }
    assert s == s[..k + 1] + s[k + 1..];
    CountConcat(s[..k + 1], s[k + 1..], d, Less);
    CountConcat(s[..k + 1], s[k + 1..], d, Equal);
    CountNone(s[k + 1..], d, Less);
    CountAllBelow(s[..k + 1], d);
    assert s[..k + 1] == s[..k] + [s[k]];
    CountConcat(s[..k], [s[k]], d, Less);
    assert Count([s[k]], d, Less) == 0 by {
      assert [s[k]][..0] == [];
    }
  }

  /** The standard library's `binary_search` on a sorted slice, by its documented
      contract: the index of some packet equal to `d`, or none when there is none. */
  method BinarySearch(a: array<Packet>, d: Packet) returns (r: Option<nat>)
    requires Sorted(a[..])
    ensures r.Some? ==> r.value < a.Length && Cmp(a[r.value], d) == Equal
    ensures r.None? <==> forall i :: 0 <= i < a.Length ==> Cmp(a[i], d) != Equal
  {
    var lo, hi := 0, a.Length;
    while lo < hi
      invariant 0 <= lo <= hi <= a.Length
      invariant forall i :: 0 <= i < lo ==> Cmp(a[i], d) == Less
      invariant forall i :: hi <= i < a.Length ==> Cmp(a[i], d) == Greater
    {
      var mid := lo + (hi - lo) / 2;
      var c := Cmp(a[mid], d);
      if c == Equal {
        return Some(mid);
      } else if c == Less {
        forall i | lo <= i < mid ensures Cmp(a[i], d) == Less {
          CmpTransitive(a[i], a[mid], d);
        }
        lo := mid + 1;
      } else {
        CmpFlip(a[mid], d);
        forall i | mid < i < hi ensures Cmp(a[i], d) == Greater {
          CmpTransitive(d, a[mid], a[i]);
          CmpFlip(a[i], d);
        }
        hi := mid;
      }
    }
    return None;
  }

  // Part two.

  const Divider2: Packet := List([List([Num(2)])])
  const Divider6: Packet := List([List([Num(6)])])

  /** Every packet of every pair, in order, followed by the two divider packets. */
  function AllPackets(pairs: seq<(Packet, Packet)>): (r: seq<Packet>)
    ensures |r| == 2 * |pairs| + 2
    ensures r[|r| - 2] == Divider2 && r[|r| - 1] == Divider6
  {
    Unpaired(pairs) + [Divider2, Divider6]
  }

  function Unpaired(pairs: seq<(Packet, Packet)>): (r: seq<Packet>)
    ensures |r| == 2 * |pairs|
  {
    if pairs == [] then []
    else Unpaired(pairs[..|pairs| - 1]) + [pairs[|pairs| - 1].0, pairs[|pairs| - 1].1]
  }

  /** The binary search for a divider never fails, because the divider itself is among
      the packets searched. */
  method FindDivider(a: array<Packet>, d: Packet) returns (k: nat)
    requires Sorted(a[..]) && d in a[..]
    ensures k < a.Length && InBlock(a[..], d, k)
  {
    var i :| 0 <= i < a.Length && a[i] == d;
    CmpReflexive(d);
    var r := BinarySearch(a, d);
    k := r.value;
    Position(a[..], d, k);
  }

  /** `proccess_two`: the product of the 1-based positions of the two dividers once all
      packets are sorted. Each position lies in its divider's block; where only one
      packet equals a divider, its position is fixed by the number of packets below
      it. */
  method ProcessTwo(pairs: seq<(Packet, Packet)>) returns (r: nat)
    ensures exists k2, k6 ::
      InBlock(AllPackets(pairs), Divider2, k2) && InBlock(AllPackets(pairs), Divider6, k6) &&
      r == DecoderKey(k2, k6)
  {
    var all := AllPackets(pairs);
    var a := new Packet[|all|](i requires 0 <= i < |all| => all[i]);
    assert a[..] == all;
    Sort(a);
    assert multiset(a[..]) == multiset(all);
    assert all[|all| - 2] == Divider2 && all[|all| - 1] == Divider6;
    assert Divider2 in multiset(all) && Divider6 in multiset(all);
    var k2 := FindDivider(a, Divider2);
    var k6 := FindDivider(a, Divider6);
    InBlockPermutation(a[..], all, Divider2, k2);
    InBlockPermutation(a[..], all, Divider6, k6);
    r := DecoderKey(k2, k6);
  }

  /** The product of the dividers' 1-based positions. */
  function DecoderKey(k2: nat, k6: nat): nat {
    (k2 + 1) * (k6 + 1)
  }

  /** The test in the source: `[1, 2, 3, 4] < [5]`, the first elements decide. */
  lemma PrefixDecides()
    ensures Cmp(List([Num(1), Num(2), Num(3), Num(4)]), List([Num(5)])) == Less
    ensures Cmp(Num(3), List([Num(3), Num(0)])) == Less
  {
    assert [Num(3)][1..] == [];
  }
}
