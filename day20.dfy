/** Day 20: mixing an encrypted file. Every number is tagged with its original
    position; in original order, each one is removed from the arrangement and
    re-inserted as many places further on as its value says, counting modulo
    `n - 1`. The answer adds the numbers 1000, 2000 and 3000 places after the 0. */
module Day20 {
  import opened Wrappers
  import opened Arith

  /** A number with the index it had in the file (`enumerate`). */
  datatype Entry = Entry(tag: nat, value: int)

  const DecryptionKey: int := 811589153

  /** The tagged numbers, each multiplied by `key`. */
  function Tagged(nums: seq<int>, key: int): (r: seq<Entry>)
    ensures |r| == |nums|
    ensures forall i :: 0 <= i < |r| ==> r[i] == Entry(i, nums[i] * key)
  {
    seq(|nums|, i requires 0 <= i < |nums| => Entry(i, nums[i] * key))
  }

  /** Rust's `%` on `i64`: the remainder truncates toward zero and takes the sign of
      the dividend. */
  function RustRem(a: int, m: int): (r: int)
    requires m > 0
    ensures -m < r < m
    ensures a >= 0 ==> r >= 0
  {
    if a >= 0 then a % m else -((-a) % m)
  }

  /** Rust's remainder differs from the Euclidean one by `m` exactly when the
      dividend is negative and not a multiple of `m`. */
  lemma RustRemEuclidean(a: int, m: int)
    requires m > 0
    ensures RustRem(a, m) == if a >= 0 || a % m == 0 then a % m else a % m - m
  {
    if a < 0 {
      var q, s := (-a) / m, (-a) % m;
      assert -a == q * m + s;
      if s == 0 {
        assert a == (-q) * m;
        DivModUnique(a, m, -q, 0);
      } else {
        assert (-q - 1) * m == -(q * m) - m;
        DivModUnique(a, m, -q - 1, m - s);
      }
    }
  }

  /** The index at which a number is re-inserted: `((index + value) % m + m) % m`. */
  function Target(index: int, value: int, size: int): int
    requires size > 0
  {
    RustRem(RustRem(index + value, size) + size, size)
  }

  /** The double remainder always lands in `[0, size)` and agrees with the
      mathematical (Euclidean) remainder of `index + value`. */
  lemma TargetIsEuclidean(index: int, value: int, size: int)
    requires size > 0
    ensures 0 <= Target(index, value, size) < size
    ensures Target(index, value, size) == (index + value) % size
  {
    var e := (index + value) % size;
    var a := RustRem(index + value, size);
    RustRemEuclidean(index + value, size);
    RustRemEuclidean(a + size, size);
    if a == e {
      DivModUnique(a + size, size, 1, e);
    } else {
      DivModUnique(a + size, size, 0, e);
    }
  }

  predicate HasTag(res: seq<Entry>, tag: nat) {
    exists i :: 0 <= i < |res| && res[i].tag == tag
  }

  /** `position` of the first entry with the given tag. */
  function FirstTag(res: seq<Entry>, tag: nat): (k: nat)
    requires HasTag(res, tag)
    ensures k < |res| && res[k].tag == tag
    ensures forall j :: 0 <= j < k ==> res[j].tag != tag
  {
    if res[0].tag == tag then 0
    else
      assert HasTag(res[1..], tag) by {
        var i :| 0 <= i < |res| && res[i].tag == tag;
        assert res[1..][i - 1] == res[i];
      }
      1 + FirstTag(res[1..], tag)
  }

  function Remove<T>(s: seq<T>, k: nat): seq<T>
    requires k < |s|
  {
    s[..k] + s[k + 1..]
  }

  function Insert<T>(s: seq<T>, k: nat, x: T): seq<T>
    requires k <= |s|
  {
    s[..k] + [x] + s[k..]
  }

  lemma RemoveInsert(s: seq<Entry>, k: nat, x: Entry)
    requires k <= |s|
    ensures Remove(Insert(s, k, x), k) == s
    ensures multiset(Insert(s, k, x)) == multiset(s) + multiset{x}
  {
    assert s == s[..k] + s[k..];
  }

  lemma RemoveMultiset(s: seq<Entry>, k: nat)
    requires k < |s|
    ensures multiset(Remove(s, k)) + multiset{s[k]} == multiset(s)
  {
    assert s == s[..k] + [s[k]] + s[k + 1..];
  }

  /** `remove(index)` followed by `insert(target, _)`: the entry ends at `target`, and
      the other entries keep their order. */
  function MoveEntry(res: seq<Entry>, index: nat, target: nat): (r: seq<Entry>)
    requires index < |res| && target < |res|
    ensures |r| == |res| && r[target] == res[index]
    ensures Remove(r, target) == Remove(res, index)
    ensures multiset(r) == multiset(res)
  {
    var rest := Remove(res, index);
    RemoveMultiset(res, index);
    RemoveInsert(rest, target, res[index]);
    Insert(rest, target, res[index])
  }

  /** Moving one number `e`: find its tag, then move the entry there by `e.value`. */
  function MixOne(res: seq<Entry>, e: Entry): (r: seq<Entry>)
    requires |res| >= 2 && e in res
    ensures |r| == |res| && multiset(r) == multiset(res)
    ensures var i := FirstTag(res, e.tag);
      res[i].tag == e.tag && r[Target(i, e.value, |res| - 1)] == res[i] &&
      Remove(r, Target(i, e.value, |res| - 1)) == Remove(res, i)
  {
    var index := FirstTag(res, e.tag);
    MoveEntry(res, index, Target(index, e.value, |res| - 1))
  }

  predicate UniqueTags(res: seq<Entry>) {
    forall i, j :: 0 <= i < |res| && 0 <= j < |res| && res[i].tag == res[j].tag ==> i == j
  }

  /** With distinct tags, the entry that moves is `e` itself, and it lands at the
      target index computed from its old position. */
  lemma MixOneMovesEntry(res: seq<Entry>, e: Entry, i: nat)
    requires |res| >= 2 && UniqueTags(res) && i < |res| && res[i] == e
    ensures 0 <= Target(i, e.value, |res| - 1) < |res| - 1
    ensures MixOne(res, e)[Target(i, e.value, |res| - 1)] == e
  {
    TargetIsEuclidean(i, e.value, |res| - 1);
    assert FirstTag(res, e.tag) == i;
  }

  /** The first `k` moves of a pass: the numbers `order[..k]` are moved one after
      the other. The arrangement always holds the same entries as `order`. */
  function MixAll(res: seq<Entry>, order: seq<Entry>, k: nat): (r: seq<Entry>)
    requires |res| >= 2 && k <= |order| && multiset(res) == multiset(order)
    ensures |r| == |res| && multiset(r) == multiset(res)
  {
    if k == 0 then res
    else
      var prev := MixAll(res, order, k - 1);
      assert order[k - 1] in multiset(prev);
      MixOne(prev, order[k - 1])
  }

  lemma MixAllStep(res: seq<Entry>, order: seq<Entry>, k: nat)
    requires |res| >= 2 && k < |order| && multiset(res) == multiset(order)
    ensures order[k] in MixAll(res, order, k)
    ensures MixAll(res, order, k + 1) == MixOne(MixAll(res, order, k), order[k])
  {
    assert order[k] in multiset(MixAll(res, order, k));
  }

  /** `rounds` passes of mixing in the original order, starting from that order.
      Mixing only rearranges: the length stays `n` and every entry is kept. */
  function Rounds(nums: seq<Entry>, rounds: nat): (r: seq<Entry>)
    requires |nums| >= 2
    ensures |r| == |nums| && multiset(r) == multiset(nums)
  {
    if rounds == 0 then nums else MixAll(Rounds(nums, rounds - 1), nums, |nums|)
  }

  predicate HasZero(res: seq<Entry>) {
    exists i :: 0 <= i < |res| && res[i].value == 0
  }

  function FirstZero(res: seq<Entry>): (k: nat)
    requires HasZero(res)
    ensures k < |res| && res[k].value == 0
    ensures forall j :: 0 <= j < k ==> res[j].value != 0
  {
    if res[0].value == 0 then 0
    else
      assert HasZero(res[1..]) by {
        var i :| 0 <= i < |res| && res[i].value == 0;
        assert res[1..][i - 1] == res[i];
      }
      1 + FirstZero(res[1..])
  }

  /** `cycle().skip(i).nth(k)`: the entry `k` steps round the arrangement from
      index `i`, wrapping from the last index to the first. */
  function CycleNth(res: seq<Entry>, i: nat, k: nat): Entry
    requires i < |res|
    decreases k
  {
    if k == 0 then res[i] else CycleNth(res, if i + 1 == |res| then 0 else i + 1, k - 1)
  }

  /** Stepping round the arrangement is indexing modulo its length. */
  lemma {:induction false} CycleNthIsMod(res: seq<Entry>, i: nat, k: nat)
    requires i < |res|
    ensures CycleNth(res, i, k) == res[(i + k) % |res|]
    decreases k
  {
    var n := |res|;
    if k == 0 {
      DivModUnique(i, n, 0, i);
    } else if i + 1 == n {
      CycleNthIsMod(res, 0, k - 1);
      DivModUnique(k - 1, n, (k - 1) / n, (k - 1) % n);
      DivModUnique(i + k, n, (k - 1) / n + 1, (k - 1) % n);
    } else {
      CycleNthIsMod(res, i + 1, k - 1);
    }
  }

  /** The grove coordinates: the values 1000, 2000 and 3000 places after the first
      0. */
  function GroveSum(res: seq<Entry>): int
    requires HasZero(res)
  {
    var p := FirstZero(res);
    CycleNth(res, p, 1000).value + CycleNth(res, p, 2000).value + CycleNth(res, p, 3000).value
  }

  /** The grove coordinates read off directly: with the first 0 at `p`, they are the
      entries at `(p + 1000) mod n`, `(p + 2000) mod n` and `(p + 3000) mod n`. */
  lemma GroveSumAt(res: seq<Entry>, p: nat)
    requires p < |res| && res[p].value == 0
    requires forall j :: 0 <= j < p ==> res[j].value != 0
    ensures HasZero(res)
    ensures GroveSum(res) == res[(p + 1000) % |res|].value + res[(p + 2000) % |res|].value + res[(p + 3000) % |res|].value
  {
    assert FirstZero(res) == p;
    CycleNthIsMod(res, p, 1000);
    CycleNthIsMod(res, p, 2000);
    CycleNthIsMod(res, p, 3000);
  }

  /** A rearrangement of the tagged numbers holds a 0 exactly when the file does,
      since the key is not 0. */
  lemma ZeroKept(input: seq<int>, key: int, res: seq<Entry>)
    requires key != 0 && multiset(res) == multiset(Tagged(input, key))
    ensures HasZero(res) <==> 0 in input
  {
    var nums := Tagged(input, key);
    if HasZero(res) {
      var i :| 0 <= i < |res| && res[i].value == 0;
      assert res[i] in multiset(nums);
      var j :| 0 <= j < |nums| && nums[j] == res[i];
      assert input[j] * key == 0;
    }
    if 0 in input {
      var j :| 0 <= j < |input| && input[j] == 0;
      assert nums[j] in multiset(res);
      var i :| 0 <= i < |res| && res[i] == nums[j];
    }
  }

  /** `process1` (key 1, one round) and `process2` (key 811589153, ten rounds).
      `None` where the source panics: with fewer than two numbers (a remainder by 0,
      or no number at all) or when no number is 0 (`unwrap` of `position`). */
  method Decrypt(input: seq<int>, key: int, rounds: nat) returns (r: Option<int>)
    requires key != 0 && rounds >= 1
    ensures r.None? <==> |input| < 2 || 0 !in input
    ensures r.Some? ==> HasZero(Rounds(Tagged(input, key), rounds)) &&
                        r.value == GroveSum(Rounds(Tagged(input, key), rounds))
  {
    var nums := Tagged(input, key);
    if |nums| < 2 {
      return None;
    }
    var res := Mix(nums, rounds);
    ZeroKept(input, key, res);
    if !HasZero(res) {
      return None;
    }
    var pos := FirstZero(res);
    var a := CycleNth(res, pos, 1000).value;
    var b := CycleNth(res, pos, 2000).value;
    var c := CycleNth(res, pos, 3000).value;
    r := Some(a + b + c);
  }

  /** `process1`: one round with key 1. */
  method ProcessOne(input: seq<int>) returns (r: Option<int>)
    ensures r.None? <==> |input| < 2 || 0 !in input
    ensures r.Some? ==> HasZero(Rounds(Tagged(input, 1), 1)) && r.value == GroveSum(Rounds(Tagged(input, 1), 1))
  {
    r := Decrypt(input, 1, 1);
  }

  /** `process2`: ten rounds with the decryption key. */
  method ProcessTwo(input: seq<int>) returns (r: Option<int>)
    ensures r.None? <==> |input| < 2 || 0 !in input
    ensures r.Some? ==> HasZero(Rounds(Tagged(input, DecryptionKey), 10)) &&
                        r.value == GroveSum(Rounds(Tagged(input, DecryptionKey), 10))
  {
    r := Decrypt(input, DecryptionKey, 10);
  }

  /** The mixing rounds (ten in part two, one in part one). */
  method Mix(nums: seq<Entry>, rounds: nat) returns (res: seq<Entry>)
    requires |nums| >= 2
    ensures res == Rounds(nums, rounds)
  {
    res := nums;
    var round := 0;
    while round < rounds
      invariant 0 <= round <= rounds
      invariant res == Rounds(nums, round)
    {
      assert Rounds(nums, round + 1) == MixAll(res, nums, |nums|);
      res := MixPass(nums, res);
      round := round + 1;
    }
  }

  /** The `for_each` over the original order: one pass of mixing. */
  method MixPass(nums: seq<Entry>, start: seq<Entry>) returns (res: seq<Entry>)
    requires |start| >= 2 && multiset(start) == multiset(nums)
    ensures res == MixAll(start, nums, |nums|)
  {
    res := start;
    var j := 0;
    while j < |nums|
      invariant 0 <= j <= |nums|
      invariant res == MixAll(start, nums, j)
    {
      var e := nums[j];
      MixAllStep(start, nums, j);
      res := MixEntry(res, e);
      j := j + 1;
    }
  }

  /** The body of the `for_each`: locate `e` by its tag, remove it and insert it at
      its new index. */
  method MixEntry(res: seq<Entry>, e: Entry) returns (r: seq<Entry>)
    requires |res| >= 2 && e in res
    ensures r == MixOne(res, e)
  {
    var size := |res| - 1;
    var index := FirstTag(res, e.tag);
    var newIndex := NewIndex(index, e.value, size);
    var number := res[index];
    r := Remove(res, index);
    r := Insert(r, newIndex, number);
  }

  /** `new_index = ((index + num) % message_size + message_size) % message_size`. */
  method NewIndex(index: nat, value: int, size: int) returns (t: nat)
    requires size > 0
    ensures t == Target(index, value, size) && t < size
  {
    var n := index + value;
    n := RustRem(RustRem(n, size) + size, size);
    TargetIsEuclidean(index, value, size);
    t := n;
  }

  // The sample file 1, 2, -3, 3, -2, 0, 4.

  function SampleStart(): seq<Entry> {
    [Entry(0, 1), Entry(1, 2), Entry(2, -3), Entry(3, 3), Entry(4, -2), Entry(5, 0), Entry(6, 4)]
  }

  lemma SampleTagged()
    ensures Tagged([1, 2, -3, 3, -2, 0, 4], 1) == SampleStart()
  {
  }

  /** Moving `e` removes it from its position (the first with its tag) and inserts
      it at `(index + value) mod (n - 1)`. */
  lemma MixOneAt(res: seq<Entry>, e: Entry, index: nat, target: nat)
    requires |res| >= 2 && index < |res| && res[index] == e
    requires forall j :: 0 <= j < index ==> res[j].tag != e.tag
    requires target == (index + e.value) % (|res| - 1)
    ensures MixOne(res, e) == Insert(Remove(res, index), target, e)
  {
    TargetIsEuclidean(index, e.value, |res| - 1);
  }

  /** The arrangement of the sample after its first `k` moves. */
  function SampleAfter(k: nat): seq<Entry>
    requires k <= 7
  {
    if k == 0 then [Entry(0, 1), Entry(1, 2), Entry(2, -3), Entry(3, 3), Entry(4, -2), Entry(5, 0), Entry(6, 4)]
    else if k == 1 then [Entry(1, 2), Entry(0, 1), Entry(2, -3), Entry(3, 3), Entry(4, -2), Entry(5, 0), Entry(6, 4)]
    else if k == 2 then [Entry(0, 1), Entry(2, -3), Entry(1, 2), Entry(3, 3), Entry(4, -2), Entry(5, 0), Entry(6, 4)]
    else if k == 3 then [Entry(0, 1), Entry(1, 2), Entry(3, 3), Entry(4, -2), Entry(2, -3), Entry(5, 0), Entry(6, 4)]
    else if k == 4 then [Entry(0, 1), Entry(1, 2), Entry(4, -2), Entry(2, -3), Entry(5, 0), Entry(3, 3), Entry(6, 4)]
    else if k == 5 then [Entry(4, -2), Entry(0, 1), Entry(1, 2), Entry(2, -3), Entry(5, 0), Entry(3, 3), Entry(6, 4)]
    else if k == 6 then [Entry(4, -2), Entry(0, 1), Entry(1, 2), Entry(2, -3), Entry(5, 0), Entry(3, 3), Entry(6, 4)]
    else [Entry(4, -2), Entry(0, 1), Entry(1, 2), Entry(2, -3), Entry(6, 4), Entry(5, 0), Entry(3, 3)]
  }

  lemma SampleStep0()
    ensures MixOne(SampleAfter(0), Entry(0, 1)) == SampleAfter(1)
  {
    SampleMove([Entry(0, 1), Entry(1, 2), Entry(2, -3), Entry(3, 3), Entry(4, -2), Entry(5, 0), Entry(6, 4)], Entry(0, 1), 0, 1,
      [Entry(1, 2), Entry(0, 1), Entry(2, -3), Entry(3, 3), Entry(4, -2), Entry(5, 0), Entry(6, 4)]);
  }

  lemma SampleStep1()
    ensures MixOne(SampleAfter(1), Entry(1, 2)) == SampleAfter(2)
  {
    SampleMove([Entry(1, 2), Entry(0, 1), Entry(2, -3), Entry(3, 3), Entry(4, -2), Entry(5, 0), Entry(6, 4)], Entry(1, 2), 0, 2,
      [Entry(0, 1), Entry(2, -3), Entry(1, 2), Entry(3, 3), Entry(4, -2), Entry(5, 0), Entry(6, 4)]);
  }

  lemma SampleStep2()
    ensures MixOne(SampleAfter(2), Entry(2, -3)) == SampleAfter(3)
  {
    SampleMove([Entry(0, 1), Entry(2, -3), Entry(1, 2), Entry(3, 3), Entry(4, -2), Entry(5, 0), Entry(6, 4)], Entry(2, -3), 1, 4,
      [Entry(0, 1), Entry(1, 2), Entry(3, 3), Entry(4, -2), Entry(2, -3), Entry(5, 0), Entry(6, 4)]);
  }

  lemma SampleStep3()
    ensures MixOne(SampleAfter(3), Entry(3, 3)) == SampleAfter(4)
  {
    SampleMove([Entry(0, 1), Entry(1, 2), Entry(3, 3), Entry(4, -2), Entry(2, -3), Entry(5, 0), Entry(6, 4)], Entry(3, 3), 2, 5,
      [Entry(0, 1), Entry(1, 2), Entry(4, -2), Entry(2, -3), Entry(5, 0), Entry(3, 3), Entry(6, 4)]);
  }

  lemma SampleStep4()
    ensures MixOne(SampleAfter(4), Entry(4, -2)) == SampleAfter(5)
  {
    SampleMove([Entry(0, 1), Entry(1, 2), Entry(4, -2), Entry(2, -3), Entry(5, 0), Entry(3, 3), Entry(6, 4)], Entry(4, -2), 2, 0,
      [Entry(4, -2), Entry(0, 1), Entry(1, 2), Entry(2, -3), Entry(5, 0), Entry(3, 3), Entry(6, 4)]);
  }

  lemma SampleStep5()
    ensures MixOne(SampleAfter(5), Entry(5, 0)) == SampleAfter(6)
  {
    SampleMove([Entry(4, -2), Entry(0, 1), Entry(1, 2), Entry(2, -3), Entry(5, 0), Entry(3, 3), Entry(6, 4)], Entry(5, 0), 4, 4,
      [Entry(4, -2), Entry(0, 1), Entry(1, 2), Entry(2, -3), Entry(5, 0), Entry(3, 3), Entry(6, 4)]);
  }

  lemma SampleStep6()
    ensures MixOne(SampleAfter(6), Entry(6, 4)) == SampleAfter(7)
  {
    SampleMove([Entry(4, -2), Entry(0, 1), Entry(1, 2), Entry(2, -3), Entry(5, 0), Entry(3, 3), Entry(6, 4)], Entry(6, 4), 6, 4,
      [Entry(4, -2), Entry(0, 1), Entry(1, 2), Entry(2, -3), Entry(6, 4), Entry(5, 0), Entry(3, 3)]);
  }

  /** One more move of a pass, given where the previous moves left the numbers. */
  lemma PassStep(order: seq<Entry>, k: nat, at: nat, before: seq<Entry>, after: seq<Entry>)
    requires |order| >= 2 && k < |order| && MixAll(order, order, k) == before
    requires at < |before| && before[at] == order[k] && MixOne(before, order[k]) == after
    ensures MixAll(order, order, k + 1) == after
  {
    MixAllStep(order, order, k);
  }

  lemma SamplePass1()
    ensures MixAll(SampleStart(), SampleStart(), 1) == SampleAfter(1)
  {
    MixAllStep(SampleStart(), SampleStart(), 0);
    SampleStep0();
  }

  lemma SamplePass2()
    ensures MixAll(SampleStart(), SampleStart(), 2) == SampleAfter(2)
  {
    SamplePass1();
    SampleStep1();
    assert SampleStart()[1] == Entry(1, 2);
    PassStep(SampleStart(), 1, 0, SampleAfter(1), SampleAfter(2));
  }

  lemma SamplePass3()
    ensures MixAll(SampleStart(), SampleStart(), 3) == SampleAfter(3)
  {
    SamplePass2();
    SampleStep2();
    assert SampleStart()[2] == Entry(2, -3);
    PassStep(SampleStart(), 2, 1, SampleAfter(2), SampleAfter(3));
  }

  lemma SamplePass4()
    ensures MixAll(SampleStart(), SampleStart(), 4) == SampleAfter(4)
  {
    SamplePass3();
    SampleStep3();
    assert SampleStart()[3] == Entry(3, 3);
    PassStep(SampleStart(), 3, 2, SampleAfter(3), SampleAfter(4));
  }

  lemma SamplePass5()
    ensures MixAll(SampleStart(), SampleStart(), 5) == SampleAfter(5)
  {
    SamplePass4();
    SampleStep4();
    assert SampleStart()[4] == Entry(4, -2);
    PassStep(SampleStart(), 4, 2, SampleAfter(4), SampleAfter(5));
  }

  lemma SamplePass6()
    ensures MixAll(SampleStart(), SampleStart(), 6) == SampleAfter(6)
  {
    SamplePass5();
    SampleStep5();
    assert SampleStart()[5] == Entry(5, 0);
    PassStep(SampleStart(), 5, 4, SampleAfter(5), SampleAfter(6));
  }

  lemma SamplePass7()
    ensures MixAll(SampleStart(), SampleStart(), 7) == SampleAfter(7)
  {
    SamplePass6();
    SampleStep6();
    assert SampleStart()[6] == Entry(6, 4);
    PassStep(SampleStart(), 6, 6, SampleAfter(6), SampleAfter(7));
  }

  lemma SampleFinal()
    ensures HasZero(SampleAfter(7)) && FirstZero(SampleAfter(7)) == 5
    ensures SampleAfter(7)[4].value + SampleAfter(7)[3].value + SampleAfter(7)[2].value == 3
  {
    assert SampleAfter(7)[5].value == 0;
  }

  /** Part one of the sample (the file 1, 2, -3, 3, -2, 0, 4 tagged by
      `SampleTagged`): after one pass the first 0 sits at index 5, and the entries
      1000, 2000 and 3000 places further on hold 4, -3 and 2, adding up to 3
      (`GroveSumAt` turns these into `GroveSum`). */
  lemma SampleAnswer()
    ensures var mixed := Rounds(SampleStart(), 1);
      |mixed| == 7 && HasZero(mixed) && FirstZero(mixed) == 5 &&
      mixed[(5 + 1000) % 7].value + mixed[(5 + 2000) % 7].value + mixed[(5 + 3000) % 7].value == 3
  {
    SamplePass7();
    SampleFinal();
    assert Rounds(SampleStart(), 1) == SampleAfter(7);
  }

  lemma SampleMove(res: seq<Entry>, e: Entry, index: nat, target: nat, expected: seq<Entry>)
    requires |res| >= 2 && index < |res| && res[index] == e
    requires forall j :: 0 <= j < index ==> res[j].tag != e.tag
    requires target == (index + e.value) % (|res| - 1)
    requires Insert(Remove(res, index), target, e) == expected
    ensures MixOne(res, e) == expected
  {
    MixOneAt(res, e, index, target);
  }
}
