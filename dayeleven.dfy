/** Day 11: monkeys pass items around. On its turn a monkey inspects every item it
    holds: the worry level goes through the monkey's operation, is relieved (divided
    by 3 in part one, reduced modulo the product of all divisors in part two), and
    the item is thrown to one of two monkeys depending on whether the new worry is
    divisible by the monkey's divisor. Thrown items wait in a per-monkey buffer. */
module DayEleven {
  import opened Wrappers
  import opened Arith
  import Sorting

  // Operations and their parsing.

  /** `new = old * old`, `old + old`, `old * n` or `old + n`. */
  datatype Operation = Square | Double | Times(n: nat) | Plus(n: nat)

  function Apply(op: Operation, worry: nat): nat {
    match op
    case Square => worry * worry
    case Double => worry + worry
    case Times(n) => worry * n
    case Plus(n) => worry + n
  }

  /** The value of a sequence of decimal digits. */
  function DecimalValue(s: seq<char>): nat
    requires forall k :: 0 <= k < |s| ==> '0' <= s[k] <= '9'
  {
    if s == [] then 0 else 10 * DecimalValue(s[..|s| - 1]) + (s[|s| - 1] - '0') as nat
  }

  predicate AllDigits(s: seq<char>) {
    forall k :: 0 <= k < |s| ==> '0' <= s[k] <= '9'
  }

  /** `str::parse::<usize>`: an optional `+` and at least one decimal digit. */
  function ParseNat(s: seq<char>): (r: Option<nat>)
    ensures r.Some? <==> (s != [] && s[0] == '+' && |s| > 1 && AllDigits(s[1..])) ||
                         (s != [] && AllDigits(s))
  {
    if s != [] && s[0] == '+' && |s| > 1 && AllDigits(s[1..]) then Some(DecimalValue(s[1..]))
    else if s != [] && AllDigits(s) then Some(DecimalValue(s))
    else None
  }

  /** `old <op> <operand>` read as arithmetic. */
  function Combine(op: seq<char>, a: nat, b: nat): nat {
    if op == "* " then a * b else a + b
  }

  /** `parse_operation`: the operator is `"* "` or `"+ "`, the operand `old` or a
      number. `None` where the source panics on an operand that is not a number. */
  function ParseOperation(op: seq<char>, operand: seq<char>): (r: Option<Operation>)
    requires op == "* " || op == "+ "
    ensures r.Some? <==> operand == "old" || ParseNat(operand).Some?
    ensures r.Some? ==> forall worry: nat :: (Apply(r.value, worry) ==
      Combine(op, worry, if operand == "old" then worry else ParseNat(operand).value))
  {
    if operand == "old" then
      if op == "* " then Some(Square) else Some(Double)
    else
      match ParseNat(operand)
      case None => None
      case Some(n) => if op == "* " then Some(Times(n)) else Some(Plus(n))
  }

  // Monkeys.

  /** The parts of a monkey that never change: its operation and its test. */
  datatype Monkey = Monkey(op: Operation, divisor: nat, ifTrue: nat, ifFalse: nat)

  /** The throw targets name existing monkeys and no divisor is 0 (otherwise the
      source panics indexing the buffers or taking the remainder). */
  predicate ValidMonkeys(ms: seq<Monkey>) {
    forall i :: 0 <= i < |ms| ==> ms[i].divisor > 0 && ms[i].ifTrue < |ms| && ms[i].ifFalse < |ms|
  }

  /** The monkey that receives an item of the given worry. */
  function Target(m: Monkey, worry: nat): (t: nat)
    requires m.divisor > 0
    ensures worry % m.divisor == 0 ==> t == m.ifTrue
    ensures worry % m.divisor != 0 ==> t == m.ifFalse
  {
    if worry % m.divisor == 0 then m.ifTrue else m.ifFalse
  }

  /** How worry is relieved after an inspection. */
  datatype Relief = Third | Modulo(m: nat)

  predicate ValidRelief(relief: Relief) {
    relief.Modulo? ==> relief.m > 0
  }

  function Relieve(relief: Relief, worry: nat): nat
    requires ValidRelief(relief)
  {
    match relief
    case Third => worry / 3
    case Modulo(m) => worry % m
  }

  /** The worry of an item after monkey `m` inspected it. */
  function Inspect(m: Monkey, relief: Relief, worry: nat): nat
    requires ValidRelief(relief)
  {
    Relieve(relief, Apply(m.op, worry))
  }

  // The functional specification of a round.

  /** The buffers after monkey `i` threw the items `ws` in order. */
  function Throw(buffers: seq<seq<nat>>, ms: seq<Monkey>, i: nat, relief: Relief, ws: seq<nat>): (r: seq<seq<nat>>)
    requires ValidMonkeys(ms) && ValidRelief(relief) && i < |ms| && |buffers| == |ms|
    ensures |r| == |buffers|
  {
    if ws == [] then buffers
    else
      var b := Throw(buffers, ms, i, relief, ws[..|ws| - 1]);
      var w := Inspect(ms[i], relief, ws[|ws| - 1]);
      var t := Target(ms[i], w);
      b[t := b[t] + [w]]
  }

  /** The items, the inspection counts and the buffers of all monkeys. */
  datatype Troop = Troop(items: seq<seq<nat>>, inspected: seq<nat>, buffers: seq<seq<nat>>)

  predicate Shaped(ms: seq<Monkey>, s: Troop) {
    |s.items| == |ms| && |s.inspected| == |ms| && |s.buffers| == |ms|
  }

  /** Monkey `i`'s turn: it takes its buffered items, inspects and throws every item
      it holds, and counts them. */
  function Turn(ms: seq<Monkey>, relief: Relief, s: Troop, i: nat): (r: Troop)
    requires ValidMonkeys(ms) && ValidRelief(relief) && Shaped(ms, s) && i < |ms|
    ensures Shaped(ms, r)
  {
    var held := s.items[i] + s.buffers[i];
    Troop(s.items[i := []], s.inspected[i := s.inspected[i] + |held|],
          Throw(s.buffers[i := []], ms, i, relief, held))
  }

  /** The turns of monkeys `0 .. k - 1`. */
  function Turns(ms: seq<Monkey>, relief: Relief, s: Troop, k: nat): (r: Troop)
    requires ValidMonkeys(ms) && ValidRelief(relief) && Shaped(ms, s) && k <= |ms|
    ensures Shaped(ms, r)
  {
    if k == 0 then s else Turn(ms, relief, Turns(ms, relief, s, k - 1), k - 1)
  }

  /** The end of a round: every buffer is emptied into its monkey's items. */
  function Flush(s: Troop): Troop
    requires |s.items| == |s.buffers|
  {
    Troop(seq(|s.items|, i requires 0 <= i < |s.items| => s.items[i] + s.buffers[i]),
          s.inspected, seq(|s.buffers|, i => []))
  }

  /** One round: every monkey takes its turn, then the thrown items land. A
      round neither creates nor loses items and leaves every buffer empty. */
  function Round(ms: seq<Monkey>, relief: Relief, s: Troop): (r: Troop)
    requires ValidMonkeys(ms) && ValidRelief(relief) && Shaped(ms, s)
    ensures Shaped(ms, r)
    ensures Total(r) == Total(s)
    ensures forall j :: 0 <= j < |ms| ==> r.buffers[j] == []
  {
    var t := Turns(ms, relief, s, |ms|);
    TurnsConserve(ms, relief, s, |ms|);
    FlushConserves(t.items, t.buffers);
    assert Total(Flush(t)) == Total(Flush(Troop(t.items, [], t.buffers)));
    Flush(t)
  }

  function Rounds(ms: seq<Monkey>, relief: Relief, s: Troop, k: nat): (r: Troop)
    requires ValidMonkeys(ms) && ValidRelief(relief) && Shaped(ms, s)
    ensures Shaped(ms, r)
  {
    if k == 0 then s else Round(ms, relief, Rounds(ms, relief, s, k - 1))
  }

  /** The troop before the first round: nobody has inspected anything yet. */
  function Start(items: seq<seq<nat>>): Troop {
    Troop(items, seq(|items|, i => 0), seq(|items|, i => []))
  }

  // Properties of a round.

  function SumLengths(xs: seq<seq<nat>>): nat {
    if xs == [] then 0 else SumLengths(xs[..|xs| - 1]) + |xs[|xs| - 1]|
  }

  /** All items held or waiting in a buffer. */
  function Total(s: Troop): nat {
    SumLengths(s.items) + SumLengths(s.buffers)
  }

  lemma {:induction false} SumLengthsUpdate(xs: seq<seq<nat>>, t: nat, x: seq<nat>)
    requires t < |xs|
    ensures SumLengths(xs[t := x]) + |xs[t]| == SumLengths(xs) + |x|
  {
    var n := |xs| - 1;
    if t < n {
      assert xs[t := x][..n] == xs[..n][t := x];
      SumLengthsUpdate(xs[..n], t, x);
    } else {
      assert xs[t := x][..n] == xs[..n];
    }
  }

  /** Throwing moves every item into exactly one buffer. */
  lemma {:induction false} ThrowAddsAll(buffers: seq<seq<nat>>, ms: seq<Monkey>, i: nat, relief: Relief, ws: seq<nat>)
    requires ValidMonkeys(ms) && ValidRelief(relief) && i < |ms| && |buffers| == |ms|
    ensures SumLengths(Throw(buffers, ms, i, relief, ws)) == SumLengths(buffers) + |ws|
  {
    if ws != [] {
      var b := Throw(buffers, ms, i, relief, ws[..|ws| - 1]);
      ThrowAddsAll(buffers, ms, i, relief, ws[..|ws| - 1]);
      var w := Inspect(ms[i], relief, ws[|ws| - 1]);
      var t := Target(ms[i], w);
      SumLengthsUpdate(b, t, b[t] + [w]);
    }
  }

  /** A turn neither creates nor loses items. */
  lemma TurnConserves(ms: seq<Monkey>, relief: Relief, s: Troop, i: nat)
    requires ValidMonkeys(ms) && ValidRelief(relief) && Shaped(ms, s) && i < |ms|
    ensures Total(Turn(ms, relief, s, i)) == Total(s)
  {
    var held := s.items[i] + s.buffers[i];
    SumLengthsUpdate(s.items, i, []);
    SumLengthsUpdate(s.buffers, i, []);
    ThrowAddsAll(s.buffers[i := []], ms, i, relief, held);
  }

  lemma {:induction false} TurnsConserve(ms: seq<Monkey>, relief: Relief, s: Troop, k: nat)
    requires ValidMonkeys(ms) && ValidRelief(relief) && Shaped(ms, s) && k <= |ms|
    ensures Total(Turns(ms, relief, s, k)) == Total(s)
  {
    if k > 0 {
      var prev := Turns(ms, relief, s, k - 1);
      TurnsConserve(ms, relief, s, k - 1);
      TurnConserves(ms, relief, prev, k - 1);
      assert Turns(ms, relief, s, k) == Turn(ms, relief, prev, k - 1);
    }
  }

  lemma {:induction false} FlushConserves(items: seq<seq<nat>>, buffers: seq<seq<nat>>)
    requires |items| == |buffers|
    ensures Total(Flush(Troop(items, [], buffers))) == Total(Troop(items, [], buffers))
  {
    var f := Flush(Troop(items, [], buffers));
    if items != [] {
      var n := |items| - 1;
      FlushConserves(items[..n], buffers[..n]);
      var g := Flush(Troop(items[..n], [], buffers[..n]));
      assert f.items[..n] == g.items;
      assert f.buffers[..n] == g.buffers;
    }
  }

  /** Turns before monkey `j`'s own leave its items and its count alone. */
  lemma {:induction false} TurnsKeepLater(ms: seq<Monkey>, relief: Relief, s: Troop, k: nat, j: nat)
    requires ValidMonkeys(ms) && ValidRelief(relief) && Shaped(ms, s) && k <= j < |ms|
    ensures Turns(ms, relief, s, k).items[j] == s.items[j]
    ensures Turns(ms, relief, s, k).inspected[j] == s.inspected[j]
  {
    if k > 0 {
      TurnsKeepLater(ms, relief, s, k - 1, j);
    }
  }

  /** Turns after monkey `j`'s own leave its count alone and its items empty. */
  lemma {:induction false} TurnsKeepEarlier(ms: seq<Monkey>, relief: Relief, s: Troop, k: nat, j: nat)
    requires ValidMonkeys(ms) && ValidRelief(relief) && Shaped(ms, s) && j < k <= |ms|
    ensures Turns(ms, relief, s, k).items[j] == []
    ensures Turns(ms, relief, s, k).inspected[j] == Turns(ms, relief, s, j + 1).inspected[j]
  {
    if k > j + 1 {
      TurnsKeepEarlier(ms, relief, s, k - 1, j);
    }
  }

  /** In a round, monkey `j` inspects the items it held at the start together with
      everything thrown to it before its turn, which is why items thrown to a later
      monkey are handled in the same round. */
  lemma RoundInspects(ms: seq<Monkey>, relief: Relief, s: Troop, j: nat)
    requires ValidMonkeys(ms) && ValidRelief(relief) && Shaped(ms, s) && j < |ms|
    ensures Round(ms, relief, s).inspected[j] ==
      s.inspected[j] + |s.items[j]| + |Turns(ms, relief, s, j).buffers[j]|
  {
    TurnsKeepLater(ms, relief, s, j, j);
    TurnsKeepEarlier(ms, relief, s, |ms|, j);
  }

  /** After a round every buffer is empty, and monkey `j` holds exactly what was
      thrown to it from its own turn on: items thrown to an earlier monkey wait
      until the end of the round. */
  lemma RoundHolds(ms: seq<Monkey>, relief: Relief, s: Troop, j: nat)
    requires ValidMonkeys(ms) && ValidRelief(relief) && Shaped(ms, s) && j < |ms|
    ensures Round(ms, relief, s).items[j] == Turns(ms, relief, s, |ms|).buffers[j]
    ensures Round(ms, relief, s).buffers[j] == []
  {
    TurnsKeepEarlier(ms, relief, s, |ms|, j);
  }

  // Part two's reduction.

  /** The product of all divisors (`common_div`). */
  function DivisorProduct(ms: seq<Monkey>): nat {
    if ms == [] then 1 else DivisorProduct(ms[..|ms| - 1]) * ms[|ms| - 1].divisor
  }

  predicate PositiveDivisors(ms: seq<Monkey>) {
    forall i :: 0 <= i < |ms| ==> ms[i].divisor > 0
  }

  lemma {:induction false} DivisorProductPositive(ms: seq<Monkey>)
    requires PositiveDivisors(ms)
    ensures DivisorProduct(ms) > 0
  {
    if ms != [] {
      var n := |ms| - 1;
      DivisorProductPositive(ms[..n]);
      MulAtLeast(DivisorProduct(ms[..n]), ms[n].divisor);
    }
  }

  /** Every divisor divides their product. */
  lemma {:induction false} DivisorProductMultiple(ms: seq<Monkey>, i: nat)
    requires PositiveDivisors(ms) && i < |ms|
    ensures DivisorProduct(ms) % ms[i].divisor == 0
  {
    var n := |ms| - 1;
    var p := DivisorProduct(ms[..n]);
    var e := ms[n].divisor;
    assert DivisorProduct(ms) == p * e;
    if i < n {
      DivisorProductMultiple(ms[..n], i);
      var d := ms[i].divisor;
      var q := p / d;
      assert p == q * d;
      assert p * e == (q * e) * d;
      DivModUnique(p * e, d, q * e, 0);
    } else {
      DivModUnique(p * e, e, p, 0);
    }
  }

  /** Reducing modulo a multiple of the divisor keeps divisibility. */
  lemma ModMultiple(w: nat, c: nat, d: nat)
    requires d > 0 && c > 0 && c % d == 0
    ensures (w % c) % d == w % d
  {
    var q, r := w / c, w % c;
    var k := c / d;
    assert c == k * d;
    assert w == q * c + r;
    assert w == (q * k + r / d) * d + r % d by {
      assert r == r / d * d + r % d;
      assert q * c == (q * k) * d;
    }
    DivModUnique(w, d, q * k + r / d, r % d);
  }

  /** Part two's reduction modulo the product of all divisors leaves every monkey's
      choice of target unchanged. */
  lemma ReductionKeepsTargets(ms: seq<Monkey>, w: nat, i: nat)
    requires ValidMonkeys(ms) && i < |ms|
    ensures DivisorProduct(ms) > 0
    ensures Target(ms[i], w % DivisorProduct(ms)) == Target(ms[i], w)
  {
    DivisorProductPositive(ms);
    DivisorProductMultiple(ms, i);
    ModMultiple(w, DivisorProduct(ms), ms[i].divisor);
  }

  // The answer.

  /** `r` is the product of the two largest counts (`sort_by` descending, `take(2)`,
      `product()`); with fewer than two monkeys the missing factors are 1. */
  ghost predicate TopTwoProduct(counts: seq<nat>, r: nat) {
    (|counts| == 0 ==> r == 1) &&
    (|counts| == 1 ==> r == counts[0]) &&
    (|counts| >= 2 ==> exists a: nat, b: nat :: (r == a * b && b <= a &&
       multiset{a, b} <= multiset(counts) &&
       forall x :: x in multiset(counts) - multiset{a, b} ==> x <= b))
  }

  function Negated(x: nat): int {
    -(x as int)
  }

  /** A descending arrangement of the counts has the two largest in front. */
  lemma SortedTopTwo(counts: seq<nat>, t: seq<nat>)
    requires |t| >= 2 && Sorting.SortedBy(t, Negated) && multiset(t) == multiset(counts)
    ensures TopTwoProduct(counts, t[0] * t[1])
  {
    assert Negated(t[0]) <= Negated(t[1]);
    assert t == [t[0], t[1]] + t[2..];
    assert multiset(t) == multiset{t[0], t[1]} + multiset(t[2..]);
    assert multiset(t) - multiset{t[0], t[1]} == multiset(t[2..]);
    forall x | x in multiset(counts) - multiset{t[0], t[1]} ensures x <= t[1] {
      assert x in t[2..];
      var k :| 2 <= k < |t| && t[k] == x;
      assert Negated(t[1]) <= Negated(t[k]);
    }
  }

  /** Sorts the counts in descending order and multiplies the first two. */
  method TopTwo(counts: seq<nat>) returns (r: nat)
    ensures TopTwoProduct(counts, r)
  {
    var a := new nat[|counts|](i requires 0 <= i < |counts| => counts[i]);
    assert a[..] == counts;
    Sorting.SortByKey(a, Negated);
    if a.Length == 0 {
      r := 1;
    } else if a.Length == 1 {
      r := a[0];
    } else {
      r := a[0] * a[1];
    }
    SortedTop(counts, a[..]);
  }

  /** Whatever the number of monkeys, a descending arrangement gives the product
      of the two largest counts. */
  lemma SortedTop(counts: seq<nat>, t: seq<nat>)
    requires Sorting.SortedBy(t, Negated) && multiset(t) == multiset(counts)
    ensures TopTwoProduct(counts, if |t| == 0 then 1 else if |t| == 1 then t[0] else t[0] * t[1])
  {
    assert |t| == |multiset(t)| == |counts|;
    if |t| == 1 {
      assert t == [t[0]];
      assert counts[0] in multiset(t);
    } else if |t| >= 2 {
      SortedTopTwo(counts, t);
    }
  }

  // The imperative rounds.

  /** Monkey `i` throws each of the `held` items in order into the buffers. */
  method ThrowAll(ms: seq<Monkey>, relief: Relief, i: nat, held: seq<nat>, buffers: array<seq<nat>>)
    requires ValidMonkeys(ms) && ValidRelief(relief) && i < |ms| && buffers.Length == |ms|
    modifies buffers
    ensures buffers[..] == Throw(old(buffers[..]), ms, i, relief, held)
  {
    ghost var start := buffers[..];
    var j := 0;
    while j < |held|
      invariant 0 <= j <= |held|
      invariant buffers[..] == Throw(start, ms, i, relief, held[..j])
    {
      var w := Inspect(ms[i], relief, held[j]);
      var t := Target(ms[i], w);
      buffers[t] := buffers[t] + [w];
      assert held[..j + 1][..j] == held[..j];
      j := j + 1;
    }
    assert held[..j] == held;
  }

  /** Monkey `i`'s turn on the arrays. */
  method TakeTurn(ms: seq<Monkey>, relief: Relief, i: nat,
                  items: array<seq<nat>>, inspected: array<nat>, buffers: array<seq<nat>>)
    requires ValidMonkeys(ms) && ValidRelief(relief) && i < |ms|
    requires items.Length == |ms| && inspected.Length == |ms| && buffers.Length == |ms|
    requires items != buffers
    modifies items, inspected, buffers
    ensures Troop(items[..], inspected[..], buffers[..]) ==
      Turn(ms, relief, old(Troop(items[..], inspected[..], buffers[..])), i)
  {
    items[i] := items[i] + buffers[i];
    buffers[i] := [];
    var held := items[i];
    items[i] := [];
    inspected[i] := inspected[i] + |held|;
    ThrowAll(ms, relief, i, held, buffers);
  }

  /** One round on the arrays: every monkey's turn, then the buffers are emptied into
      the item lists. */
  method PlayRound(ms: seq<Monkey>, relief: Relief,
                   items: array<seq<nat>>, inspected: array<nat>, buffers: array<seq<nat>>)
    requires ValidMonkeys(ms) && ValidRelief(relief)
    requires items.Length == |ms| && inspected.Length == |ms| && buffers.Length == |ms|
    requires items != buffers
    modifies items, inspected, buffers
    ensures Troop(items[..], inspected[..], buffers[..]) ==
      Round(ms, relief, old(Troop(items[..], inspected[..], buffers[..])))
  {
    ghost var s := Troop(items[..], inspected[..], buffers[..]);
    var i := 0;
    while i < |ms|
      invariant 0 <= i <= |ms|
      invariant Troop(items[..], inspected[..], buffers[..]) == Turns(ms, relief, s, i)
    {
      TakeTurn(ms, relief, i, items, inspected, buffers);
      i := i + 1;
    }
    FlushAll(items, buffers, inspected[..]);
  }

  /** The end of a round on the arrays: each buffer is appended to its monkey's
      items and emptied. */
  method FlushAll(items: array<seq<nat>>, buffers: array<seq<nat>>, ghost inspected: seq<nat>)
    requires items != buffers && items.Length == buffers.Length
    modifies items, buffers
    ensures Troop(items[..], inspected, buffers[..]) == Flush(Troop(old(items[..]), inspected, old(buffers[..])))
  {
    ghost var t := Troop(items[..], inspected, buffers[..]);
    var i := 0;
    while i < items.Length
      invariant 0 <= i <= items.Length
      invariant forall k :: 0 <= k < i ==> items[k] == t.items[k] + t.buffers[k] && buffers[k] == []
      invariant forall k :: i <= k < items.Length ==> items[k] == t.items[k] && buffers[k] == t.buffers[k]
    {
      items[i] := items[i] + buffers[i];
      buffers[i] := [];
      i := i + 1;
    }
  }

  /** The arrays of the troop before the first round. */
  method NewTroop(start: seq<seq<nat>>) returns (items: array<seq<nat>>, inspected: array<nat>, buffers: array<seq<nat>>)
    ensures fresh(items) && fresh(inspected) && fresh(buffers) && items != buffers
    ensures items.Length == inspected.Length == buffers.Length == |start|
    ensures Troop(items[..], inspected[..], buffers[..]) == Start(start)
  {
    items := new seq<nat>[|start|](i requires 0 <= i < |start| => start[i]);
    inspected := new nat[|start|](i => 0);
    buffers := new seq<nat>[|start|](i => []);
    assert items[..] == start;
  }

  /** Plays the rounds from the starting items and multiplies the two largest
      inspection counts. */
  method Play(ms: seq<Monkey>, relief: Relief, start: seq<seq<nat>>, rounds: nat) returns (r: nat)
    requires ValidMonkeys(ms) && ValidRelief(relief) && |start| == |ms|
    ensures TopTwoProduct(Rounds(ms, relief, Start(start), rounds).inspected, r)
  {
    var items, inspected, buffers := NewTroop(start);
    var k := 0;
    while k < rounds
      invariant 0 <= k <= rounds
      invariant Troop(items[..], inspected[..], buffers[..]) == Rounds(ms, relief, Start(start), k)
    {
      PlayRound(ms, relief, items, inspected, buffers);
      k := k + 1;
    }
    r := TopTwo(inspected[..]);
  }

  /** `process_one`: twenty rounds, worry divided by 3 after each inspection. */
  method ProcessOne(ms: seq<Monkey>, start: seq<seq<nat>>) returns (r: nat)
    requires ValidMonkeys(ms) && |start| == |ms|
    ensures TopTwoProduct(Rounds(ms, Third, Start(start), 20).inspected, r)
  {
    r := Play(ms, Third, start, 20);
  }

  /** `process_two`: ten thousand rounds, worry reduced modulo the product of all
      divisors. */
  method ProcessTwo(ms: seq<Monkey>, start: seq<seq<nat>>) returns (r: nat)
    requires ValidMonkeys(ms) && |start| == |ms|
    ensures DivisorProduct(ms) > 0
    ensures TopTwoProduct(Rounds(ms, Modulo(DivisorProduct(ms)), Start(start), 10000).inspected, r)
  {
    var common := DivisorProduct(ms);
    DivisorProductPositive(ms);
    r := Play(ms, Modulo(common), start, 10000);
  }
}
