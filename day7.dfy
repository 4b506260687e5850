/** Day 7: a terminal session that walks a file system. The commands are folded into
    a table of "own" sizes (the files listed directly in a directory), keyed by the
    directory stack joined with `|`; a rollup then adds every own size to the key
    itself and to each ancestor key, found by cutting at the last `|`. */
module Day7 {
  import opened Wrappers

  datatype Entry = Dir(name: string) | File(name: string, size: nat)

  datatype Command = Ls(entries: seq<Entry>) | CdUp | CdRoot | Cd(name: string)

  /** The sum of the file sizes in a listing; directories count 0. */
  function Listed(entries: seq<Entry>): nat {
    if entries == [] then 0
    else
      var last := entries[|entries| - 1];
      Listed(entries[..|entries| - 1]) + (match last case Dir(_) => 0 case File(_, size) => size)
  }

  lemma {:induction false} ListedAppend(a: seq<Entry>, b: seq<Entry>)
    ensures Listed(a + b) == Listed(a) + Listed(b)
    decreases |b|
  {
    if b == [] {
      assert a + b == a;
    } else {
      assert (a + b)[..|a + b| - 1] == a + b[..|b| - 1];
      ListedAppend(a, b[..|b| - 1]);
    }
  }

  /** A listing counts its files and nothing for its directories. */
  lemma ListedEntry(e: Entry)
    ensures Listed([e]) == (if e.File? then e.size else 0)
  {
    assert [e][..0] == [];
  }

  // Path keys.

  predicate NoBar(s: string) {
    forall j :: 0 <= j < |s| ==> s[j] != '|'
  }

  /** The stack joined with `|` (`intersperse("|")` then `collect`). */
  function Join(stack: seq<string>): string {
    if stack == [] then ""
    else if |stack| == 1 then stack[0]
    else Join(stack[..|stack| - 1]) + "|" + stack[|stack| - 1]
  }

  /** The position of the last `|` of `k`. */
  function LastBar(k: string): (r: Option<nat>)
    ensures r.Some? ==> r.value < |k| && k[r.value] == '|' && NoBar(k[r.value + 1..])
    ensures r.None? ==> NoBar(k)
  {
    if k == [] then None
    else if k[|k| - 1] == '|' then Some(|k| - 1)
    else
      var r := LastBar(k[..|k| - 1]);
      assert r.Some? ==> k[r.value + 1..] == k[..|k| - 1][r.value + 1..] + [k[|k| - 1]];
      r
  }

  /** `rsplit_once("|")`'s first half: the key of the parent directory. The key
      strictly shortens, which is why the rollup loop terminates. */
  function Parent(k: string): (r: Option<string>)
    ensures r.Some? ==> |r.value| < |k|
  {
    match LastBar(k)
    case None => None
    case Some(i) => Some(k[..i])
  }

  /** `rsplit_once` fails exactly when there is no `|`, and otherwise cuts at the
      last one. */
  lemma ParentCut(k: string)
    ensures Parent(k).None? <==> NoBar(k)
    ensures Parent(k).Some? ==> var q := Parent(k).value;
      k[|q|] == '|' && q == k[..|q|] && NoBar(k[|q| + 1..])
  {
  }

  /** The keys reached by cutting at the last `|` again and again. */
  function Ancestors(k: string): (r: seq<string>)
    ensures forall i :: 0 <= i < |r| ==> |r[i]| < |k|
    decreases |k|
  {
    match Parent(k)
    case None => []
    case Some(p) => [p] + Ancestors(p)
  }

  /** The key and its ancestors: every entry of the rollup it contributes to. */
  function Chain(k: string): seq<string> {
    [k] + Ancestors(k)
  }

  /** `p` is `k` cut just before one of its `|`. */
  predicate CutOf(p: string, k: string) {
    exists i :: 0 <= i < |k| && k[i] == '|' && p == k[..i]
  }

  /** Cutting `k` before one of its `|` gives its parent `q`, cut at the last
      `|`, or a cut of `q`. */
  lemma CutThroughParent(k: string, q: string, p: string)
    requires |q| < |k| && k[|q|] == '|' && q == k[..|q|] && NoBar(k[|q| + 1..])
    ensures CutOf(p, k) <==> p == q || CutOf(p, q)
  {
    if CutOf(p, q) {
      var i :| 0 <= i < |q| && q[i] == '|' && p == q[..i];
      assert k[i] == '|' && p == k[..i];
    }
    if CutOf(p, k) {
      var i :| 0 <= i < |k| && k[i] == '|' && p == k[..i];
      if i < |q| {
        assert q[i] == '|' && p == q[..i];
      }
    }
  }

  /** The ancestors of a key are exactly its prefixes that end before a `|`. */
  lemma {:induction false} AncestorsAreCuts(k: string, p: string)
    ensures p in Ancestors(k) <==> CutOf(p, k)
    decreases |k|
  {
    ParentCut(k);
    match Parent(k)
    case None =>
      assert !CutOf(p, k);
    case Some(q) =>
      AncestorsAreCuts(q, p);
      CutThroughParent(k, q, p);
  }

  /** Cutting the key of `stack + [name]` at its last `|` gives the key of `stack`:
      the rollup climbs exactly the directories that `cd` descended. */
  lemma ParentOfPush(stack: seq<string>, name: string)
    requires stack != [] && NoBar(name)
    ensures Parent(Join(stack + [name])) == Some(Join(stack))
  {
    var s := stack + [name];
    assert s[..|s| - 1] == stack;
    var k := Join(s);
    assert k == Join(stack) + "|" + name;
    var i := |Join(stack)|;
    assert k[i] == '|' && k[..i] == Join(stack);
    assert forall j :: i < j < |k| ==> k[j] != '|' by {
      forall j | i < j < |k| ensures k[j] != '|' {
        assert k[j] == name[j - i - 1];
      }
    }
    var r := LastBar(k).value;
    assert forall j :: r < j < |k| ==> k[j] != '|' by {
      forall j | r < j < |k| ensures k[j] != '|' {
        assert k[r + 1..][j - r - 1] == k[j];
      }
    }
    assert r == i;
  }

  // The command fold.

  /** The own-size table and the directory stack. */
  datatype Shell = Shell(own: map<string, nat>, stack: seq<string>)

  function Get(m: map<string, nat>, k: string): nat {
    if k in m then m[k] else 0
  }

  /** One command: `ls` adds the listed file sizes to the current key (inserting it
      when missing), `cd ..` pops (nothing on an empty stack), `cd /` pushes `/` and
      resets the own size of `/`, `cd name` pushes and resets the new key. */
  function Step(s: Shell, c: Command): Shell {
    match c
    case Ls(entries) =>
      var key := Join(s.stack);
      Shell(s.own[key := Get(s.own, key) + Listed(entries)], s.stack)
    case CdUp => Shell(s.own, if s.stack == [] then [] else s.stack[..|s.stack| - 1])
    case CdRoot => Shell(s.own["/" := 0], s.stack + ["/"])
    case Cd(name) =>
      var stack := s.stack + [name];
      Shell(s.own[Join(stack) := 0], stack)
  }

  function Run(cs: seq<Command>): Shell {
    if cs == [] then Shell(map[], []) else Step(Run(cs[..|cs| - 1]), cs[|cs| - 1])
  }

  /** Listing twice in the same directory counts its files twice, and nothing else
      changes. */
  lemma LsAdds(s: Shell, entries: seq<Entry>)
    ensures Step(s, Ls(entries)).stack == s.stack
    ensures Get(Step(s, Ls(entries)).own, Join(s.stack)) == Get(s.own, Join(s.stack)) + Listed(entries)
    ensures forall k :: k != Join(s.stack) ==> Get(Step(s, Ls(entries)).own, k) == Get(s.own, k)
  {
  }

  /** The fold's closure on one command, with the table and the stack
      updated in place. */
  method Apply(own: map<string, nat>, stack: seq<string>, c: Command) returns (own': map<string, nat>, stack': seq<string>)
    ensures Shell(own', stack') == Step(Shell(own, stack), c)
  {
    own', stack' := own, stack;
    match c {
      case Ls(entries) =>
        var key := Join(stack');
        own' := own'[key := Get(own', key) + Listed(entries)];
      case CdUp =>
        if stack' != [] {
          stack' := stack'[..|stack'| - 1];
        }
      case CdRoot =>
        stack' := stack' + ["/"];
        own' := own'["/" := 0];
      case Cd(name) =>
        stack' := stack' + [name];
        own' := own'[Join(stack') := 0];
    }
  }

  /** The fold with the table and the stack updated in place. */
  method Walk(cs: seq<Command>) returns (own: map<string, nat>, stack: seq<string>)
    ensures Shell(own, stack) == Run(cs)
  {
    own, stack := map[], [];
    var i := 0;
    while i < |cs|
      invariant 0 <= i <= |cs|
      invariant Shell(own, stack) == Run(cs[..i])
    {
      RunPrefix(cs, i);
      own, stack := Apply(own, stack, cs[i]);
      i := i + 1;
    }
    assert cs[..i] == cs;
  }

  /** The fold over one more command is one more step. */
  lemma RunPrefix(cs: seq<Command>, i: nat)
    requires i < |cs|
    ensures Run(cs[..i + 1]) == Step(Run(cs[..i]), cs[i])
  {
    assert cs[..i + 1][..i] == cs[..i];
  }

  // Sums over the table.

  ghost function Pick(keys: set<string>): string
    requires keys != {}
  {
    var k :| k in keys; k
  }

  /** The sum of `m` over the given keys. */
  ghost function SumValues(m: map<string, nat>, keys: set<string>): nat
    requires keys <= m.Keys
    decreases |keys|
  {
    if keys == {} then 0 else var k := Pick(keys); m[k] + SumValues(m, keys - {k})
  }

  /** The sum does not depend on the order the keys are visited in. */
  lemma {:induction false} SumValuesRemove(m: map<string, nat>, keys: set<string>, k: string)
    requires keys <= m.Keys && k in keys
    ensures SumValues(m, keys) == m[k] + SumValues(m, keys - {k})
    decreases |keys|
  {
    var j := Pick(keys);
    if j != k {
      calc {
        SumValues(m, keys);
        m[j] + SumValues(m, keys - {j});
        { SumValuesRemove(m, keys - {j}, k); }
        m[j] + m[k] + SumValues(m, keys - {j} - {k});
        { assert keys - {j} - {k} == keys - {k} - {j}; }
        m[k] + (m[j] + SumValues(m, keys - {k} - {j}));
        { SumValuesRemove(m, keys - {k}, j); }
        m[k] + SumValues(m, keys - {k});
      }
    }
  }

  // The rollup.

  /** The keys among `keys` that contribute to the total of `p`. */
  function Covered(keys: set<string>, p: string): set<string> {
    set k | k in keys && p in Chain(k)
  }

  /** Every key the rollup of `keys` creates. */
  function Reach(keys: set<string>): set<string> {
    set k, p | k in keys && p in Chain(k) :: p
  }

  lemma ReachCovered(keys: set<string>, p: string)
    ensures p in Reach(keys) <==> Covered(keys, p) != {}
  {
    if Covered(keys, p) != {} {
      var k :| k in Covered(keys, p);
      assert k in keys && p in Chain(k);
    }
    if p in Reach(keys) {
      var k :| k in keys && p in Chain(k);
      assert k in Covered(keys, p);
    }
  }

  /** The rolled-up totals: every key with its own size and that of each
      descendant. */
  ghost function RolledUp(own: map<string, nat>): map<string, nat> {
    map p | p in Reach(own.Keys) :: SumValues(own, Covered(own.Keys, p))
  }

  /** A total is the own size of the directory plus the own sizes of all keys below
      it, that is keys that continue it after a `|`. */
  lemma TotalOfDescendants(own: map<string, nat>, p: string)
    ensures Covered(own.Keys, p) == set k | k in own && (k == p || CutOf(p, k))
  {
    forall k | k in own ensures p in Chain(k) <==> (k == p || CutOf(p, k)) {
      AncestorsAreCuts(k, p);
    }
  }

  /** One more key adds its own size to the totals of its chain and to no other. */
  lemma CoveredStep(own: map<string, nat>, done: set<string>, k: string, p: string)
    requires done + {k} <= own.Keys && k !in done
    ensures Covered(done + {k}, p) != {} <==> Covered(done, p) != {} || p in Chain(k)
    ensures SumValues(own, Covered(done + {k}, p)) ==
            SumValues(own, Covered(done, p)) + (if p in Chain(k) then own[k] else 0)
  {
    if p in Chain(k) {
      SumValuesRemove(own, Covered(done + {k}, p), k);
      assert Covered(done + {k}, p) - {k} == Covered(done, p);
    } else {
      assert Covered(done + {k}, p) == Covered(done, p);
    }
  }

  /** Adds `v` at `k` (`entry(..).and_modify(..).or_insert(..)`). */
  function Add(m: map<string, nat>, k: string, v: nat): (r: map<string, nat>)
    ensures forall p :: p in r <==> p in m || p == k
    ensures forall p :: Get(r, p) == Get(m, p) + (if p == k then v else 0)
  {
    m[k := Get(m, k) + v]
  }

  /** `acc` is `start` with `v` added at each of `keys`. */
  ghost predicate Accumulated(start: map<string, nat>, acc: map<string, nat>, keys: seq<string>, v: nat) {
    forall p :: (p in acc <==> p in start || p in keys) &&
                Get(acc, p) == Get(start, p) + (if p in keys then v else 0)
  }

  /** Adding along `s1` and then along `s2` adds along both when they do not
      overlap. */
  lemma AccumulatedThen(a: map<string, nat>, b: map<string, nat>, c: map<string, nat>,
                        s1: seq<string>, s2: seq<string>, v: nat)
    requires Accumulated(a, b, s1, v) && Accumulated(b, c, s2, v)
    requires forall x :: x in s1 ==> x !in s2
    ensures Accumulated(a, c, s1 + s2, v)
  {
  }

  /** The `while let` loop of the rollup from `key`: `v` added at every key that
      `rsplit_once` reaches. */
  function AddAlong(m: map<string, nat>, key: string, v: nat): map<string, nat>
    decreases |key|
  {
    match Parent(key)
    case None => m
    case Some(rest) => AddAlong(Add(m, rest, v), rest, v)
  }

  /** The loop adds `v` once at each ancestor, and nowhere else. */
  lemma {:induction false} AddAlongAncestors(m: map<string, nat>, key: string, v: nat)
    ensures Accumulated(m, AddAlong(m, key, v), Ancestors(key), v)
    decreases |key|
  {
    match Parent(key)
    case None =>
    case Some(rest) =>
      AddAlongAncestors(Add(m, rest, v), rest, v);
      assert Accumulated(m, Add(m, rest, v), [rest], v);
      AccumulatedThen(m, Add(m, rest, v), AddAlong(m, key, v), [rest], Ancestors(rest), v);
  }

  /** Adds `v` at `k` and at each key that `rsplit_once` reaches from it. */
  method AddChain(start: map<string, nat>, k: string, v: nat) returns (acc: map<string, nat>)
    ensures Accumulated(start, acc, Chain(k), v)
  {
    acc := Add(start, k, v);
    var key := k;
    while Parent(key).Some?
      invariant AddAlong(acc, key, v) == AddAlong(Add(start, k, v), k, v)
      decreases |key|
    {
      var rest := Parent(key).value;
      acc := Add(acc, rest, v);
      key := rest;
    }
    AddAlongAncestors(Add(start, k, v), k, v);
    assert Accumulated(start, Add(start, k, v), [k], v);
    AccumulatedThen(start, Add(start, k, v), acc, [k], Ancestors(k), v);
  }

  /** `acc` holds the rollup of the keys in `done`. */
  ghost predicate RolledUpOver(own: map<string, nat>, done: set<string>, acc: map<string, nat>)
    requires done <= own.Keys
  {
    forall p :: (p in acc <==> Covered(done, p) != {}) && Get(acc, p) == SumValues(own, Covered(done, p))
  }

  lemma RolledUpStep(own: map<string, nat>, done: set<string>, k: string,
                     acc: map<string, nat>, next: map<string, nat>)
    requires done + {k} <= own.Keys && k !in done
    requires RolledUpOver(own, done, acc) && Accumulated(acc, next, Chain(k), own[k])
    ensures RolledUpOver(own, done + {k}, next)
  {
    forall p
      ensures (p in next <==> Covered(done + {k}, p) != {}) &&
              Get(next, p) == SumValues(own, Covered(done + {k}, p))
    {
      CoveredStep(own, done, k, p);
    }
  }

  lemma RolledUpAll(own: map<string, nat>, acc: map<string, nat>)
    requires RolledUpOver(own, own.Keys, acc)
    ensures acc == RolledUp(own)
  {
    forall p ensures p in acc <==> p in RolledUp(own) {
      ReachCovered(own.Keys, p);
    }
    forall p | p in acc ensures acc[p] == RolledUp(own)[p] {
      assert Get(acc, p) == acc[p];
    }
  }

  /** The rollup over the table, visiting its keys in any order. */
  method Rollup(own: map<string, nat>) returns (acc: map<string, nat>)
    ensures acc == RolledUp(own)
  {
    acc := map[];
    var remaining := own.Keys;
    ghost var done: set<string> := {};
    while remaining != {}
      invariant remaining + done == own.Keys && remaining !! done
      invariant RolledUpOver(own, done, acc)
      decreases |remaining|
    {
      var k :| k in remaining;
      ghost var before := acc;
      acc := AddChain(acc, k, own[k]);
      RolledUpStep(own, done, k, before, acc);
      remaining := remaining - {k};
      done := done + {k};
    }
    RolledUpAll(own, acc);
  }

  // The answers.

  /** The totals of at most 100000. */
  function Small(totals: map<string, nat>): set<string> {
    set p | p in totals && totals[p] <= 100000
  }

  /** `a.values().filter(|&&size| size <= 100000).sum()`. */
  method SumSmall(totals: map<string, nat>) returns (r: nat)
    ensures r == SumValues(totals, Small(totals))
  {
    r := 0;
    var remaining := totals.Keys;
    assert Small(totals) * remaining == Small(totals);
    while remaining != {}
      invariant remaining <= totals.Keys
      invariant r + SumValues(totals, Small(totals) * remaining) == SumValues(totals, Small(totals))
      decreases |remaining|
    {
      var k :| k in remaining;
      if totals[k] <= 100000 {
        SumValuesRemove(totals, Small(totals) * remaining, k);
        assert Small(totals) * remaining - {k} == Small(totals) * (remaining - {k});
        r := r + totals[k];
      } else {
        assert Small(totals) * remaining == Small(totals) * (remaining - {k});
      }
      remaining := remaining - {k};
    }
    assert Small(totals) * remaining == {};
  }

  /** `process1`: the sum of all directory totals of at most 100000. */
  method ProcessOne(cs: seq<Command>) returns (r: nat)
    ensures r == SumValues(RolledUp(Run(cs).own), Small(RolledUp(Run(cs).own)))
  {
    var own, stack := Walk(cs);
    var totals := Rollup(own);
    r := SumSmall(totals);
  }

  /** The smallest total strictly above `bound`, if any. */
  method MinAbove(totals: map<string, nat>, bound: nat) returns (r: Option<nat>)
    ensures r.None? <==> forall p :: p in totals ==> totals[p] <= bound
    ensures r.Some? ==> (exists p :: p in totals && totals[p] == r.value) && r.value > bound &&
                        forall p :: p in totals && totals[p] > bound ==> r.value <= totals[p]
  {
    r := None;
    var remaining := totals.Keys;
    while remaining != {}
      invariant remaining <= totals.Keys
      invariant r.None? <==> forall p :: p in totals && p !in remaining ==> totals[p] <= bound
      invariant r.Some? ==> (exists p :: p in totals && totals[p] == r.value) && r.value > bound &&
                            forall p :: p in totals && p !in remaining && totals[p] > bound ==> r.value <= totals[p]
      decreases |remaining|
    {
      var k :| k in remaining;
      if totals[k] > bound && (r.None? || totals[k] < r.value) {
        r := Some(totals[k]);
      }
      remaining := remaining - {k};
    }
  }

  /** `abs_diff`. */
  function AbsDiff(a: int, b: int): nat {
    if a >= b then a - b else b - a
  }

  /** `process2`: the space still needed is |30000000 - (70000000 - total of /)|;
      the answer is the smallest total above it. `None` where the source panics: no
      key `/`, a total of `/` above 70000000 (the `u64` subtraction overflows), or
      no total above the bound. */
  method ProcessTwo(cs: seq<Command>) returns (r: Option<nat>)
    ensures var totals := RolledUp(Run(cs).own);
      (r.None? <==> "/" !in totals || totals["/"] > 70000000 ||
                    forall p :: p in totals ==> totals[p] <= AbsDiff(30000000, 70000000 - totals["/"])) &&
      (r.Some? ==> var bound := AbsDiff(30000000, 70000000 - totals["/"]);
                   (exists p :: p in totals && totals[p] == r.value) && r.value > bound &&
                   forall p :: p in totals && totals[p] > bound ==> r.value <= totals[p])
  {
    var own, stack := Walk(cs);
    var totals := Rollup(own);
    if "/" !in totals || totals["/"] > 70000000 {
      return None;
    }
    var bound := AbsDiff(30000000, 70000000 - totals["/"]);
    r := MinAbove(totals, bound);
  }
}
