/** Day 16: opening pressure valves. A breadth-first search measures the hop
    distance from each valve to every valve worth opening; a depth-first search
    over that reduced graph finds the most pressure one walker (or two
    walkers) can release before time runs out. */
module Day16 {
  import opened Wrappers

  /** One input line: a valve, its flow rate and the valves its tunnels reach. */
  datatype Valve = Valve(name: string, flow: nat, tunnels: seq<string>)

  /** The tunnel graph: each valve's flow rate and tunnel list. */
  type Network = map<string, (nat, seq<string>)>

  /** The graph `proccess_one` collects: later lines with the same name replace
      earlier ones, as `collect` into a `HashMap` does. */
  function Collect(valves: seq<Valve>): (g: Network)
    ensures forall v :: v in valves ==> v.name in g
    ensures forall n :: n in g ==> exists v :: v in valves && v.name == n && g[n] == (v.flow, v.tunnels)
  {
    if |valves| == 0 then map[]
    else
      var last := valves[|valves| - 1];
      Collect(valves[..|valves| - 1])[last.name := (last.flow, last.tunnels)]
  }

  /** A tunnel leads from `a` to `b`. */
  predicate Tunnel(g: Network, a: string, b: string)
  {
    a in g && b in g[a].1
  }

  /** `v` can be reached from `s` in at most `n` hops. */
  ghost predicate Within(g: Network, s: string, v: string, n: nat)
    decreases n
  {
    if n == 0 then v == s
    else Within(g, s, v, n - 1) || exists a :: Within(g, s, a, n - 1) && Tunnel(g, a, v)
  }

  lemma {:induction false} WithinMono(g: Network, s: string, v: string, n: nat, m: nat)
    requires n <= m && Within(g, s, v, n)
    ensures Within(g, s, v, m)
    decreases m - n
  {
    if n < m {
      assert Within(g, s, v, n + 1);
      WithinMono(g, s, v, n + 1, m);
    }
  }

  ghost predicate Reachable(g: Network, s: string, v: string)
  {
    exists n: nat :: Within(g, s, v, n)
  }

  /** `n` is the fewest hops from `s` to `v`. */
  ghost predicate Shortest(g: Network, s: string, v: string, n: nat)
  {
    Within(g, s, v, n) && (n > 0 ==> !Within(g, s, v, n - 1))
  }

  /** The fewest hops are unique. */
  lemma ShortestUnique(g: Network, s: string, v: string, n: nat, m: nat)
    requires Shortest(g, s, v, n) && Shortest(g, s, v, m)
    ensures n == m
  {
    if n < m {
      WithinMono(g, s, v, n, m - 1);
    } else if m < n {
      WithinMono(g, s, v, m, n - 1);
    }
  }

  /** A reachable valve has a fewest number of hops. */
  lemma {:induction false} ShortestExists(g: Network, s: string, v: string, n: nat)
    requires Within(g, s, v, n)
    ensures exists m: nat :: m <= n && Shortest(g, s, v, m)
    decreases n
  {
    if n > 0 && Within(g, s, v, n - 1) {
      ShortestExists(g, s, v, n - 1);
    } else {
      assert Shortest(g, s, v, n);
    }
  }

  /** The hop distance from `s` to a reachable `v`. */
  ghost function Dist(g: Network, s: string, v: string): (n: nat)
    requires Reachable(g, s, v)
    ensures Shortest(g, s, v, n)
  {
    var k: nat :| Within(g, s, v, k);
    ShortestExists(g, s, v, k);
    var n: nat :| n <= k && Shortest(g, s, v, n);
    n
  }

  /** What `bfs` from `s` returns: every valve reachable from `s` with a
      non-zero flow rate, other than `s`, mapped to its hop distance. */
  ghost function Paths(g: Network, s: string): (p: map<string, nat>)
    ensures forall v :: v in p <==> v in g && v != s && g[v].0 != 0 && Reachable(g, s, v)
  {
    map v | v in g && v != s && g[v].0 != 0 && Reachable(g, s, v) :: Dist(g, s, v)
  }

  // The search.

  /** Every name the graph mentions. */
  ghost function Names(g: Network): set<string>
  {
    g.Keys + set a, i | a in g && 0 <= i < |g[a].1| :: g[a].1[i]
  }

  function Entries(q: seq<(string, nat)>): set<string>
  {
    set i | 0 <= i < |q| :: q[i].0
  }

  function Members(vs: seq<string>): set<string>
  {
    set b | b in vs
  }

  function Pushes(vs: seq<string>, d: nat): (r: seq<(string, nat)>)
    ensures |r| == |vs| && forall i :: 0 <= i < |r| ==> r[i] == (vs[i], d)
  {
    seq(|vs|, i requires 0 <= i < |vs| => (vs[i], d))
  }

  /** The valves of `vs` that `visited.insert` accepts, in order: those not
      seen before and not already accepted earlier in the list. */
  function Fresh(vs: seq<string>, seen: set<string>): (r: seq<string>)
    ensures forall b :: b in r <==> b in vs && b !in seen
  {
    if vs == [] then []
    else
      var f := Fresh(vs[..|vs| - 1], seen);
      var b := vs[|vs| - 1];
      assert forall c :: c in vs <==> c in vs[..|vs| - 1] || c == b;
      if b in seen || b in f then f else f + [b]
  }

  /** The hop counts in the queue never fall from front to back, and differ
      by at most one. */
  ghost predicate Levels(q: seq<(string, nat)>)
  {
    forall i, j :: 0 <= i <= j < |q| ==> q[i].1 <= q[j].1 <= q[i].1 + 1
  }

  /** Each queued count is the fewest hops to its valve. */
  ghost predicate Exact(g: Network, s: string, q: seq<(string, nat)>)
  {
    forall i :: 0 <= i < |q| ==> Shortest(g, s, q[i].0, q[i].1)
  }

  /** Every tunnel out of a dequeued valve leads to a visited one. */
  ghost predicate Closed(g: Network, done: set<string>, visited: set<string>)
  {
    forall a, b :: a in done && Tunnel(g, a, b) ==> b in visited
  }

  /** Every valve as near as the front of the queue has been visited. */
  ghost predicate Frontier(g: Network, s: string, q: seq<(string, nat)>, visited: set<string>)
  {
    q != [] ==> forall v :: Within(g, s, v, q[0].1) ==> v in visited
  }

  /** The paths found so far: the dequeued valves worth opening, at their
      hop distance. */
  ghost predicate Found(g: Network, s: string, done: set<string>, paths: map<string, nat>)
  {
    (forall v :: v in paths <==> v in done && v in g && v != s && g[v].0 != 0) &&
    forall v :: v in paths ==> Shortest(g, s, v, paths[v])
  }

  ghost predicate Searching(g: Network, s: string, visited: set<string>, q: seq<(string, nat)>,
                            done: set<string>, paths: map<string, nat>)
  {
    s in visited && visited <= Names(g) + {s} && visited == done + Entries(q) && done <= g.Keys &&
    (forall v :: v in visited ==> Reachable(g, s, v)) &&
    Levels(q) && Exact(g, s, q) && Closed(g, done, visited) && Frontier(g, s, q, visited) &&
    Found(g, s, done, paths)
  }

  lemma SearchStarts(g: Network, s: string)
    ensures Searching(g, s, {s}, [(s, 0)], {}, map[])
  {
    assert [(s, 0)][0].0 == s;
    assert Entries([(s, 0)]) == {s};
    assert Within(g, s, s, 0);
  }

  /** A valve nearer than the front of the queue has already been dequeued. */
  lemma NearerDequeued(g: Network, s: string, visited: set<string>, q: seq<(string, nat)>, done: set<string>, v: string, n: nat)
    requires visited == done + Entries(q) && Levels(q) && Exact(g, s, q) && Frontier(g, s, q, visited)
    requires q != [] && n < q[0].1 && Within(g, s, v, n)
    ensures v in done
  {
    WithinMono(g, s, v, n, q[0].1);
    if v !in done {
      var i :| 0 <= i < |q| && q[i].0 == v;
      WithinMono(g, s, v, n, q[i].1 - 1);
    }
  }

  /** An empty queue means every reachable valve was dequeued. */
  lemma {:induction false} ReachedDone(g: Network, s: string, done: set<string>, v: string, n: nat)
    requires s in done && Closed(g, done, done) && Within(g, s, v, n)
    ensures v in done
    decreases n
  {
    if n > 0 {
      if Within(g, s, v, n - 1) {
        ReachedDone(g, s, done, v, n - 1);
      } else {
        var a :| Within(g, s, a, n - 1) && Tunnel(g, a, v);
        ReachedDone(g, s, done, a, n - 1);
      }
    }
  }

  /** When the queue runs dry the paths found are all of them. */
  lemma SearchExhausted(g: Network, s: string, visited: set<string>, done: set<string>, paths: map<string, nat>)
    requires Searching(g, s, visited, [], done, paths)
    ensures paths == Paths(g, s)
    ensures forall v :: Reachable(g, s, v) ==> v in g
  {
    assert visited == done;
    forall v | Reachable(g, s, v) ensures v in done {
      var n: nat :| Within(g, s, v, n);
      ReachedDone(g, s, done, v, n);
    }
    var p := Paths(g, s);
    forall v | v in paths ensures p[v] == paths[v] {
      ShortestUnique(g, s, v, p[v], paths[v]);
    }
  }

  lemma StepLevels(q: seq<(string, nat)>, steps: seq<string>)
    requires Levels(q) && q != []
    ensures Levels(q[1..] + Pushes(steps, q[0].1 + 1))
  {
    var q' := q[1..] + Pushes(steps, q[0].1 + 1);
    forall i, j | 0 <= i <= j < |q'| ensures q'[i].1 <= q'[j].1 <= q'[i].1 + 1 {
      if j < |q| - 1 {
        assert q'[i] == q[i + 1] && q'[j] == q[j + 1];
      } else if i < |q| - 1 {
        assert q'[i] == q[i + 1];
      }
    }
  }

  lemma StepExact(g: Network, s: string, q: seq<(string, nat)>, visited: set<string>, steps: seq<string>)
    requires Exact(g, s, q) && Frontier(g, s, q, visited) && q != []
    requires forall b :: b in steps ==> Tunnel(g, q[0].0, b) && b !in visited
    ensures Exact(g, s, q[1..] + Pushes(steps, q[0].1 + 1))
  {
    var p, d := q[0].0, q[0].1;
    var q' := q[1..] + Pushes(steps, d + 1);
    forall i | 0 <= i < |q'| ensures Shortest(g, s, q'[i].0, q'[i].1) {
      if i < |q| - 1 {
        assert q'[i] == q[i + 1];
      } else {
        var b := steps[i - (|q| - 1)];
        assert q'[i] == (b, d + 1);
        assert Within(g, s, p, d) && Tunnel(g, p, b);
      }
    }
  }

  /** The frontier moves on with the front of the queue: a valve one hop
      beyond the old front level comes from a dequeued valve. */
  lemma StepFrontier(g: Network, s: string, d: nat, q: seq<(string, nat)>, visited: set<string>, done: set<string>)
    requires forall v :: Within(g, s, v, d) ==> v in visited
    requires Levels(q) && Exact(g, s, q) && Closed(g, done, visited) && visited == done + Entries(q)
    requires q != [] ==> d <= q[0].1 <= d + 1
    ensures Frontier(g, s, q, visited)
  {
    if q != [] && q[0].1 == d + 1 {
      forall v | Within(g, s, v, d + 1) ensures v in visited {
        if !Within(g, s, v, d) {
          var a :| Within(g, s, a, d) && Tunnel(g, a, v);
          if a !in done {
            var i :| 0 <= i < |q| && q[i].0 == a;
            WithinMono(g, s, a, d, q[i].1 - 1);
          }
        }
      }
    }
  }

  lemma EntriesAfter(q: seq<(string, nat)>, steps: seq<string>, d: nat)
    requires q != []
    ensures Entries(q) == {q[0].0} + Entries(q[1..])
    ensures Entries(q[1..] + Pushes(steps, d)) == Entries(q[1..]) + Members(steps)
  {
    var q' := q[1..] + Pushes(steps, d);
    assert forall i :: 1 <= i < |q| ==> q[i] == q[1..][i - 1];
    forall b | b in Entries(q') ensures b in Entries(q[1..]) + Members(steps) {
      var i :| 0 <= i < |q'| && q'[i].0 == b;
      if i < |q| - 1 {
        assert q'[i] == q[1..][i];
      } else {
        assert q'[i].0 == steps[i - (|q| - 1)];
      }
    }
    forall b | b in Members(steps) ensures b in Entries(q') {
      var k :| 0 <= k < |steps| && steps[k] == b;
      assert q'[|q| - 1 + k].0 == b;
    }
    forall b | b in Entries(q[1..]) ensures b in Entries(q') {
      var i :| 0 <= i < |q[1..]| && q[1..][i].0 == b;
      assert q'[i].0 == b;
    }
  }

  /** A tunnel target is a name the graph mentions. */
  lemma TargetNamed(g: Network, p: string, b: string)
    requires Tunnel(g, p, b)
    ensures b in Names(g)
  {
    var i :| 0 <= i < |g[p].1| && g[p].1[i] == b;
  }

  /** The queue half of `SearchStep`: the visited set is still the dequeued
      valves and the queued ones, and the levels stay within one hop. */
  lemma StepQueue(visited: set<string>, q: seq<(string, nat)>, done: set<string>, d: nat,
                  steps: seq<string>, visited': set<string>, q': seq<(string, nat)>, done': set<string>)
    requires visited == done + Entries(q) && q != [] && d == q[0].1 && Levels(q)
    requires visited' == visited + Members(steps) && q' == q[1..] + Pushes(steps, d + 1) && done' == done + {q[0].0}
    ensures visited' == done' + Entries(q') && Levels(q')
    ensures q' != [] ==> d <= q'[0].1 <= d + 1
  {
    StepVisited(visited, q, done, steps, d + 1);
    StepLevels(q, steps);
    StepFront(q, steps);
  }

  /** The visited set after a step is the dequeued valves and the queue. */
  lemma StepVisited(visited: set<string>, q: seq<(string, nat)>, done: set<string>, steps: seq<string>, d: nat)
    requires visited == done + Entries(q) && q != []
    ensures visited + Members(steps) == (done + {q[0].0}) + Entries(q[1..] + Pushes(steps, d))
  {
    EntriesAfter(q, steps, d);
  }

  /** The graph half of `SearchStep`: the queued counts stay exact and the
      dequeued valves closed. */
  lemma StepGraph(g: Network, s: string, visited: set<string>, q: seq<(string, nat)>, done: set<string>,
                  steps: seq<string>, visited': set<string>, q': seq<(string, nat)>, done': set<string>)
    requires q != [] && q[0].0 in g && Exact(g, s, q) && Closed(g, done, visited) && Frontier(g, s, q, visited)
    requires steps == Fresh(g[q[0].0].1, visited)
    requires visited' == visited + Members(steps) && q' == q[1..] + Pushes(steps, q[0].1 + 1) && done' == done + {q[0].0}
    ensures Exact(g, s, q') && Closed(g, done', visited')
  {
    StepExact(g, s, q, visited, steps);
    StepClosed(g, done, visited, q[0].0, steps);
  }

  /** After a step the front of the queue is at the old front's level or one more. */
  lemma StepFront(q: seq<(string, nat)>, steps: seq<string>)
    requires Levels(q) && q != []
    ensures var q' := q[1..] + Pushes(steps, q[0].1 + 1);
      q' != [] ==> q[0].1 <= q'[0].1 <= q[0].1 + 1
  {
    var q' := q[1..] + Pushes(steps, q[0].1 + 1);
    if |q| > 1 {
      assert q'[0] == q[1];
    } else if q' != [] {
      assert q'[0] == (steps[0], q[0].1 + 1);
    }
  }

  /** Dequeuing `p` and visiting its fresh tunnel targets closes `p`. */
  lemma StepClosed(g: Network, done: set<string>, visited: set<string>, p: string, steps: seq<string>)
    requires Closed(g, done, visited) && p in g && steps == Fresh(g[p].1, visited)
    ensures Closed(g, done + {p}, visited + Members(steps))
  {
    forall a, b | a in done + {p} && Tunnel(g, a, b) ensures b in visited + Members(steps) {
      if a == p && b !in visited {
        assert b in steps;
      }
    }
  }

  /** The paths after dequeuing `p` at distance `d`: `p` is recorded when it
      has a non-zero flow rate and is not the start. */
  function Record(g: Network, s: string, paths: map<string, nat>, p: string, d: nat): map<string, nat>
    requires p in g
  {
    if g[p].0 != 0 && p != s then paths[p := d] else paths
  }

  /** The queued targets are names of the graph and reachable. */
  lemma StepReach(g: Network, s: string, visited: set<string>, p: string, d: nat, steps: seq<string>)
    requires visited <= Names(g) + {s} && (forall v :: v in visited ==> Reachable(g, s, v))
    requires p in g && Within(g, s, p, d) && steps == Fresh(g[p].1, visited)
    ensures visited + Members(steps) <= Names(g) + {s}
    ensures forall v :: v in visited + Members(steps) ==> Reachable(g, s, v)
  {
    forall b | b in steps ensures b in Names(g) && Reachable(g, s, b) {
      assert Tunnel(g, p, b);
      TargetNamed(g, p, b);
      assert Within(g, s, b, d + 1);
    }
  }

  /** Recording a dequeued valve at its distance keeps the paths found. */
  lemma StepFound(g: Network, s: string, done: set<string>, paths: map<string, nat>, p: string, d: nat)
    requires Found(g, s, done, paths) && p in g && Shortest(g, s, p, d)
    ensures Found(g, s, done + {p}, Record(g, s, paths, p, d))
  {
  }

  /** Dequeuing a valve and queueing its fresh tunnel targets one hop further
      keeps the search invariant. */
  lemma SearchStep(g: Network, s: string, visited: set<string>, q: seq<(string, nat)>, done: set<string>,
                   paths: map<string, nat>, steps: seq<string>,
                   visited': set<string>, q': seq<(string, nat)>, done': set<string>)
    requires Searching(g, s, visited, q, done, paths) && q != [] && q[0].0 in g
    requires steps == Fresh(g[q[0].0].1, visited)
    requires visited' == visited + Members(steps)
    requires q' == q[1..] + Pushes(steps, q[0].1 + 1)
    requires done' == done + {q[0].0}
    ensures Searching(g, s, visited', q', done', Record(g, s, paths, q[0].0, q[0].1))
  {
    var p, d := q[0].0, q[0].1;
    assert p in Entries(q);
    assert Shortest(g, s, p, d);
    StepQueue(visited, q, done, d, steps, visited', q', done');
    StepGraph(g, s, visited, q, done, steps, visited', q', done');
    StepFrontier(g, s, d, q', visited', done');
    StepReach(g, s, visited, p, d, steps);
    StepFound(g, s, done, paths, p, d);
  }

  /** How many names are still unvisited. */
  ghost function Unseen(names: set<string>, visited: set<string>): nat
  {
    |names - visited|
  }

  lemma UnseenMark(names: set<string>, visited: set<string>, b: string)
    requires b in names && b !in visited
    ensures Unseen(names, visited + {b}) + 1 == Unseen(names, visited)
  {
    assert names - visited == (names - (visited + {b})) + {b};
  }

  /** Extending the list by one target extends the accepted targets by it
      exactly when it is new. */
  lemma FreshSnoc(vs: seq<string>, k: nat, seen: set<string>, d: nat)
    requires k < |vs|
    ensures var f := Fresh(vs[..k], seen);
      vs[k] in seen + Members(f) ==> Fresh(vs[..k + 1], seen) == f
    ensures var f := Fresh(vs[..k], seen);
      vs[k] !in seen + Members(f) ==>
        Fresh(vs[..k + 1], seen) == f + [vs[k]] && Members(f + [vs[k]]) == Members(f) + {vs[k]} &&
        Pushes(f + [vs[k]], d) == Pushes(f, d) + [(vs[k], d)]
  {
    assert vs[..k + 1][..k] == vs[..k];
  }

  /** After the first `k` targets: the accepted ones are marked visited and
      queued, and each one marked took one name off the unvisited ones. */
  ghost predicate Enqueued(visited: set<string>, q: seq<(string, nat)>, valves: seq<string>, d: nat,
                           names: set<string>, k: nat, visited': set<string>, q': seq<(string, nat)>)
  {
    k <= |valves| &&
    visited' == visited + Members(Fresh(valves[..k], visited)) && q' == q + Pushes(Fresh(valves[..k], visited), d) &&
    Unseen(names, visited') + |Fresh(valves[..k], visited)| == Unseen(names, visited)
  }

  lemma EnqueuedStart(visited: set<string>, q: seq<(string, nat)>, valves: seq<string>, d: nat, names: set<string>)
    ensures Enqueued(visited, q, valves, d, names, 0, visited, q)
  {
    assert valves[..0] == [];
    assert Members([]) == {};
  }

  lemma EnqueuedNext(visited: set<string>, q: seq<(string, nat)>, valves: seq<string>, d: nat,
                     names: set<string>, k: nat, visited': set<string>, q': seq<(string, nat)>)
    requires Enqueued(visited, q, valves, d, names, k, visited', q') && k < |valves| && valves[k] in names
    ensures valves[k] in visited' ==> Enqueued(visited, q, valves, d, names, k + 1, visited', q')
    ensures valves[k] !in visited' ==>
      Enqueued(visited, q, valves, d, names, k + 1, visited' + {valves[k]}, q' + [(valves[k], d)])
  {
    var f, b := Fresh(valves[..k], visited), valves[k];
    FreshSnoc(valves, k, visited, d);
    if b !in visited' {
      UnseenMark(names, visited', b);
      calc {
        q' + [(b, d)];
        (q + Pushes(f, d)) + [(b, d)];
        { assert (q + Pushes(f, d)) + [(b, d)] == q + (Pushes(f, d) + [(b, d)]); }
        q + Pushes(f + [b], d);
      }
      assert visited' + {b} == visited + Members(f + [b]);
    }
  }

  /** The tunnel loop of `bfs`: each target that `visited.insert` accepts is
      queued one hop further. */
  method Enqueue(visited: set<string>, q: seq<(string, nat)>, valves: seq<string>, d: nat, ghost names: set<string>)
    returns (visited': set<string>, q': seq<(string, nat)>)
    requires forall b :: b in valves ==> b in names
    ensures visited' == visited + Members(Fresh(valves, visited)) && q' == q + Pushes(Fresh(valves, visited), d)
    ensures Unseen(names, visited') + |Fresh(valves, visited)| == Unseen(names, visited)
  {
    visited', q' := visited, q;
    var k := 0;
    EnqueuedStart(visited, q, valves, d, names);
    while k < |valves|
      invariant Enqueued(visited, q, valves, d, names, k, visited', q')
    {
      var b := valves[k];
      EnqueuedNext(visited, q, valves, d, names, k, visited', q');
      if b !in visited' {
        visited' := visited' + {b};
        q' := q' + [(b, d)];
      }
      k := k + 1;
    }
    assert valves[..k] == valves;
  }

  /** Dequeues the front valve and queues its fresh tunnel targets one hop
      further. */
  method EnqueueFront(g: Network, visited: set<string>, q: seq<(string, nat)>, ghost names: set<string>)
    returns (visited': set<string>, q': seq<(string, nat)>)
    requires q != [] && q[0].0 in g && Names(g) <= names
    ensures visited' == visited + Members(Fresh(g[q[0].0].1, visited))
    ensures q' == q[1..] + Pushes(Fresh(g[q[0].0].1, visited), q[0].1 + 1)
    ensures Unseen(names, visited') + |Fresh(g[q[0].0].1, visited)| == Unseen(names, visited)
  {
    forall b | b in g[q[0].0].1 ensures b in names {
      TargetNamed(g, q[0].0, b);
    }
    visited', q' := Enqueue(visited, q[1..], g[q[0].0].1, q[0].1 + 1, names);
  }

  /** One round of `bfs` past the lookup: the front valve leaves the queue and
      its fresh tunnel targets are marked visited and queued one hop further. */
  method Expand(g: Network, ghost s: string, visited: set<string>, q: seq<(string, nat)>, ghost done: set<string>,
                ghost paths: map<string, nat>, ghost names: set<string>)
    returns (visited': set<string>, q': seq<(string, nat)>, ghost done': set<string>)
    requires Searching(g, s, visited, q, done, paths) && q != [] && q[0].0 in g && names == Names(g) + {s}
    ensures Searching(g, s, visited', q', done', Record(g, s, paths, q[0].0, q[0].1))
    ensures 2 * Unseen(names, visited') + |q'| < 2 * Unseen(names, visited) + |q|
  {
    visited', q' := EnqueueFront(g, visited, q, names);
    done' := done + {q[0].0};
    SearchStep(g, s, visited, q, done, paths, Fresh(g[q[0].0].1, visited), visited', q', done');
  }

  /** `bfs`: dequeue from the front, record a valve worth opening at its hop
      count, and queue every tunnel target not yet visited one hop further.
      `None` where the source panics: a dequeued name that is not a valve of
      the graph. */
  method Bfs(g: Network, start: string) returns (r: Option<map<string, nat>>)
    ensures r.Some? <==> forall v :: Reachable(g, start, v) ==> v in g
    ensures r.Some? ==> r.value == Paths(g, start)
  {
    var q: seq<(string, nat)> := [(start, 0)];
    var paths: map<string, nat> := map[];
    var visited: set<string> := {start};
    ghost var done: set<string> := {};
    ghost var names := Names(g) + {start};
    SearchStarts(g, start);
    while q != []
      invariant Searching(g, start, visited, q, done, paths)
      decreases 2 * Unseen(names, visited) + |q|
    {
      var current, minute := q[0].0, q[0].1;
      if current !in g {
        assert Within(g, start, current, minute);
        return None;
      }
      visited, q, done := Expand(g, start, visited, q, done, paths, names);
      paths := Record(g, start, paths, current, minute);
    }
    SearchExhausted(g, start, visited, done, paths);
    return Some(paths);
  }

  // The reduced graph and the depth-first searches.

  /** The reduced graph: each valve kept, with its flow rate and the hop
      distance to every valve worth opening. */
  type Reduced = map<string, (nat, map<string, nat>)>

  /** Every distance in the reduced graph names a valve of it (so no lookup in
      `dfs` or `dfs2` panics). */
  predicate Whole(a: Reduced)
  {
    forall k, v :: k in a && v in a[k].1 ==> v in a
  }

  /** The largest of a finite set of totals, 0 for none (`max().unwrap_or_default()`). */
  ghost function MaxOf(s: set<nat>): (m: nat)
    ensures forall x :: x in s ==> x <= m
    ensures s != {} ==> m in s
    ensures s == {} ==> m == 0
  {
    if s == {} then 0
    else
      var x :| x in s;
      var rest := MaxOf(s - {x});
      assert s == (s - {x}) + {x};
      if x >= rest then x else rest
  }

  /** A set whose every total is at most another set's maximum has a
      maximum no larger. */
  lemma MaxOfDominated(s: set<nat>, t: set<nat>)
    requires forall x :: x in s ==> x <= MaxOf(t)
    ensures MaxOf(s) <= MaxOf(t)
  {
    if s != {} {
      assert MaxOf(s) in s;
    }
  }

  /** The unopened targets of `start`: its neighbours in the reduced graph
      that are neither opens nor `start` itself. */
  ghost function Targets(a: Reduced, start: string, opens: set<string>): set<string>
    requires start in a
  {
    set v | v in a[start].1 && v !in opens + {start}
  }

  /** What `dfs` returns: nothing once the minutes are up, otherwise the
      pressure `start` releases over the remaining minutes plus the best of
      moving on to an unopened valve. */
  ghost function Best(a: Reduced, mins: int, start: string, opens: set<string>): nat
    requires Whole(a) && start in a
    decreases if mins <= 0 then 0 else mins, 2
  {
    if mins <= 0 then 0 else a[start].0 * mins + MaxOf(Onward(a, mins, start, opens))
  }

  /** The totals of moving on from `start` to each unopened target, paying
      the distance and a minute to open it, with `start` now open. */
  ghost function Onward(a: Reduced, mins: int, start: string, opens: set<string>): set<nat>
    requires Whole(a) && start in a && mins > 0
    decreases mins, 1
  {
    set v | v in Targets(a, start, opens) :: Move(a, mins, start, opens, v)
  }

  /** The total of moving on to `v`, paying its distance and a minute to
      open it, with `start` now open. */
  ghost function Move(a: Reduced, mins: int, start: string, opens: set<string>, v: string): nat
    requires Whole(a) && start in a && mins > 0 && v in a[start].1
    decreases mins, 0
  {
    Best(a, mins - 1 - a[start].1[v], v, opens + {start})
  }

  /** More minutes never release less pressure. */
  lemma {:induction false} BestMonotone(a: Reduced, mins: int, more: int, start: string, opens: set<string>)
    requires Whole(a) && start in a && mins <= more
    ensures Best(a, mins, start, opens) <= Best(a, more, start, opens)
    decreases if more <= 0 then 0 else more
  {
    if mins > 0 {
      var (flow, valves) := a[start];
      var o := opens + {start};
      var s := Onward(a, mins, start, opens);
      var t := Onward(a, more, start, opens);
      forall x | x in s ensures x <= MaxOf(t) {
        var v :| v in Targets(a, start, opens) && x == Move(a, mins, start, opens, v);
        BestMonotone(a, mins - 1 - valves[v], more - 1 - valves[v], v, o);
        var y := Move(a, more, start, opens, v);
        assert y in t;
      }
      MaxOfDominated(s, t);
      assert flow * mins <= flow * more by {
        MulMonotone(flow, mins, more);
      }
    }
  }

  lemma MulMonotone(f: nat, m: int, n: int)
    requires 0 < m <= n
    ensures f * m <= f * n
  {
  }

  /** Opening more valves beforehand never leaves more to gain. */
  lemma {:induction false} BestFewerTargets(a: Reduced, mins: int, start: string, opens: set<string>, more: set<string>)
    requires Whole(a) && start in a && opens <= more
    ensures Best(a, mins, start, more) <= Best(a, mins, start, opens)
    decreases if mins <= 0 then 0 else mins
  {
    if mins > 0 {
      var (flow, valves) := a[start];
      var s := Onward(a, mins, start, more);
      var t := Onward(a, mins, start, opens);
      forall x | x in s ensures x <= MaxOf(t) {
        var v :| v in Targets(a, start, more) && x == Move(a, mins, start, more, v);
        BestFewerTargets(a, mins - 1 - valves[v], v, opens + {start}, more + {start});
        var y := Move(a, mins, start, opens, v);
        assert y in t;
      }
      MaxOfDominated(s, t);
    }
  }

  lemma BestUnfold(a: Reduced, mins: int, start: string, opens: set<string>)
    requires Whole(a) && start in a && mins > 0
    ensures Best(a, mins, start, opens) == a[start].0 * mins + MaxOf(Onward(a, mins, start, opens))
  {
  }

  /** The larger of two totals. */
  function Larger(x: nat, y: nat): nat
  {
    if y > x then y else x
  }

  /** The largest of a set with one more total is the larger of the two. */
  lemma MaxOfAdd(s: set<nat>, x: nat)
    ensures MaxOf(s + {x}) == Larger(MaxOf(s), x)
  {
    var m := MaxOf(s + {x});
    assert m in s + {x};
    if m != x {
      assert m in s;
    }
    if s != {} {
      assert MaxOf(s) in s + {x};
    }
  }

  /** The totals of the unopened targets among `keys` tried so far. */
  ghost function Tried(a: Reduced, mins: int, start: string, opens: set<string>, keys: set<string>): set<nat>
    requires Whole(a) && start in a && mins > 0
  {
    set v | v in keys && v in Targets(a, start, opens) :: Move(a, mins, start, opens, v)
  }

  lemma TriedNone(a: Reduced, mins: int, start: string, opens: set<string>)
    requires Whole(a) && start in a && mins > 0
    ensures Tried(a, mins, start, opens, {}) == {}
  {
  }

  lemma TriedAll(a: Reduced, mins: int, start: string, opens: set<string>)
    requires Whole(a) && start in a && mins > 0
    ensures Tried(a, mins, start, opens, a[start].1.Keys) == Onward(a, mins, start, opens)
  {
  }

  /** Trying one more neighbour adds its total exactly when it is an
      unopened target. */
  lemma TriedNext(a: Reduced, mins: int, start: string, opens: set<string>, keys: set<string>, v: string)
    requires Whole(a) && start in a && mins > 0 && v in a[start].1
    ensures v in Targets(a, start, opens) ==>
      Tried(a, mins, start, opens, keys + {v}) == Tried(a, mins, start, opens, keys) + {Move(a, mins, start, opens, v)}
    ensures v !in Targets(a, start, opens) ==>
      Tried(a, mins, start, opens, keys + {v}) == Tried(a, mins, start, opens, keys)
  {
  }

  /** The minutes left, counting an exhausted clock as none. */
  function Left(mins: int): nat
  {
    if mins <= 0 then 0 else mins
  }

  /** The pairs of next valves `dfs2` tries: one target of `start` and one
      of `elefant`, distinct and neither already opened. */
  ghost function Pairs(a: Reduced, start: string, elefant: string, opens: set<string>): set<(string, string)>
    requires start in a && elefant in a
  {
    set v, w | v in a[start].1 && w in a[elefant].1 && v != w && v !in opens && w !in opens :: (v, w)
  }

  /** What `dfs2` returns: nothing once both clocks are exhausted, the single
      search of whoever still has time once one is, and otherwise the
      pressure both current valves release plus the best pair of moves. */
  ghost function Best2(a: Reduced, mins: int, mins1: int, start: string, elefant: string, opens: set<string>): nat
    requires Whole(a) && start in a && elefant in a
    decreases Left(mins) + Left(mins1), 2
  {
    if mins <= 0 && mins1 <= 0 then 0
    else if mins <= 0 then Best(a, mins1, elefant, opens)
    else if mins1 <= 0 then Best(a, mins, start, opens)
    else a[start].0 * mins + a[elefant].0 * mins1 + MaxOf(Jointly(a, mins, mins1, start, elefant, opens))
  }

  /** The totals of moving on to each pair, both valves now opened. */
  ghost function Jointly(a: Reduced, mins: int, mins1: int, start: string, elefant: string, opens: set<string>): set<nat>
    requires Whole(a) && start in a && elefant in a && mins > 0 && mins1 > 0
    decreases mins + mins1, 1
  {
    set p | p in Pairs(a, start, elefant, opens) :: Move2(a, mins, mins1, start, elefant, opens, p)
  }

  /** The total of moving on to the pair `p`, paying both distances and a
      minute each to open them. */
  ghost function Move2(a: Reduced, mins: int, mins1: int, start: string, elefant: string, opens: set<string>, p: (string, string)): nat
    requires Whole(a) && start in a && elefant in a && mins > 0 && mins1 > 0
    requires p.0 in a[start].1 && p.1 in a[elefant].1
    decreases mins + mins1, 0
  {
    Best2(a, mins - 1 - a[start].1[p.0], mins1 - 1 - a[elefant].1[p.1], p.0, p.1, opens + {p.0, p.1})
  }

  lemma Best2Unfold(a: Reduced, mins: int, mins1: int, start: string, elefant: string, opens: set<string>)
    requires Whole(a) && start in a && elefant in a && mins > 0 && mins1 > 0
    ensures Best2(a, mins, mins1, start, elefant, opens)
      == a[start].0 * mins + a[elefant].0 * mins1 + MaxOf(Jointly(a, mins, mins1, start, elefant, opens))
  {
  }

  /** The totals of the pairs among `done` tried so far. */
  ghost function Tried2(a: Reduced, mins: int, mins1: int, start: string, elefant: string, opens: set<string>, done: set<(string, string)>): set<nat>
    requires Whole(a) && start in a && elefant in a && mins > 0 && mins1 > 0
  {
    set p | p in done && p in Pairs(a, start, elefant, opens) :: Move2(a, mins, mins1, start, elefant, opens, p)
  }

  lemma Tried2None(a: Reduced, mins: int, mins1: int, start: string, elefant: string, opens: set<string>)
    requires Whole(a) && start in a && elefant in a && mins > 0 && mins1 > 0
    ensures Tried2(a, mins, mins1, start, elefant, opens, {}) == {}
  {
  }

  lemma Tried2All(a: Reduced, mins: int, mins1: int, start: string, elefant: string, opens: set<string>, all: set<(string, string)>)
    requires Whole(a) && start in a && elefant in a && mins > 0 && mins1 > 0
    requires forall v, w :: (v, w) in all <==> v in a[start].1 && w in a[elefant].1
    ensures Tried2(a, mins, mins1, start, elefant, opens, all) == Jointly(a, mins, mins1, start, elefant, opens)
  {
  }

  /** Trying one more pair adds its total exactly when it is a pair to try. */
  lemma Tried2Next(a: Reduced, mins: int, mins1: int, start: string, elefant: string, opens: set<string>, done: set<(string, string)>, p: (string, string))
    requires Whole(a) && start in a && elefant in a && mins > 0 && mins1 > 0
    requires p.0 in a[start].1 && p.1 in a[elefant].1
    ensures p in Pairs(a, start, elefant, opens) ==>
      Tried2(a, mins, mins1, start, elefant, opens, done + {p}) == Tried2(a, mins, mins1, start, elefant, opens, done)
        + {Move2(a, mins, mins1, start, elefant, opens, p)}
    ensures p !in Pairs(a, start, elefant, opens) ==>
      Tried2(a, mins, mins1, start, elefant, opens, done + {p}) == Tried2(a, mins, mins1, start, elefant, opens, done)
  {
  }

  /** The search state of `dfs`: the reduced graph and the set of opened
      valves, which each call updates and restores. */
  class Explorer {
    const graph: Reduced
    var opend: set<string>

    constructor (graph: Reduced, opend: set<string>)
      ensures this.graph == graph && this.opend == opend
    {
      this.graph := graph;
      this.opend := opend;
    }

    /** The most pressure released from `start` within `mins` minutes; on
        return `start` is no longer marked opened. */
    method Dfs(mins: int, start: string) returns (r: nat)
      requires Whole(graph) && start in graph
      modifies this
      ensures r == Best(graph, mins, start, old(opend))
      ensures opend == old(opend) - {start}
      decreases if mins <= 0 then 0 else mins, 1
    {
      if mins <= 0 {
        opend := opend - {start};
        return 0;
      }
      var flow := graph[start].0;
      var valves := graph[start].1;
      ghost var opens := opend;
      opend := opend + {start};
      var best := 0;
      var todo := valves.Keys;
      TriedNone(graph, mins, start, opens);
      while todo != {}
        invariant todo <= valves.Keys
        invariant opend == opens + {start}
        invariant best == MaxOf(Tried(graph, mins, start, opens, valves.Keys - todo))
        decreases todo
      {
        var v :| v in todo;
        ghost var keys := valves.Keys - todo;
        todo := todo - {v};
        assert valves.Keys - todo == keys + {v};
        TriedNext(graph, mins, start, opens, keys, v);
        if v in Targets(graph, start, opens) {
          MaxOfAdd(Tried(graph, mins, start, opens, keys), Move(graph, mins, start, opens, v));
        }
        best := Try(mins, start, v, opens, best);
      }
      assert valves.Keys - todo == valves.Keys;
      TriedAll(graph, mins, start, opens);
      BestUnfold(graph, mins, start, opens);
      opend := opend - {start};
      r := flow * mins + best;
    }

    /** One step of the loop in `dfs`: explore neighbour `v` of `start` when
        it is not opened, and keep the larger total. */
    method Try(mins: int, start: string, v: string, ghost opens: set<string>, best: nat) returns (r: nat)
      requires Whole(graph) && start in graph && mins > 0 && v in graph[start].1
      requires opend == opens + {start}
      modifies this
      ensures opend == opens + {start}
      ensures r == if v in Targets(graph, start, opens)
                   then Larger(best, Move(graph, mins, start, opens, v))
                   else best
      decreases mins, 0
    {
      r := best;
      if v !in opend {
        var x := Dfs(mins - 1 - graph[start].1[v], v);
        r := Larger(best, x);
      }
    }

    /** The most pressure two explorers release together, one from `start`
        with `mins` minutes and one from `elefant` with `mins1`; on return
        neither is marked opened. */
    method Dfs2(mins: int, mins1: int, start: string, elefant: string) returns (r: nat)
      requires Whole(graph) && start in graph && elefant in graph
      modifies this
      ensures r == Best2(graph, mins, mins1, start, elefant, old(opend))
      ensures opend == old(opend) - {start, elefant}
      decreases Left(mins) + Left(mins1), 2
    {
      if mins <= 0 && mins1 <= 0 {
        opend := opend - {start} - {elefant};
        return 0;
      } else if mins <= 0 {
        r := Dfs(mins1, elefant);
        opend := opend - {start};
        return;
      } else if mins1 <= 0 {
        r := Dfs(mins, start);
        opend := opend - {elefant};
        return;
      }
      var flow := graph[start].0 * mins + graph[elefant].0 * mins1;
      var valves := graph[start].1;
      var valvesE := graph[elefant].1;
      ghost var opens := opend;
      var all := set v, w | v in valves.Keys && w in valvesE.Keys :: (v, w);
      var best := 0;
      var todo := all;
      Tried2None(graph, mins, mins1, start, elefant, opens);
      while todo != {}
        invariant todo <= all
        invariant opend == opens
        invariant best == MaxOf(Tried2(graph, mins, mins1, start, elefant, opens, all - todo))
        decreases todo
      {
        var p :| p in todo;
        ghost var done := all - todo;
        todo := todo - {p};
        assert all - todo == done + {p};
        Tried2Next(graph, mins, mins1, start, elefant, opens, done, p);
        if p in Pairs(graph, start, elefant, opens) {
          MaxOfAdd(Tried2(graph, mins, mins1, start, elefant, opens, done), Move2(graph, mins, mins1, start, elefant, opens, p));
        }
        best := Try2(mins, mins1, start, elefant, p, opens, best);
      }
      assert all - todo == all;
      Tried2All(graph, mins, mins1, start, elefant, opens, all);
      Best2Unfold(graph, mins, mins1, start, elefant, opens);
      opend := opend - {start} - {elefant};
      r := flow + best;
    }

    /** One step of the loop in `dfs2`: explore the pair `p` when its valves
        differ and neither is opened, and keep the larger total. */
    method Try2(mins: int, mins1: int, start: string, elefant: string, p: (string, string),
                ghost opens: set<string>, best: nat) returns (r: nat)
      requires Whole(graph) && start in graph && elefant in graph && mins > 0 && mins1 > 0
      requires p.0 in graph[start].1 && p.1 in graph[elefant].1
      requires opend == opens
      modifies this
      ensures opend == opens
      ensures r == if p in Pairs(graph, start, elefant, opens)
                   then Larger(best, Move2(graph, mins, mins1, start, elefant, opens, p))
                   else best
      decreases Left(mins) + Left(mins1), 0
    {
      r := best;
      var valve, valve2 := p.0, p.1;
      if valve != valve2 && valve !in opend && valve2 !in opend {
        opend := opend + {valve, valve2};
        var x := Dfs2(mins - 1 - graph[start].1[valve], mins1 - 1 - graph[elefant].1[valve2], valve, valve2);
        opend := opend - {valve, valve2};
        r := Larger(best, x);
      }
    }
  }

  // Building the reduced graph and the two puzzle parts.

  /** `bfs` from `s` finds every valve it reaches in the graph (it panics
      otherwise). */
  ghost predicate Sealed(g: Network, s: string)
  {
    forall v :: Reachable(g, s, v) ==> v in g
  }

  /** Every search `proccess_one` runs succeeds: from "AA" and from each valve
      with a non-zero flow rate. */
  ghost predicate Usable(g: Network)
  {
    Sealed(g, "AA") && forall k :: k in g && g[k].0 != 0 ==> Sealed(g, k)
  }

  /** The valves among `keys` with a non-zero flow rate, each with its
      distances. */
  ghost function Worth(g: Network, keys: set<string>): map<string, (nat, map<string, nat>)>
    requires keys <= g.Keys
  {
    map k | k in keys && g[k].0 != 0 :: (g[k].0, Paths(g, k))
  }

  /** The reduced graph: every valve with a non-zero flow rate, and "AA" with
      flow 0 whatever its own rate. */
  ghost function Condensed(g: Network): (a: Reduced)
    ensures Whole(a) && "AA" in a
    ensures forall k :: k in a <==> k == "AA" || (k in g && g[k].0 != 0)
    ensures a["AA"] == (0, Paths(g, "AA"))
    ensures forall k :: k in a && k != "AA" ==> a[k] == (g[k].0, Paths(g, k))
  {
    Worth(g, g.Keys)["AA" := (0, Paths(g, "AA"))]
  }

  lemma WorthNext(g: Network, keys: set<string>, k: string)
    requires keys <= g.Keys && k in g && k !in keys
    ensures g[k].0 != 0 ==> Worth(g, keys + {k}) == Worth(g, keys)[k := (g[k].0, Paths(g, k))]
    ensures g[k].0 == 0 ==> Worth(g, keys + {k}) == Worth(g, keys)
  {
  }

  /** The graph `proccess_one` searches: `bfs` from "AA" and from every valve
      with a non-zero flow rate; `None` where one of them panics. */
  method Condense(g: Network) returns (r: Option<Reduced>)
    ensures r.Some? <==> Usable(g)
    ensures r.Some? ==> r.value == Condensed(g)
  {
    var c := Bfs(g, "AA");
    if c.None? {
      return None;
    }
    var a := SearchAll(g);
    if a.None? {
      return None;
    }
    r := Some(a.value["AA" := (0, c.value)]);
  }

  /** The loop of `proccess_one` over the valves: `bfs` from every valve with a
      non-zero flow rate, in any order of the keys. */
  method SearchAll(g: Network) returns (r: Option<map<string, (nat, map<string, nat>)>>)
    ensures r.Some? <==> forall k :: k in g && g[k].0 != 0 ==> Sealed(g, k)
    ensures r.Some? ==> r.value == Worth(g, g.Keys)
  {
    var a: map<string, (nat, map<string, nat>)> := map[];
    var todo := g.Keys;
    while todo != {}
      invariant todo <= g.Keys
      invariant a == Worth(g, g.Keys - todo)
      invariant forall k :: k in g.Keys - todo && g[k].0 != 0 ==> Sealed(g, k)
      decreases todo
    {
      var k :| k in todo;
      WorthNext(g, g.Keys - todo, k);
      assert g.Keys - (todo - {k}) == (g.Keys - todo) + {k};
      if g[k].0 != 0 {
        var p := Bfs(g, k);
        if p.None? {
          return None;
        }
        a := a[k := (g[k].0, p.value)];
      }
      todo := todo - {k};
    }
    assert g.Keys - todo == g.Keys;
    r := Some(a);
  }

  /** Part one: the most pressure one explorer releases in 30 minutes from
      "AA". */
  method ProcessOne(valves: seq<Valve>) returns (r: Option<nat>)
    ensures r.Some? <==> Usable(Collect(valves))
    ensures r.Some? ==> r.value == Best(Condensed(Collect(valves)), 30, "AA", {})
  {
    var a := Condense(Collect(valves));
    if a.None? {
      return None;
    }
    var explorer := new Explorer(a.value, {});
    var x := explorer.Dfs(30, "AA");
    r := Some(x);
  }

  /** Part two: the most pressure two explorers release in 26 minutes each,
      both from "AA", with "AA" counted as opened. */
  method ProcessTwo(valves: seq<Valve>) returns (r: Option<nat>)
    ensures r.Some? <==> Usable(Collect(valves))
    ensures r.Some? ==> r.value == Best2(Condensed(Collect(valves)), 26, 26, "AA", "AA", {"AA"})
  {
    var a := Condense(Collect(valves));
    if a.None? {
      return None;
    }
    var explorer := new Explorer(a.value, {"AA"});
    var x := explorer.Dfs2(26, 26, "AA", "AA");
    r := Some(x);
  }
}
