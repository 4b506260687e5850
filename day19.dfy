/** Day 19: robot factories. From one ore robot, a breadth-first search over
    states (robots, resources, minute) builds at most one robot per minute and
    reports the most geodes it saw opened within the time limit. */
module Day19 {
  import opened Wrappers

  /** A blueprint: the ore cost of ore and clay robots, the (ore, clay) cost of
      an obsidian robot and the (ore, obsidian) cost of a geode robot. */
  datatype Blueprint = Blueprint(id: nat, ore: nat, clay: nat, obsidian: (nat, nat), geode: (nat, nat))

  /** `max_ore`: the largest ore cost among the four robots. */
  function MaxOre(b: Blueprint): nat {
    var m1 := if b.ore >= b.clay then b.ore else b.clay;
    var m2 := if m1 >= b.obsidian.0 then m1 else b.obsidian.0;
    if m2 >= b.geode.0 then m2 else b.geode.0
  }

  /** `max_ore` is one of the four ore costs and no smaller than any of them. */
  lemma MaxOreIsMax(b: Blueprint)
    ensures MaxOre(b) >= b.ore && MaxOre(b) >= b.clay && MaxOre(b) >= b.obsidian.0 && MaxOre(b) >= b.geode.0
    ensures MaxOre(b) in {b.ore, b.clay, b.obsidian.0, b.geode.0}
  {
  }

  datatype Resources = Resources(ore: nat, clay: nat, obsidian: nat, geode: nat)

  datatype State = State(oreRobot: nat, clayRobot: nat, obsidianRobot: nat, geodeRobot: nat,
                         resources: Resources, time: nat)

  /** The search starts at minute 0 with one ore robot and nothing else. */
  const Start := State(1, 0, 0, 0, Resources(0, 0, 0, 0), 0)

  /** `State::tick`: every robot collects one unit of its resource and a minute
      passes. */
  function Tick(s: State): State {
    var res := s.resources;
    s.(resources := Resources(res.ore + s.oreRobot, res.clay + s.clayRobot,
                              res.obsidian + s.obsidianRobot, res.geode + s.geodeRobot),
       time := s.time + 1)
  }

  /** A tick adds each robot count to its resource and one minute to the time,
      and changes nothing else. */
  lemma TickCollects(s: State)
    ensures var r := Tick(s);
      r.resources.ore == s.resources.ore + s.oreRobot && r.resources.clay == s.resources.clay + s.clayRobot &&
      r.resources.obsidian == s.resources.obsidian + s.obsidianRobot &&
      r.resources.geode == s.resources.geode + s.geodeRobot && r.time == s.time + 1 &&
      r.(resources := s.resources, time := s.time) == s
  {
  }

  /** What a minute can be spent building: one of the four robots or nothing. */
  datatype Robot = GeodeRobot | ObsidianRobot | ClayRobot | OreRobot | NoRobot

  function Cost(b: Blueprint, k: Robot): Resources {
    match k
    case GeodeRobot => Resources(b.geode.0, 0, b.geode.1, 0)
    case ObsidianRobot => Resources(b.obsidian.0, b.obsidian.1, 0, 0)
    case ClayRobot => Resources(b.clay, 0, 0, 0)
    case OreRobot => Resources(b.ore, 0, 0, 0)
    case NoRobot => Resources(0, 0, 0, 0)
  }

  predicate Affordable(b: Blueprint, s: State, k: Robot) {
    var c := Cost(b, k);
    s.resources.ore >= c.ore && s.resources.clay >= c.clay && s.resources.obsidian >= c.obsidian
  }

  function AddRobot(s: State, k: Robot): State {
    match k
    case GeodeRobot => s.(geodeRobot := s.geodeRobot + 1)
    case ObsidianRobot => s.(obsidianRobot := s.obsidianRobot + 1)
    case ClayRobot => s.(clayRobot := s.clayRobot + 1)
    case OreRobot => s.(oreRobot := s.oreRobot + 1)
    case NoRobot => s
  }

  /** Building `k`: its cost is paid before the minute's collection and the robot
      joins after it. */
  function Build(b: Blueprint, s: State, k: Robot): (r: State)
    requires Affordable(b, s, k)
  {
    var c := Cost(b, k);
    var paid := Resources(s.resources.ore - c.ore, s.resources.clay - c.clay,
                          s.resources.obsidian - c.obsidian, s.resources.geode);
    AddRobot(Tick(s.(resources := paid)), k)
  }

  /** The choices the search allows: a geode robot whenever it is affordable and
      then nothing else; otherwise any affordable robot, except ore robots once
      there are `max_ore` of them, or waiting. */
  predicate Allowed(b: Blueprint, s: State, k: Robot) {
    Affordable(b, s, k) &&
    (k != GeodeRobot ==> !Affordable(b, s, GeodeRobot)) &&
    (k == OreRobot ==> s.oreRobot < MaxOre(b))
  }

  /** The choices `bfs` tries after `s`, in its order: exactly the allowed ones. */
  function Choices(b: Blueprint, s: State): (r: seq<Robot>)
    ensures 1 <= |r| <= 4
  {
    if Affordable(b, s, GeodeRobot) then [GeodeRobot]
    else Maybe(b, s, OreRobot) + Maybe(b, s, ClayRobot) + Maybe(b, s, ObsidianRobot) + [NoRobot]
  }

  /** The choices are exactly the allowed ones. */
  lemma ChoicesAllowed(b: Blueprint, s: State)
    ensures forall k :: k in Choices(b, s) <==> Allowed(b, s, k)
  {
  }

  /** `[k]` if `k` is allowed, otherwise nothing. */
  function Maybe(b: Blueprint, s: State, k: Robot): seq<Robot> {
    if Allowed(b, s, k) then [k] else []
  }

  /** The states built by the choices `ks`, in order. */
  function Builds(b: Blueprint, s: State, ks: seq<Robot>): (r: seq<State>)
    requires forall k :: k in ks ==> Affordable(b, s, k)
    ensures |r| == |ks|
  {
    if ks == [] then [] else Builds(b, s, ks[..|ks| - 1]) + [Build(b, s, ks[|ks| - 1])]
  }

  lemma {:induction false} BuildsAt(b: Blueprint, s: State, ks: seq<Robot>)
    requires forall k :: k in ks ==> Affordable(b, s, k)
    ensures forall j :: 0 <= j < |ks| ==> Builds(b, s, ks)[j] == Build(b, s, ks[j])
  {
    if ks != [] {
      BuildsAt(b, s, ks[..|ks| - 1]);
    }
  }

  /** The states `bfs` queues after `s`, in its order. */
  function Successors(b: Blueprint, s: State): (r: seq<State>)
    ensures |r| == |Choices(b, s)|
  {
    ChoicesAllowed(b, s);
    Builds(b, s, Choices(b, s))
  }

  /** The successors are exactly the states built by the allowed choices. */
  lemma SuccessorsAllowed(b: Blueprint, s: State, n: State)
    ensures n in Successors(b, s) <==> exists k: Robot :: Allowed(b, s, k) && n == Build(b, s, k)
  {
    var ks := Choices(b, s);
    ChoicesAllowed(b, s);
    BuildsAt(b, s, ks);
    if n in Successors(b, s) {
      var j :| 0 <= j < |ks| && Successors(b, s)[j] == n;
      assert ks[j] in ks;
    }
    if k: Robot :| Allowed(b, s, k) && n == Build(b, s, k) {
      var j :| 0 <= j < |ks| && ks[j] == k;
      assert Successors(b, s)[j] == n;
    }
  }

  /** The total number of robots. */
  function Robots(s: State): nat {
    s.oreRobot + s.clayRobot + s.obsidianRobot + s.geodeRobot
  }

  /** Every successor is one minute later, has the same robots plus at most one
      new one, and has every geode already opened plus one per geode robot. */
  lemma SuccessorStep(b: Blueprint, s: State, n: State)
    requires n in Successors(b, s)
    ensures n.time == s.time + 1
    ensures s.oreRobot <= n.oreRobot && s.clayRobot <= n.clayRobot
    ensures s.obsidianRobot <= n.obsidianRobot && s.geodeRobot <= n.geodeRobot
    ensures Robots(n) <= Robots(s) + 1
    ensures n.resources.geode == s.resources.geode + s.geodeRobot
  {
    SuccessorsAllowed(b, s, n);
    var k: Robot :| Allowed(b, s, k) && n == Build(b, s, k);
  }

  /** The state the choices `path` lead to from `Start`, one minute each;
      `None` if some choice is not allowed where it is made. */
  function Run(b: Blueprint, path: seq<Robot>): Option<State> {
    if path == [] then Some(Start)
    else match Run(b, path[..|path| - 1])
      case None => None
      case Some(p) =>
        var k := path[|path| - 1];
        if Allowed(b, p, k) then Some(Build(b, p, k)) else None
  }

  /** A run of `n` choices ends at minute `n`. */
  lemma {:induction false} RunTime(b: Blueprint, path: seq<Robot>)
    requires Run(b, path).Some?
    ensures Run(b, path).value.time == |path|
  {
    if path != [] {
      RunTime(b, path[..|path| - 1]);
    }
  }

  /** One more allowed choice extends a run by its successor. */
  lemma RunSnoc(b: Blueprint, path: seq<Robot>, s: State, k: Robot)
    requires Run(b, path) == Some(s) && Allowed(b, s, k)
    ensures Run(b, path + [k]) == Some(Build(b, s, k))
  {
    assert (path + [k])[..|path|] == path;
  }

  /** `g` geodes can be opened within `limit` minutes by the rules. */
  ghost predicate Achievable(b: Blueprint, limit: nat, g: nat) {
    exists path: seq<Robot> :: |path| <= limit && Run(b, path).Some? && Run(b, path).value.resources.geode == g
  }

  // The queue measure: a state with `k` minutes left can give rise to at most
  // `Weight(k)` queue entries in all.

  function Weight(k: nat): (r: nat)
    ensures r >= 1
  {
    if k == 0 then 1 else 1 + 4 * Weight(k - 1)
  }

  function Load(q: seq<State>, limit: nat): nat {
    if q == [] then 0
    else Weight(if q[0].time <= limit then limit - q[0].time else 0) + Load(q[1..], limit)
  }

  lemma {:induction false} LoadAppend(a: seq<State>, c: seq<State>, limit: nat)
    ensures Load(a + c, limit) == Load(a, limit) + Load(c, limit)
  {
    if a != [] {
      assert (a + c)[0] == a[0] && (a + c)[1..] == a[1..] + c;
      LoadAppend(a[1..], c, limit);
    } else {
      assert a + c == c;
    }
  }

  lemma {:induction false} LoadSame(q: seq<State>, t: nat, limit: nat)
    requires t < limit && forall i :: 0 <= i < |q| ==> q[i].time == t + 1
    ensures Load(q, limit) == |q| * Weight(limit - t - 1)
  {
    if q != [] {
      LoadSame(q[1..], t, limit);
    }
  }

  /** The successors of a state weigh less than the state itself. */
  lemma LoadSuccessors(q: seq<State>, t: nat, limit: nat)
    requires t < limit && |q| <= 4 && forall i :: 0 <= i < |q| ==> q[i].time == t + 1
    ensures Load(q, limit) < Weight(limit - t)
  {
    LoadSame(q, t, limit);
    var w := Weight(limit - t - 1);
    assert Weight(limit - t) == 1 + 4 * w;
    if |q| == 4 {
      assert |q| * w == 4 * w;
    } else if |q| == 3 {
      assert |q| * w == 3 * w;
    } else if |q| == 2 {
      assert |q| * w == 2 * w;
    }
  }

  /** `geodes.saturating_sub(1)`. */
  function SaturatingPred(g: nat): nat {
    if g == 0 then 0 else g - 1
  }

  lemma BuildsSnoc(b: Blueprint, s: State, ks: seq<Robot>, k: Robot)
    requires (forall k' :: k' in ks ==> Affordable(b, s, k')) && Affordable(b, s, k)
    ensures Builds(b, s, ks + [k]) == Builds(b, s, ks) + [Build(b, s, k)]
  {
    assert (ks + [k])[..|ks|] == ks;
  }

  /** The tests `bfs` writes out are the rules' choices. */
  lemma Conditions(b: Blueprint, s: State)
    ensures Affordable(b, s, GeodeRobot) <==> s.resources.ore >= b.geode.0 && s.resources.obsidian >= b.geode.1
    ensures !Affordable(b, s, GeodeRobot) ==>
      (Allowed(b, s, OreRobot) <==> s.resources.ore >= b.ore && s.oreRobot < MaxOre(b)) &&
      (Allowed(b, s, ClayRobot) <==> s.resources.ore >= b.clay) &&
      (Allowed(b, s, ObsidianRobot) <==> s.resources.ore >= b.obsidian.0 && s.resources.clay >= b.obsidian.1) &&
      Allowed(b, s, NoRobot)
  {
  }

  /** The branch of `bfs` that builds copies of `state`: a geode robot alone
      when it is affordable, otherwise each other allowed robot in the order ore,
      clay, obsidian, and then waiting. This is exactly `Successors`. */
  method Expand(b: Blueprint, state: State) returns (next: seq<State>)
    ensures next == Successors(b, state)
  {
    var res := state.resources;
    Conditions(b, state);
    if res.ore >= b.geode.0 && res.obsidian >= b.geode.1 {
      BuildsSnoc(b, state, [], GeodeRobot);
      next := [Build(b, state, GeodeRobot)];
    } else {
      ghost var ks;
      next, ks := Push(b, state, [], [], OreRobot, res.ore >= b.ore && state.oreRobot < MaxOre(b));
      next, ks := Push(b, state, next, ks, ClayRobot, res.ore >= b.clay);
      next, ks := Push(b, state, next, ks, ObsidianRobot, res.ore >= b.obsidian.0 && res.clay >= b.obsidian.1);
      next, ks := Push(b, state, next, ks, NoRobot, true);
      assert [] + Maybe(b, state, OreRobot) == Maybe(b, state, OreRobot);
    }
  }

  /** One test of `bfs`'s branch: when `take` (the robot is allowed), the
      built state joins the successors found so far. */
  method Push(b: Blueprint, s: State, next: seq<State>, ghost ks: seq<Robot>, k: Robot, take: bool)
    returns (next': seq<State>, ghost ks': seq<Robot>)
    requires (forall k' :: k' in ks ==> Affordable(b, s, k')) && next == Builds(b, s, ks)
    requires take <==> Allowed(b, s, k)
    ensures ks' == ks + Maybe(b, s, k) && next' == Builds(b, s, ks')
    ensures forall k' :: k' in ks' ==> Affordable(b, s, k')
  {
    if take {
      BuildsSnoc(b, s, ks, k);
      next', ks' := next + [Build(b, s, k)], ks + [k];
    } else {
      assert ks + [] == ks;
      next', ks' := next, ks;
    }
  }

  /** `bfs`: pops states in order, keeps the running maximum of opened geodes,
      skips states seen before or more than one geode behind that maximum, stops
      at the time limit and otherwise queues the successors. The answer is always
      achievable by the rules within the limit. */
  method Bfs(b: Blueprint, limit: nat) returns (geodes: nat, ghost best: seq<Robot>)
    ensures |best| <= limit && Run(b, best).Some? && Run(b, best).value.resources.geode == geodes
  {
    var q := [Start];
    geodes := 0;
    var seen: set<State> := {};
    ghost var paths: seq<seq<Robot>> := [[]];
    best := [];
    while q != []
      invariant Runs(b, limit, q, paths)
      invariant |best| <= limit && Run(b, best).Some? && Run(b, best).value.resources.geode == geodes
      decreases Load(q, limit)
    {
      var state := q[0];
      ghost var path := paths[0];
      RunsPop(b, limit, q, paths);
      q, paths := q[1..], paths[1..];
      if state.resources.geode > geodes {
        geodes := state.resources.geode;
        best := path;
        RunTime(b, path);
      }
      if state.resources.geode < SaturatingPred(geodes) || state in seen {
        continue;
      }
      seen := seen + {state};
      if state.time == limit {
        continue;
      }
      var next := Expand(b, state);
      ghost var more := QueueNext(b, limit, state, path, next);
      LoadSuccessors(next, state.time, limit);
      LoadAppend(q, next, limit);
      RunsAppend(b, limit, q, paths, next, more);
      q, paths := q + next, paths + more;
    }
  }

  /** Each queued state is where its ghost path leads, within the limit. */
  ghost predicate Runs(b: Blueprint, limit: nat, q: seq<State>, paths: seq<seq<Robot>>) {
    |paths| == |q| && forall i :: 0 <= i < |q| ==> Run(b, paths[i]) == Some(q[i]) && q[i].time <= limit
  }

  /** The successors of a state before the limit, with the paths that lead to
      them, are one minute later and within the limit. */
  lemma QueueNext(b: Blueprint, limit: nat, state: State, path: seq<Robot>, next: seq<State>)
    returns (more: seq<seq<Robot>>)
    requires Run(b, path) == Some(state) && state.time < limit && next == Successors(b, state)
    ensures Runs(b, limit, next, more)
    ensures forall j :: 0 <= j < |next| ==> next[j].time == state.time + 1
  {
    var ks := Choices(b, state);
    more := seq(|next|, j requires 0 <= j < |next| => path + [ks[j]]);
    forall j | 0 <= j < |next| ensures Run(b, more[j]) == Some(next[j]) && next[j].time == state.time + 1 {
      assert more[j] == path + [ks[j]];
      QueueOne(b, state, path, j);
    }
  }

  /** The `j`-th successor is where the `j`-th choice leads after `path`. */
  lemma QueueOne(b: Blueprint, state: State, path: seq<Robot>, j: nat)
    requires Run(b, path) == Some(state) && j < |Choices(b, state)|
    ensures Run(b, path + [Choices(b, state)[j]]) == Some(Successors(b, state)[j])
    ensures Successors(b, state)[j].time == state.time + 1
  {
    var ks := Choices(b, state);
    ChoicesAllowed(b, state);
    BuildsAt(b, state, ks);
    assert Successors(b, state)[j] == Build(b, state, ks[j]);
    assert Allowed(b, state, ks[j]) by { assert ks[j] in ks; }
    RunSnoc(b, path, state, ks[j]);
  }

  /** Popping the queue's head: its path leads to it within the limit, the rest
      stay on their paths, and the queue's weight drops by the head's weight. */
  lemma RunsPop(b: Blueprint, limit: nat, q: seq<State>, paths: seq<seq<Robot>>)
    requires Runs(b, limit, q, paths) && q != []
    ensures Run(b, paths[0]) == Some(q[0]) && q[0].time <= limit
    ensures Runs(b, limit, q[1..], paths[1..])
    ensures Load(q, limit) == Weight(if q[0].time <= limit then limit - q[0].time else 0) + Load(q[1..], limit)
  {
  }

  /** Appending the successors keeps every queued state on its path. */
  lemma RunsAppend(b: Blueprint, limit: nat, q: seq<State>, paths: seq<seq<Robot>>, next: seq<State>, more: seq<seq<Robot>>)
    requires Runs(b, limit, q, paths) && Runs(b, limit, next, more)
    ensures Runs(b, limit, q + next, paths + more)
  {
  }

  /** The end of a run within the limit makes its geodes achievable. */
  lemma Witnessed(b: Blueprint, limit: nat, path: seq<Robot>)
    requires |path| <= limit && Run(b, path).Some?
    ensures Achievable(b, limit, Run(b, path).value.resources.geode)
  {
  }

  /** The quality levels: each blueprint's geodes times its 1-based position. */
  function QualitySum(best: seq<nat>): nat {
    if best == [] then 0 else QualitySum(best[..|best| - 1]) + best[|best| - 1] * |best|
  }

  function Product(best: seq<nat>): nat {
    if best == [] then 1 else Product(best[..|best| - 1]) * best[|best| - 1]
  }

  lemma QualitySnoc(best: seq<nat>, g: nat)
    ensures QualitySum(best + [g]) == QualitySum(best) + g * (|best| + 1)
  {
    assert (best + [g])[..|best|] == best;
  }

  lemma ProductSnoc(best: seq<nat>, g: nat)
    ensures Product(best + [g]) == Product(best) * g
  {
    assert (best + [g])[..|best|] == best;
  }

  /** `proccess_one`: the sum of `bfs(b, 24)` times the blueprint's position.
      `None` where the source's parser fails: a list of blueprints is never
      empty. */
  method ProcessOne(bps: seq<Blueprint>) returns (r: Option<nat>)
    ensures r.None? <==> bps == []
    ensures r.Some? ==> exists best: seq<nat> ::
      |best| == |bps| && r.value == QualitySum(best) && (forall i :: 0 <= i < |bps| ==> Achievable(bps[i], 24, best[i]))
  {
    if bps == [] {
      return None;
    }
    var total: int := 0;
    ghost var best: seq<nat> := [];
    var i := 0;
    while i < |bps|
      invariant 0 <= i <= |bps| && |best| == i && total == QualitySum(best)
      invariant forall j :: 0 <= j < i ==> Achievable(bps[j], 24, best[j])
    {
      var g, path := Bfs(bps[i], 24);
      Witnessed(bps[i], 24, path);
      QualitySnoc(best, g);
      total := total + g * (i + 1);
      best := best + [g];
      i := i + 1;
    }
    return Some(total);
  }

  /** `proccess_two`: the product of `bfs(b, 32)` over the first three
      blueprints. `None` on an empty list, as in part one. */
  method ProcessTwo(bps: seq<Blueprint>) returns (r: Option<nat>)
    ensures r.None? <==> bps == []
    ensures r.Some? ==> exists best: seq<nat> ::
      |best| == Min(3, |bps|) && r.value == Product(best) && (forall i :: 0 <= i < |best| ==> Achievable(bps[i], 32, best[i]))
  {
    if bps == [] {
      return None;
    }
    var n := Min(3, |bps|);
    var total: int := 1;
    ghost var best: seq<nat> := [];
    var i := 0;
    while i < n
      invariant 0 <= i <= n && |best| == i && total == Product(best)
      invariant forall j :: 0 <= j < i ==> Achievable(bps[j], 32, best[j])
    {
      var g, path := Bfs(bps[i], 32);
      Witnessed(bps[i], 32, path);
      ProductSnoc(best, g);
      total := total * g;
      best := best + [g];
      i := i + 1;
    }
    return Some(total);
  }

  function Min(a: nat, b: nat): nat {
    if a <= b then a else b
  }
}
