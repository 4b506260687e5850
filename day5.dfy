/** Day 5: supply stacks. Crates are drawn in rows, top row first; the stacks are
    built bottom-up, then each move takes `times` crates off the top of one stack and
    puts them on another: reversed in part one (one crate at a time), in order in part
    two. The answer is the top crate of every non-empty stack. */
module Day5 {
  import opened Wrappers
  import opened Multisets

  /** A parsed move, with the stacks numbered from zero. */
  datatype Move = Move(times: nat, from: nat, to: nat)

  /** `parse_move`: the stack numbers of the input start at one; a zero makes
      `from as usize - 1` underflow. */
  function ParseMove(times: nat, from: nat, to: nat): (r: Option<Move>)
    ensures r.Some? <==> from >= 1 && to >= 1
    ensures r.Some? ==> r.value.from + 1 == from && r.value.to + 1 == to && r.value.times == times
  {
    if from == 0 || to == 0 then None else Some(Move(times, from - 1, to - 1))
  }

  /** A row of the drawing: `None` where three spaces stand for "no crate". */
  type Row = seq<Option<char>>

  /** Stack `i` built from the rows (top row first): the rows below contribute first,
      the row on top pushes last. */
  function Column(rows: seq<Row>, i: nat): seq<char> {
    if rows == [] then []
    else Column(rows[1..], i) + (if i < |rows[0]| && rows[0][i].Some? then [rows[0][i].value] else [])
  }

  /** The fold only panics when a crate sits beyond the width of the top row (lines
      44-51: `stack[i]` is indexed for crates, never for gaps). */
  predicate Fits(rows: seq<Row>) {
    rows != [] &&
    forall r, i :: 0 <= r < |rows| && |rows[0]| <= i < |rows[r]| ==> rows[r][i].None?
  }

  function Stacks(rows: seq<Row>): seq<seq<char>>
    requires rows != []
  {
    seq(|rows[0]|, i requires 0 <= i < |rows[0]| => Column(rows, i))
  }

  /** The stack construction of lines 44-53: one vector per column of the top row,
      filled by pushing the crates of the rows from the bottom row up. */
  method BuildStacks(rows: seq<Row>) returns (r: Option<array<seq<char>>>)
    ensures r.Some? <==> Fits(rows)
    ensures r.Some? ==> fresh(r.value) && r.value[..] == Stacks(rows)
  {
    if rows == [] {
      return None;
    }
    var len := |rows[0]|;
    var stacks := new seq<char>[len](_ => []);
    var k := |rows|;
    while k > 0
      invariant 0 <= k <= |rows|
      invariant forall i :: 0 <= i < len ==> stacks[i] == Column(rows[k..], i)
      invariant forall r, i :: k <= r < |rows| && len <= i < |rows[r]| ==> rows[r][i].None?
    {
      k := k - 1;
      var ok := PushRow(stacks, rows[k]);
      if !ok {
        return None;
      }
      forall j | 0 <= j < len ensures stacks[j] == Column(rows[k..], j) {
        assert rows[k..][1..] == rows[k + 1..];
      }
    }
    assert rows[0..] == rows;
    return Some(stacks);
  }

  /** One row of the fold: push each crate of the row onto the stack of its
      column; a crate beyond the last stack panics. */
  method PushRow(stacks: array<seq<char>>, row: Row) returns (ok: bool)
    modifies stacks
    ensures ok <==> forall j :: stacks.Length <= j < |row| ==> row[j].None?
    ensures ok ==> forall j :: 0 <= j < stacks.Length ==>
      stacks[j] == old(stacks[j]) + (if j < |row| && row[j].Some? then [row[j].value] else [])
  {
    var i := 0;
    while i < |row|
      invariant 0 <= i <= |row|
      invariant forall j :: 0 <= j < stacks.Length ==>
        stacks[j] == old(stacks[j]) + (if j < i && row[j].Some? then [row[j].value] else [])
      invariant forall j :: stacks.Length <= j < i ==> row[j].None?
    {
      if row[i].Some? {
        if i >= stacks.Length {
          return false;
        }
        stacks[i] := stacks[i] + [row[i].value];
      }
      i := i + 1;
    }
    return true;
  }

  function Reverse<T>(s: seq<T>): (r: seq<T>)
    ensures |r| == |s| && forall k :: 0 <= k < |s| ==> r[k] == s[|s| - 1 - k]
  {
    if s == [] then [] else [s[|s| - 1]] + Reverse(s[..|s| - 1])
  }

  /** One move: `drain` the top `times` crates of `from` and `extend` `to` with them,
      reversed in part one. `None` where the program panics: a stack number out of
      range or more crates than the stack holds (`len - times` underflows). */
  function ApplyMove(stacks: seq<seq<char>>, m: Move, reverse: bool): Option<seq<seq<char>>> {
    if m.from >= |stacks| || m.to >= |stacks| || m.times > |stacks[m.from]| then None
    else
      var src := stacks[m.from];
      var cut := |src| - m.times;
      var block := src[cut..];
      var drained := stacks[m.from := src[..cut]];
      Some(drained[m.to := drained[m.to] + (if reverse then Reverse(block) else block)])
  }

  function ApplyAll(stacks: seq<seq<char>>, moves: seq<Move>, reverse: bool): Option<seq<seq<char>>>
    decreases |moves|
  {
    if moves == [] then Some(stacks)
    else
      match ApplyMove(stacks, moves[0], reverse)
      case None => None
      case Some(next) => ApplyAll(next, moves[1..], reverse)
  }

  /** The move loop of lines 54-58 (part one) and 80-84 (part two), in place. */
  method Rearrange(crates: array<seq<char>>, moves: seq<Move>, reverse: bool) returns (ok: bool)
    modifies crates
    ensures ok <==> ApplyAll(old(crates[..]), moves, reverse).Some?
    ensures ok ==> crates[..] == ApplyAll(old(crates[..]), moves, reverse).value
  {
    var k := 0;
    while k < |moves|
      invariant 0 <= k <= |moves|
      invariant ApplyAll(old(crates[..]), moves, reverse) == ApplyAll(crates[..], moves[k..], reverse)
    {
      var m := moves[k];
      ApplyAllFront(crates[..], moves, k, reverse);
      if m.from >= crates.Length || m.to >= crates.Length || m.times > |crates[m.from]| {
        return false;
      }
      MoveCrates(crates, m, reverse);
      k := k + 1;
    }
    return true;
  }

  /** One move in place on the stacks: `ApplyMove` when the move fits. */
  method MoveCrates(crates: array<seq<char>>, m: Move, reverse: bool)
    requires m.from < crates.Length && m.to < crates.Length && m.times <= |crates[m.from]|
    modifies crates
    ensures ApplyMove(old(crates[..]), m, reverse) == Some(crates[..])
  {
    ghost var before := crates[..];
    var len := |crates[m.from]|;
    var d := crates[m.from][len - m.times..];
    ghost var drained := before[m.from := before[m.from][..len - m.times]];
    crates[m.from] := crates[m.from][..len - m.times];
    assert crates[..] == drained;
    crates[m.to] := crates[m.to] + (if reverse then Reverse(d) else d);
    assert crates[..] == drained[m.to := drained[m.to] + (if reverse then Reverse(d) else d)];
    MoveApplied(before, m, reverse, d, drained);
  }

  /** A move that fits drains the top `times` crates of `from` and adds them to
      `to`. */
  lemma MoveApplied(stacks: seq<seq<char>>, m: Move, reverse: bool, block: seq<char>, drained: seq<seq<char>>)
    requires m.from < |stacks| && m.to < |stacks| && m.times <= |stacks[m.from]|
    requires block == stacks[m.from][|stacks[m.from]| - m.times..]
    requires drained == stacks[m.from := stacks[m.from][..|stacks[m.from]| - m.times]]
    ensures ApplyMove(stacks, m, reverse) == Some(drained[m.to := drained[m.to] + (if reverse then Reverse(block) else block)])
  {
  }

  /** The fold from the `k`-th move is that move followed by the fold from the next. */
  lemma ApplyAllFront(stacks: seq<seq<char>>, moves: seq<Move>, k: nat, reverse: bool)
    requires k < |moves|
    ensures ApplyAll(stacks, moves[k..], reverse) ==
      match ApplyMove(stacks, moves[k], reverse)
      case None => None
      case Some(next) => ApplyAll(next, moves[k + 1..], reverse)
  {
    assert moves[k..][0] == moves[k] && moves[k..][1..] == moves[k + 1..];
  }

  /** The top crate of every non-empty stack, left to right. */
  function Tops(stacks: seq<seq<char>>): string {
    if stacks == [] then []
    else (if stacks[0] == [] then [] else [stacks[0][|stacks[0]| - 1]]) + Tops(stacks[1..])
  }

  /** procces_one (`reverse`) and procces_two (not `reverse`) on parsed input. */
  method Process(rows: seq<Row>, moves: seq<Move>, reverse: bool) returns (r: Option<string>)
    ensures r.Some? <==> Fits(rows) && ApplyAll(Stacks(rows), moves, reverse).Some?
    ensures r.Some? ==> r.value == Tops(ApplyAll(Stacks(rows), moves, reverse).value)
  {
    var built := BuildStacks(rows);
    if built.None? {
      return None;
    }
    var crates := built.value;
    var ok := Rearrange(crates, moves, reverse);
    if !ok {
      return None;
    }
    return Some(Tops(crates[..]));
  }

  // Properties of a move.

  function Flatten(stacks: seq<seq<char>>): seq<char> {
    if stacks == [] then [] else stacks[0] + Flatten(stacks[1..])
  }

  /** Replacing stack `i` by `x` trades the crates of the old stack for those of `x`. */
  lemma {:induction false} FlattenUpdate(stacks: seq<seq<char>>, i: nat, x: seq<char>)
    requires i < |stacks|
    ensures multiset(Flatten(stacks[i := x])) + multiset(stacks[i]) == multiset(Flatten(stacks)) + multiset(x)
  {
    var updated := stacks[i := x];
    assert Flatten(updated) == updated[0] + Flatten(updated[1..]);
    assert Flatten(stacks) == stacks[0] + Flatten(stacks[1..]);
    if i > 0 {
      var tail := stacks[1..];
      assert updated[1..] == tail[i - 1 := x];
      assert updated[0] == stacks[0] && tail[i - 1] == stacks[i];
      FlattenUpdate(tail, i - 1, x);
      var head, newTail, oldTail := multiset(stacks[0]), multiset(Flatten(tail[i - 1 := x])), multiset(Flatten(tail));
      assert head + newTail + multiset(stacks[i]) == head + (newTail + multiset(stacks[i]));
      assert head + oldTail + multiset(x) == head + (oldTail + multiset(x));
    } else {
      assert updated[1..] == stacks[1..];
    }
  }

  /** A move between two different stacks, spelled out: `from` keeps `keep` and loses
      `block` off its top, `to` gains the (possibly reversed) block. */
  lemma MoveBetween(stacks: seq<seq<char>>, m: Move, reverse: bool, keep: seq<char>, block: seq<char>)
    requires m.from < |stacks| && m.to < |stacks| && m.from != m.to
    requires stacks[m.from] == keep + block && |block| == m.times
    ensures ApplyMove(stacks, m, reverse)
      == Some(stacks[m.from := keep][m.to := stacks[m.to] + (if reverse then Reverse(block) else block)])
  {
    var src := stacks[m.from];
    assert src[|src| - m.times..] == block && src[..|src| - m.times] == keep;
  }

  lemma ReverseMultiset<T>(s: seq<T>)
    ensures multiset(Reverse(s)) == multiset(s)
  {
    if s != [] {
      assert s == s[..|s| - 1] + [s[|s| - 1]];
      ReverseMultiset(s[..|s| - 1]);
    }
  }

  /** A move neither creates nor destroys crates: the same crates are on the stacks
      before and after. */
  lemma CratesPreserved(stacks: seq<seq<char>>, m: Move, reverse: bool)
    requires ApplyMove(stacks, m, reverse).Some?
    ensures multiset(Flatten(ApplyMove(stacks, m, reverse).value)) == multiset(Flatten(stacks))
  {
    var src := stacks[m.from];
    var cut := |src| - m.times;
    var keep, block := src[..cut], src[cut..];
    var moved := if reverse then Reverse(block) else block;
    var drained := stacks[m.from := keep];
    var target := drained[m.to];
    var result := drained[m.to := target + moved];
    assert result == ApplyMove(stacks, m, reverse).value;
    var all, mid, after := multiset(Flatten(stacks)), multiset(Flatten(drained)), multiset(Flatten(result));
    assert mid + multiset(block) == all by {
      FlattenUpdate(stacks, m.from, keep);
      assert src == keep + block;
      assert mid + multiset(block) + multiset(keep) == mid + (multiset(keep) + multiset(block));
      Cancel(mid + multiset(block), all, multiset(keep));
    }
    assert after == mid + multiset(block) by {
      FlattenUpdate(drained, m.to, target + moved);
      ReverseMultiset(block);
      assert multiset(target + moved) == multiset(target) + multiset(block);
      assert mid + multiset(target + moved) == mid + multiset(block) + multiset(target);
      Cancel(after, mid + multiset(block), multiset(target));
    }
  }

  /** Between two different stacks, a move shrinks `from` by `times`, grows `to` by
      `times` and leaves every other stack alone. */
  lemma MoveShape(stacks: seq<seq<char>>, m: Move, reverse: bool)
    requires ApplyMove(stacks, m, reverse).Some? && m.from != m.to
    ensures var r := ApplyMove(stacks, m, reverse).value;
      |r| == |stacks| &&
      |r[m.from]| + m.times == |stacks[m.from]| &&
      |r[m.to]| == |stacks[m.to]| + m.times &&
      forall k :: 0 <= k < |stacks| && k != m.from && k != m.to ==> r[k] == stacks[k]
  {
  }

  function Singles(n: nat, from: nat, to: nat): (r: seq<Move>)
    ensures |r| == n
  {
    if n == 0 then [] else [Move(1, from, to)] + Singles(n - 1, from, to)
  }

  /** Moving no crates leaves every stack as it was. */
  lemma MoveNothing(stacks: seq<seq<char>>, m: Move, reverse: bool)
    requires m.from < |stacks| && m.to < |stacks| && m.times == 0
    ensures ApplyMove(stacks, m, reverse) == Some(stacks)
  {
    var src := stacks[m.from];
    assert src[..|src|] == src && src[|src|..] == [] && Reverse<char>([]) == [];
    assert stacks[m.from := src] == stacks;
    var dst := stacks[m.to];
    assert dst + [] == dst;
    assert stacks[m.to := dst] == stacks;
  }

  /** The first crate moved by a one-at-a-time crane. */
  lemma {:induction false} TopCrate(stacks: seq<seq<char>>, m: Move)
    requires m.from < |stacks| && m.to < |stacks| && m.from != m.to && 0 < m.times <= |stacks[m.from]|
    ensures var src := stacks[m.from];
      ApplyAll(stacks, Singles(m.times, m.from, m.to), true)
      == ApplyAll(stacks[m.from := src[..|src| - 1]][m.to := stacks[m.to] + [src[|src| - 1]]],
                  Singles(m.times - 1, m.from, m.to), true)
  {
    var src := stacks[m.from];
    var top := src[|src| - 1];
    assert src[..|src| - 1] + [top] == src && Reverse([top]) == [top];
    MoveBetween(stacks, Move(1, m.from, m.to), true, src[..|src| - 1], [top]);
    var singles := Singles(m.times, m.from, m.to);
    assert singles[0] == Move(1, m.from, m.to) && singles[1..] == Singles(m.times - 1, m.from, m.to);
  }

  /** Moving the rest of the block after its top crate finishes the reversed move. */
  lemma {:induction false} RestOfBlock(stacks: seq<seq<char>>, m: Move)
    requires m.from < |stacks| && m.to < |stacks| && m.from != m.to && 0 < m.times <= |stacks[m.from]|
    ensures var src := stacks[m.from];
      ApplyMove(stacks[m.from := src[..|src| - 1]][m.to := stacks[m.to] + [src[|src| - 1]]],
                Move(m.times - 1, m.from, m.to), true)
      == ApplyMove(stacks, m, true)
  {
    var src, dst := stacks[m.from], stacks[m.to];
    var cut := |src| - m.times;
    var top := src[|src| - 1];
    var middle := src[cut..|src| - 1];
    var one := stacks[m.from := src[..|src| - 1]][m.to := dst + [top]];
    SplitTop(src, cut);
    ReverseSnoc(middle, top);
    MoveBetween(one, Move(m.times - 1, m.from, m.to), true, src[..cut], middle);
    MoveBetween(stacks, m, true, src[..cut], src[cut..]);
    assert dst + [top] + Reverse(middle) == dst + Reverse(src[cut..]);
    UpdateTwice(stacks, m.from, m.to, src[..|src| - 1], dst + [top], src[..cut], dst + Reverse(src[cut..]));
  }

  lemma SplitTop(src: seq<char>, cut: nat)
    requires cut < |src|
    ensures src[..cut] + src[cut..] == src
    ensures src[cut..] == src[cut..|src| - 1] + [src[|src| - 1]]
    ensures src[..|src| - 1] == src[..cut] + src[cut..|src| - 1]
  {
  }

  lemma ReverseSnoc<T>(s: seq<T>, x: T)
    ensures Reverse(s + [x]) == [x] + Reverse(s)
  {
    assert (s + [x])[..|s|] == s;
  }

  /** Updating the same two stacks again overwrites the first updates. */
  lemma UpdateTwice(st: seq<seq<char>>, i: nat, j: nat, a: seq<char>, b: seq<char>, c: seq<char>, d: seq<char>)
    requires i < |st| && j < |st| && i != j
    ensures st[i := a][j := b][i := c][j := d] == st[i := c][j := d]
  {
  }

  /** Part one's reversed block is what a crane moving one crate at a time produces,
      for a move between two different stacks. */
  lemma {:induction false} ReversedIsOneAtATime(stacks: seq<seq<char>>, m: Move)
    requires m.from < |stacks| && m.to < |stacks| && m.from != m.to && m.times <= |stacks[m.from]|
    ensures ApplyMove(stacks, m, true) == ApplyAll(stacks, Singles(m.times, m.from, m.to), true)
    decreases m.times
  {
    if m.times == 0 {
      MoveNothing(stacks, m, true);
    } else {
      var src := stacks[m.from];
      var one := stacks[m.from := src[..|src| - 1]][m.to := stacks[m.to] + [src[|src| - 1]]];
      TopCrate(stacks, m);
      ReversedIsOneAtATime(one, Move(m.times - 1, m.from, m.to));
      RestOfBlock(stacks, m);
    }
  }

  /** The drawing and moves of the puzzle's example. */
  function SampleRows(): seq<Row> {
    [[None, Some('D'), None], [Some('N'), Some('C'), None], [Some('Z'), Some('M'), Some('P')]]
  }

  function SampleMoves(): seq<Move> {
    [Move(1, 1, 0), Move(3, 0, 2), Move(2, 1, 0), Move(1, 0, 1)]
  }

  /** The example's stacks, bottom crate first. */
  lemma SampleStacks()
    ensures Fits(SampleRows()) && Stacks(SampleRows()) == ["ZN", "MCD", "P"]
  {
    var rows := SampleRows();
    assert rows[2..][1..] == [];
    assert rows[1..][1..] == rows[2..];
    assert Column(rows[2..], 0) == "Z" && Column(rows[2..], 1) == "M" && Column(rows[2..], 2) == "P";
    assert Column(rows[1..], 0) == "ZN" && Column(rows[1..], 1) == "MC" && Column(rows[1..], 2) == "P";
    assert Column(rows, 0) == "ZN" && Column(rows, 1) == "MCD" && Column(rows, 2) == "P";
    var stacks := Stacks(rows);
    assert |stacks| == 3 && stacks[0] == "ZN" && stacks[1] == "MCD" && stacks[2] == "P";
  }

  lemma ApplyAllStep(stacks: seq<seq<char>>, moves: seq<Move>, reverse: bool, next: seq<seq<char>>)
    requires moves != [] && ApplyMove(stacks, moves[0], reverse) == Some(next)
    ensures ApplyAll(stacks, moves, reverse) == ApplyAll(next, moves[1..], reverse)
  {
  }

  /** The four moves of the example, one lemma each; the two cranes differ from the
      second move on. */
  lemma SampleMove1(reverse: bool)
    ensures ApplyMove(["ZN", "MCD", "P"], Move(1, 1, 0), reverse) == Some(["ZND", "MC", "P"])
  {
    assert "MCD" == "MC" + "D" && Reverse("D") == "D" && "ZN" + "D" == "ZND";
    MoveBetween(["ZN", "MCD", "P"], Move(1, 1, 0), reverse, "MC", "D");
    assert ["ZN", "MCD", "P"][1 := "MC"][0 := "ZND"] == ["ZND", "MC", "P"];
  }

  lemma SampleMove2(reverse: bool)
    ensures ApplyMove(["ZND", "MC", "P"], Move(3, 0, 2), reverse)
      == Some(["", "MC", if reverse then "PDNZ" else "PZND"])
  {
    assert "ZND" == "" + "ZND" && Reverse("ZND") == "DNZ" && "P" + "DNZ" == "PDNZ" && "P" + "ZND" == "PZND";
    MoveBetween(["ZND", "MC", "P"], Move(3, 0, 2), reverse, "", "ZND");
    assert ["ZND", "MC", "P"][0 := ""][2 := "PDNZ"] == ["", "MC", "PDNZ"];
    assert ["ZND", "MC", "P"][0 := ""][2 := "PZND"] == ["", "MC", "PZND"];
  }

  lemma SampleMove3(reverse: bool, third: seq<char>)
    ensures ApplyMove(["", "MC", third], Move(2, 1, 0), reverse)
      == Some([if reverse then "CM" else "MC", "", third])
  {
    assert "MC" == "" + "MC" && Reverse("MC") == "CM" && "" + "CM" == "CM" && "" + "MC" == "MC";
    MoveBetween(["", "MC", third], Move(2, 1, 0), reverse, "", "MC");
    assert ["", "MC", third][1 := ""][0 := "CM"] == ["CM", "", third];
    assert ["", "MC", third][1 := ""][0 := "MC"] == ["MC", "", third];
  }

  lemma SampleMove4(reverse: bool, third: seq<char>)
    ensures ApplyMove([if reverse then "CM" else "MC", "", third], Move(1, 0, 1), reverse)
      == Some([if reverse then "C" else "M", if reverse then "M" else "C", third])
  {
    var first := if reverse then "CM" else "MC";
    var bottom, top := if reverse then "C" else "M", if reverse then "M" else "C";
    assert first == bottom + top && Reverse(top) == top && "" + top == top;
    MoveBetween([first, "", third], Move(1, 0, 1), reverse, bottom, top);
    assert [first, "", third][0 := bottom][1 := top] == [bottom, top, third];
  }

  /** The example's answers: "CMZ" when the crane reverses the block, "MCD" when it
      keeps its order. */
  lemma SampleAnswers(reverse: bool)
    ensures ApplyAll(["ZN", "MCD", "P"], SampleMoves(), reverse)
      == Some(if reverse then ["C", "M", "PDNZ"] else ["M", "C", "PZND"])
  {
    var ms := SampleMoves();
    var third := if reverse then "PDNZ" else "PZND";
    var first := if reverse then "CM" else "MC";
    var last := if reverse then ["C", "M", "PDNZ"] else ["M", "C", "PZND"];
    assert ms[0] == Move(1, 1, 0) && ms[1..][0] == Move(3, 0, 2);
    assert ms[1..][1..][0] == Move(2, 1, 0) && ms[1..][1..][1..][0] == Move(1, 0, 1);
    assert ms[1..][1..][1..][1..] == [];
    SampleMove1(reverse);
    SampleMove2(reverse);
    SampleMove3(reverse, third);
    SampleMove4(reverse, third);
    calc {
      ApplyAll(["ZN", "MCD", "P"], ms, reverse);
    == { ApplyAllStep(["ZN", "MCD", "P"], ms, reverse, ["ZND", "MC", "P"]); }
      ApplyAll(["ZND", "MC", "P"], ms[1..], reverse);
    == { ApplyAllStep(["ZND", "MC", "P"], ms[1..], reverse, ["", "MC", third]); }
      ApplyAll(["", "MC", third], ms[1..][1..], reverse);
    == { ApplyAllStep(["", "MC", third], ms[1..][1..], reverse, [first, "", third]); }
      ApplyAll([first, "", third], ms[1..][1..][1..], reverse);
    == { ApplyAllStep([first, "", third], ms[1..][1..][1..], reverse, last); }
      ApplyAll(last, [], reverse);
    }
  }

  /** The top crates of the two final arrangements. */
  lemma SampleTops()
    ensures Tops(["C", "M", "PDNZ"]) == "CMZ" && Tops(["M", "C", "PZND"]) == "MCD"
  {
    TopsOfThree("C", "M", "PDNZ");
    TopsOfThree("M", "C", "PZND");
    assert "PDNZ"[3] == 'Z' && "PZND"[3] == 'D';
    assert "C"[0] == 'C' && "M"[0] == 'M';
    assert ['C', 'M', 'Z'] == "CMZ" && ['M', 'C', 'D'] == "MCD";
  }

  lemma TopsOfThree(a: seq<char>, b: seq<char>, c: seq<char>)
    requires a != [] && b != [] && c != []
    ensures Tops([a, b, c]) == [a[|a| - 1], b[|b| - 1], c[|c| - 1]]
  {
    assert Tops([c]) == [c[|c| - 1]] by {
      assert [c][1..] == [];
    }
    assert Tops([b, c]) == [b[|b| - 1]] + Tops([c]) by {
      assert [b, c][1..] == [c];
    }
    assert Tops([a, b, c]) == [a[|a| - 1]] + Tops([b, c]) by {
      assert [a, b, c][1..] == [b, c];
    }
  }
}
