/** Day 8: a forest of tree heights laid out row by row in one flat sequence of
    digit characters, `width` trees per row. A tree is visible from outside when
    all trees between it and some edge are shorter; its scenic score multiplies how
    far it can see in the four directions. */
module Day8 {
  import opened Wrappers
  import opened Arith

  /** `n` trees make whole rows of `width`. */
  predicate WholeRows(n: nat, width: nat)
    decreases n
  {
    width > 0 && (n == 0 || (n >= width && WholeRows(n - width, width)))
  }

  /** The grid is rectangular: whole rows of `width` trees. */
  predicate Grid(v: seq<char>, width: nat) {
    WholeRows(|v|, width)
  }

  lemma {:induction false} WholeRowsIsMultiple(n: nat, width: nat)
    requires width > 0
    ensures WholeRows(n, width) <==> n % width == 0
    decreases n
  {
    if n >= width {
      WholeRowsIsMultiple(n - width, width);
      var q, t := (n - width) / width, (n - width) % width;
      assert n == (q + 1) * width + t;
      DivModUnique(n, width, q + 1, t);
    } else {
      DivModUnique(n, width, 0, n);
    }
  }

  // Sequence helpers standing for the iterator adaptors.

  function Reverse<T>(s: seq<T>): (r: seq<T>)
    ensures |r| == |s| && forall i :: 0 <= i < |s| ==> r[i] == s[|s| - 1 - i]
  {
    seq(|s|, i requires 0 <= i < |s| => s[|s| - 1 - i])
  }

  /** `step_by(k)`: the first element, then every `k`-th after it. */
  function StepBy<T>(s: seq<T>, k: nat): seq<T>
    requires k > 0
    decreases |s|
  {
    if s == [] then [] else [s[0]] + (if |s| <= k then [] else StepBy(s[k..], k))
  }

  /** `any(|tree| tree >= c)` over `s`. */
  predicate AnyAtLeast(s: seq<char>, c: char) {
    exists k :: 0 <= k < |s| && s[k] >= c
  }

  // The source's row bounds and its four visibility tests.

  /** The first index of the row of `idx`. */
  function RowStart(idx: nat, len: nat): (r: nat)
    requires len > 0
    ensures r <= idx < r + len
    decreases idx
  {
    if idx < len then 0 else RowStart(idx - len, len) + len
  }

  /** The source's bounds are `idx / len * len` and `(idx / len + 1) * len - 1`. */
  lemma {:induction false} RowStartIsDiv(idx: nat, len: nat)
    requires len > 0
    ensures RowStart(idx, len) == idx / len * len
    ensures RowStart(idx, len) + len - 1 == (idx / len + 1) * len - 1
    decreases idx
  {
    var k := idx / len;
    if idx >= len {
      RowStartIsDiv(idx - len, len);
      var q, t := (idx - len) / len, (idx - len) % len;
      assert idx - len == q * len + t;
      MulSucc(q, len);
      DivModUnique(idx, len, q + 1, t);
      assert k == q + 1;
      assert RowStart(idx, len) == q * len + len;
    } else {
      DivModUnique(idx, len, 0, idx);
    }
    MulSucc(k, len);
  }

  function LeftBound(idx: nat, len: nat): nat
    requires len > 0
  {
    RowStart(idx, len)
  }

  function RightBound(idx: nat, len: nat): nat
    requires len > 0
  {
    RowStart(idx, len) + len - 1
  }

  /** The row of `idx` fits inside whole rows. */
  lemma {:induction false} RowFits(idx: nat, len: nat, n: nat)
    requires WholeRows(n, len) && idx < n
    ensures RowStart(idx, len) + len <= n
    decreases idx
  {
    if idx >= len {
      RowFits(idx - len, len, n - len);
    }
  }

  /** The row of `idx` runs from `LeftBound` to `RightBound`, inside the grid. */
  lemma Bounds(v: seq<char>, len: nat, idx: nat)
    requires Grid(v, len) && idx < |v|
    ensures LeftBound(idx, len) <= idx <= RightBound(idx, len) < |v|
  {
    RowFits(idx, len, |v|);
  }

  /** `traverse`: visible to the right, to the left, from above or from below. */
  predicate Traverse(v: seq<char>, len: nat, idx: nat)
    requires Grid(v, len) && idx < |v|
  {
    Bounds(v, len, idx);
    var c := v[idx];
    !AnyAtLeast(v[idx..RightBound(idx, len) + 1][1..], c) ||
    !AnyAtLeast(Reverse(v[LeftBound(idx, len)..idx]), c) ||
    !AnyAtLeast(StepBy(Reverse(v[..idx + 1]), len)[1..], c) ||
    !AnyAtLeast(StepBy(v[idx..], len)[1..], c)
  }

  // The four lines of sight, nearest tree first.

  function RightLine(v: seq<char>, len: nat, idx: nat): seq<char>
    requires Grid(v, len) && idx < |v|
  {
    Bounds(v, len, idx);
    v[idx + 1..RightBound(idx, len) + 1]
  }

  function LeftLine(v: seq<char>, len: nat, idx: nat): seq<char>
    requires Grid(v, len) && idx < |v|
  {
    Bounds(v, len, idx);
    Reverse(v[LeftBound(idx, len)..idx])
  }

  /** The trees straight above, going up one row at a time. */
  function UpLine(v: seq<char>, len: nat, idx: nat): seq<char>
    requires len > 0 && idx < |v|
    decreases idx
  {
    if idx >= len then [v[idx - len]] + UpLine(v, len, idx - len) else []
  }

  /** The trees straight below, going down one row at a time. */
  function DownLine(v: seq<char>, len: nat, idx: nat): seq<char>
    requires len > 0 && idx < |v|
    decreases |v| - idx
  {
    if idx + len < |v| then [v[idx + len]] + DownLine(v, len, idx + len) else []
  }

  lemma {:induction false} DownStep(v: seq<char>, len: nat, idx: nat)
    requires len > 0 && idx < |v|
    ensures StepBy(v[idx..], len) == [v[idx]] + DownLine(v, len, idx)
    decreases |v| - idx
  {
    if idx + len < |v| {
      var below := v[idx + len..];
      StepByDrop(v, len, idx);
      DownStep(v, len, idx + len);
      var down := DownLine(v, len, idx + len);
      assert StepBy(below, len) == [v[idx + len]] + down;
      assert DownLine(v, len, idx) == [v[idx + len]] + down;
    } else {
      assert StepBy(v[idx..], len) == [v[idx]];
    }
  }

  /** A stride from `idx` takes `v[idx]` and goes on from `idx + len`. */
  lemma StepByDrop(v: seq<char>, len: nat, idx: nat)
    requires len > 0 && idx + len < |v|
    ensures StepBy(v[idx..], len) == [v[idx]] + StepBy(v[idx + len..], len)
  {
    assert v[idx..][len..] == v[idx + len..];
  }

  /** Dropping `k` from the reversed prefix of length `m` leaves the reversed prefix
      of length `m - k`. */
  lemma ReverseDrop<T>(s: seq<T>, m: nat, k: nat)
    requires k <= m <= |s|
    ensures Reverse(s[..m])[k..] == Reverse(s[..m - k])
  {
  }

  lemma {:induction false} UpStep(v: seq<char>, len: nat, idx: nat)
    requires len > 0 && idx < |v|
    ensures StepBy(Reverse(v[..idx + 1]), len) == [v[idx]] + UpLine(v, len, idx)
    decreases idx
  {
    var r := Reverse(v[..idx + 1]);
    assert |r| == idx + 1 && r[0] == v[idx];
    if idx >= len {
      var tail := r[len..];
      assert StepBy(r, len) == [v[idx]] + StepBy(tail, len);
      var n := idx - len;
      ReverseDrop(v, idx + 1, len);
      assert idx + 1 - len == n + 1;
      var above := Reverse(v[..n + 1]);
      assert tail == above;
      UpStep(v, len, n);
      var up := UpLine(v, len, n);
      assert StepBy(above, len) == [v[n]] + up;
      assert UpLine(v, len, idx) == [v[n]] + up;
    } else {
      assert StepBy(r, len) == [r[0]];
    }
  }

  /** Every tree of the line is shorter than `c`. */
  predicate AllBelow(line: seq<char>, c: char) {
    forall k :: 0 <= k < |line| ==> line[k] < c
  }

  /** A tree is visible iff, in at least one of the four directions, every tree up to
      the edge is strictly shorter. */
  predicate Visible(v: seq<char>, len: nat, idx: nat)
    requires Grid(v, len) && idx < |v|
  {
    var c := v[idx];
    AllBelow(RightLine(v, len, idx), c) || AllBelow(LeftLine(v, len, idx), c) ||
    AllBelow(UpLine(v, len, idx), c) || AllBelow(DownLine(v, len, idx), c)
  }

  /** The source's slices and strides walk exactly the four lines of sight. */
  lemma TraverseIsVisible(v: seq<char>, len: nat, idx: nat)
    requires Grid(v, len) && idx < |v|
    ensures Traverse(v, len, idx) <==> Visible(v, len, idx)
  {
    Bounds(v, len, idx);
    UpStep(v, len, idx);
    DownStep(v, len, idx);
    assert v[idx..RightBound(idx, len) + 1][1..] == RightLine(v, len, idx);
  }

  /** The tree starts or ends its row, or stands in the first or the last row. */
  predicate OnEdge(v: seq<char>, len: nat, idx: nat)
    requires len > 0
  {
    idx == LeftBound(idx, len) || idx == RightBound(idx, len) || idx < len || idx + len >= |v|
  }

  /** Trees on the edge of the grid are always visible: the line toward that edge is
      empty. */
  lemma EdgeVisible(v: seq<char>, len: nat, idx: nat)
    requires Grid(v, len) && idx < |v|
    requires OnEdge(v, len, idx)
    ensures Traverse(v, len, idx)
  {
    TraverseIsVisible(v, len, idx);
    Bounds(v, len, idx);
    if idx == LeftBound(idx, len) {
      assert LeftLine(v, len, idx) == [];
    } else if idx == RightBound(idx, len) {
      assert RightLine(v, len, idx) == [];
    }
  }

  // Viewing distances.

  /** `take_while(|tree| tree < c).count()`. */
  function ShorterRun(line: seq<char>, c: char): (n: nat)
    ensures n <= |line|
    ensures forall k :: 0 <= k < n ==> line[k] < c
    ensures n < |line| ==> line[n] >= c
  {
    if line == [] || line[0] >= c then 0 else 1 + ShorterRun(line[1..], c)
  }

  /** The trees seen along a line: the run of shorter trees, plus the blocking tree
      when there is one (`skip(count).next()` is not `None`). */
  function ViewDistance(line: seq<char>, c: char): (d: nat)
    ensures d <= |line| && (d == 0 <==> line == [])
    ensures forall k :: 0 <= k < d - 1 ==> line[k] < c
    ensures d < |line| ==> line[d - 1] >= c
    ensures AllBelow(line, c) ==> d == |line|
  {
    var n := ShorterRun(line, c);
    if n == |line| then n else n + 1
  }

  function Product(right: nat, left: nat, up: nat, down: nat): nat {
    right * left * up * down
  }

  lemma ProductZero(right: nat, left: nat, up: nat, down: nat)
    requires right == 0 || left == 0 || up == 0 || down == 0
    ensures Product(right, left, up, down) == 0
  {
    if right == 0 {
    } else if left == 0 {
      assert right * left == 0;
    } else if up == 0 {
      assert right * left * up == 0;
    }
  }

  /** `traverse2`: computed on the source's slices and strides, the scenic score
      is the product of the viewing distances along the four lines of sight. */
  function Traverse2(v: seq<char>, len: nat, idx: nat): (r: nat)
    requires Grid(v, len) && idx < |v|
    ensures r == Product(ViewDistance(RightLine(v, len, idx), v[idx]), ViewDistance(LeftLine(v, len, idx), v[idx]),
                         ViewDistance(UpLine(v, len, idx), v[idx]), ViewDistance(DownLine(v, len, idx), v[idx]))
  {
    Bounds(v, len, idx);
    UpStep(v, len, idx);
    DownStep(v, len, idx);
    assert v[idx..RightBound(idx, len) + 1][1..] == RightLine(v, len, idx);
    assert StepBy(Reverse(v[..idx + 1]), len)[1..] == UpLine(v, len, idx);
    assert StepBy(v[idx..], len)[1..] == DownLine(v, len, idx);
    var c := v[idx];
    Product(ViewDistance(v[idx..RightBound(idx, len) + 1][1..], c),
            ViewDistance(Reverse(v[LeftBound(idx, len)..idx]), c),
            ViewDistance(StepBy(Reverse(v[..idx + 1]), len)[1..], c),
            ViewDistance(StepBy(v[idx..], len)[1..], c))
  }

  /** A tree on the edge scores 0: it sees nothing toward that edge. */
  lemma EdgeScoresZero(v: seq<char>, len: nat, idx: nat)
    requires Grid(v, len) && idx < |v| && OnEdge(v, len, idx)
    ensures Traverse2(v, len, idx) == 0
  {
    Bounds(v, len, idx);
    var c := v[idx];
    if idx == LeftBound(idx, len) {
      assert LeftLine(v, len, idx) == [];
    } else if idx == RightBound(idx, len) {
      assert RightLine(v, len, idx) == [];
    }
    ProductZero(ViewDistance(RightLine(v, len, idx), c), ViewDistance(LeftLine(v, len, idx), c),
                ViewDistance(UpLine(v, len, idx), c), ViewDistance(DownLine(v, len, idx), c));
  }

  // The two parts.

  /** The number of `true` flags (`filter(..).count()`). */
  function CountTrue(flags: seq<bool>): (r: nat)
    ensures r <= |flags|
  {
    if flags == [] then 0
    else CountTrue(flags[..|flags| - 1]) + (if flags[|flags| - 1] then 1 else 0)
  }

  /** The positions of the `true` flags. */
  function TrueAt(flags: seq<bool>): set<nat> {
    set i: nat | i < |flags| && flags[i]
  }

  lemma {:induction false} CountTrueIsSetSize(flags: seq<bool>)
    ensures CountTrue(flags) == |TrueAt(flags)|
  {
    if flags != [] {
      var init := flags[..|flags| - 1];
      CountTrueIsSetSize(init);
      var last := |flags| - 1;
      if flags[last] {
        assert TrueAt(flags) == TrueAt(init) + {last};
        assert |TrueAt(init) + {last}| == |TrueAt(init)| + 1;
      } else {
        assert TrueAt(flags) == TrueAt(init);
      }
    }
  }

  /** `process_one`: the number of trees `traverse` accepts. */
  function ProcessOne(v: seq<char>, len: nat): (r: nat)
    requires Grid(v, len)
    ensures r <= |v|
  {
    CountTrue(seq(|v|, i requires 0 <= i < |v| => Traverse(v, len, i)))
  }

  /** The trees visible from outside the grid. */
  function VisibleTrees(v: seq<char>, len: nat): set<nat>
    requires Grid(v, len)
  {
    set i: nat | i < |v| && Visible(v, len, i)
  }

  /** `process_one` counts exactly the trees visible from outside the grid. */
  lemma ProcessOneCountsVisible(v: seq<char>, len: nat)
    requires Grid(v, len)
    ensures ProcessOne(v, len) == |VisibleTrees(v, len)|
  {
    var flags := seq(|v|, i requires 0 <= i < |v| => Traverse(v, len, i));
    CountTrueIsSetSize(flags);
    forall i | 0 <= i < |v| ensures flags[i] <==> Visible(v, len, i) {
      TraverseIsVisible(v, len, i);
    }
    assert TrueAt(flags) == VisibleTrees(v, len);
  }

  /** The largest of the scores; `None` for none, where `max().unwrap()` panics. */
  function MaxOf(scores: seq<nat>): (r: Option<nat>)
    ensures r.None? <==> scores == []
    ensures r.Some? ==> (exists i :: 0 <= i < |scores| && scores[i] == r.value) &&
                        forall i :: 0 <= i < |scores| ==> scores[i] <= r.value
  {
    if scores == [] then None
    else
      var last := scores[|scores| - 1];
      match MaxOf(scores[..|scores| - 1])
      case None => Some(last)
      case Some(m) => Some(if last > m then last else m)
  }

  /** `process_two`: the best scenic score of the grid. */
  function MaxScore(v: seq<char>, len: nat): (r: Option<nat>)
    requires Grid(v, len)
    ensures r.None? <==> v == []
    ensures r.Some? ==> (exists i :: 0 <= i < |v| && Traverse2(v, len, i) == r.value) &&
                        forall i :: 0 <= i < |v| ==> Traverse2(v, len, i) <= r.value
  {
    var scores := seq(|v|, i requires 0 <= i < |v| => Traverse2(v, len, i));
    assert forall i :: 0 <= i < |v| ==> scores[i] == Traverse2(v, len, i);
    MaxOf(scores)
  }

  // Reading the input.

  /** `char::is_ascii_whitespace`: space, tab, line feed, form feed, carriage return. */
  predicate IsAsciiWhitespace(c: char) {
    c == ' ' || c == '\t' || c == '\n' || c == '\U{C}' || c == '\r'
  }

  /** The width of the grid: the characters before the first whitespace. */
  function Width(input: seq<char>): (w: nat)
    ensures w <= |input|
    ensures forall k :: 0 <= k < w ==> !IsAsciiWhitespace(input[k])
    ensures w < |input| ==> IsAsciiWhitespace(input[w])
  {
    if input == [] || IsAsciiWhitespace(input[0]) then 0 else 1 + Width(input[1..])
  }

  /** The digits of the input in order; line breaks and anything else are dropped. */
  function Digits(input: seq<char>): (r: seq<char>)
    ensures forall k :: 0 <= k < |r| ==> '0' <= r[k] <= '9'
    ensures |r| <= |input|
  {
    if input == [] then []
    else (if '0' <= input[0] <= '9' then [input[0]] else []) + Digits(input[1..])
  }

  /** Part one on the raw input. `None` where the source panics: a width of 0
      divides by zero, and a last row shorter than the width is sliced past the end
      of the digits. */
  function SolveOne(input: seq<char>): (r: Option<nat>)
    ensures var v, w := Digits(input), Width(input);
      (r.None? <==> v != [] && !Grid(v, w)) &&
      (r.Some? && v != [] ==> r.value == |VisibleTrees(v, w)|) &&
      (v == [] ==> r == Some(0))
  {
    var v, w := Digits(input), Width(input);
    if v == [] then Some(0)
    else if Grid(v, w) then
      ProcessOneCountsVisible(v, w);
      Some(ProcessOne(v, w))
    else None
  }

  /** Part two on the raw input: the best scenic score; `None` where the source
      panics, including an input without trees. */
  function SolveTwo(input: seq<char>): (r: Option<nat>)
    ensures var v, w := Digits(input), Width(input);
      (r.None? <==> v == [] || !Grid(v, w)) &&
      (r.Some? ==> Grid(v, w) && (exists i :: 0 <= i < |v| && Traverse2(v, w, i) == r.value) &&
                   forall i :: 0 <= i < |v| ==> Traverse2(v, w, i) <= r.value)
  {
    var v, w := Digits(input), Width(input);
    if Grid(v, w) then MaxScore(v, w) else None
  }
}
