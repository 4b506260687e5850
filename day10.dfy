/** Day 10: a CPU with one register X and two instructions. `noop` takes one cycle,
    `addx v` takes two and adds `v` to X only after both. The stream of X values,
    one per cycle, feeds the signal strength (part one) and a 40 x 6 CRT whose pixel
    is lit when the 3-wide sprite centred on X covers the column being drawn. */
module Day10 {
  import opened Wrappers

  datatype Instruction = NoOp | AddX(v: int)

  /** The X values during the cycles of one instruction, when X is `x` before it. */
  function Block(i: Instruction, x: int): seq<int> {
    match i
    case NoOp => [x]
    case AddX(_) => [x, x]
  }

  /** X after the instruction. */
  function After(i: Instruction, x: int): int {
    match i
    case NoOp => x
    case AddX(v) => x + v
  }

  /** The X value during every cycle, starting from X = `x` (the `flat_map` with
      the captured `x`, or the `scan` of part two). */
  function Stream(instrs: seq<Instruction>, x: int): seq<int> {
    if instrs == [] then [] else Block(instrs[0], x) + Stream(instrs[1..], After(instrs[0], x))
  }

  /** X after all the instructions. */
  function Final(instrs: seq<Instruction>, x: int): int {
    if instrs == [] then x else Final(instrs[1..], After(instrs[0], x))
  }

  /** The number of cycles the instructions take. */
  function Cycles(instrs: seq<Instruction>): nat {
    if instrs == [] then 0 else |Block(instrs[0], 0)| + Cycles(instrs[1..])
  }

  /** One entry per cycle: one per `noop`, two per `addx`. */
  lemma {:induction false} StreamLength(instrs: seq<Instruction>, x: int)
    ensures |Stream(instrs, x)| == Cycles(instrs)
  {
    if instrs != [] {
      StreamLength(instrs[1..], After(instrs[0], x));
    }
  }

  /** Running the two halves of a program one after the other. */
  lemma {:induction false} StreamSplit(a: seq<Instruction>, b: seq<Instruction>, x: int)
    ensures Stream(a + b, x) == Stream(a, x) + Stream(b, Final(a, x))
    ensures Final(a + b, x) == Final(b, Final(a, x))
  {
    if a != [] {
      assert (a + b)[0] == a[0] && (a + b)[1..] == a[1..] + b;
      StreamSplit(a[1..], b, After(a[0], x));
    } else {
      assert a + b == b;
    }
  }

  /** The `k`-th instruction starts at cycle `Cycles(instrs[..k])`; X keeps the value
      left by the instructions before it for all its cycles, and becomes `x + v` for
      an `addx v` only from the next instruction on. */
  lemma StreamAt(instrs: seq<Instruction>, x: int, k: nat)
    requires k < |instrs|
    ensures var start, w := Cycles(instrs[..k]), Final(instrs[..k], x);
      start + |Block(instrs[k], w)| <= |Stream(instrs, x)| &&
      (forall c :: start <= c < start + |Block(instrs[k], w)| ==> Stream(instrs, x)[c] == w) &&
      Final(instrs[..k + 1], x) == After(instrs[k], w)
  {
    var w := Final(instrs[..k], x);
    assert instrs == instrs[..k] + instrs[k..];
    StreamSplit(instrs[..k], instrs[k..], x);
    StreamLength(instrs[..k], x);
    assert instrs[..k + 1] == instrs[..k] + [instrs[k]];
    StreamSplit(instrs[..k], [instrs[k]], x);
    assert instrs[k..][0] == instrs[k];
  }

  lemma StreamNext(instrs: seq<Instruction>, i: nat, x: int)
    requires i < |instrs|
    ensures Stream(instrs[i..], x) == Block(instrs[i], x) + Stream(instrs[i + 1..], After(instrs[i], x))
  {
    assert instrs[i..][1..] == instrs[i + 1..];
  }

  lemma Regroup(a: seq<int>, b: seq<int>, c: seq<int>)
    ensures a + (b + c) == (a + b) + c
  {
  }

  /** The cycle stream of both parts: X starts at 1 and is changed in place. */
  method XValues(instrs: seq<Instruction>) returns (xs: seq<int>)
    ensures xs == Stream(instrs, 1)
  {
    var x := 1;
    xs := [];
    var i := 0;
    while i < |instrs|
      invariant 0 <= i <= |instrs|
      invariant xs + Stream(instrs[i..], x) == Stream(instrs, 1)
    {
      StreamNext(instrs, i, x);
      ghost var before, x0 := xs, x;
      match instrs[i] {
        case NoOp =>
          xs := xs + [x];
        case AddX(v) =>
          x := x + v;
          xs := xs + [x - v, x - v];
      }
      assert xs == before + Block(instrs[i], x0);
      Regroup(before, Block(instrs[i], x0), Stream(instrs[i + 1..], x));
      i := i + 1;
    }
  }

  /** The signal strengths `(cycle + 1) * X` at the 0-based cycles 19, 59, ..., 219
      that the stream reaches (`skip(19).step_by(40).take(6)`), summed from the
      `k`-th on. */
  function SignalFrom(xs: seq<int>, k: nat): int
    decreases 6 - k
  {
    if k >= 6 || 19 + 40 * k >= |xs| then 0
    else (20 + 40 * k) * xs[19 + 40 * k] + SignalFrom(xs, k + 1)
  }

  /** The sum of the six signal strengths; samples past the end of the stream
      are dropped. */
  function Signal(xs: seq<int>): (r: int)
    ensures |xs| >= 220 ==>
      r == 20 * xs[19] + 60 * xs[59] + 100 * xs[99] + 140 * xs[139] + 180 * xs[179] + 220 * xs[219]
    ensures |xs| < 20 ==> r == 0
  {
    SignalFrom(xs, 0)
  }

  /** `procces_part_one`. */
  method ProcessOne(instrs: seq<Instruction>) returns (r: int)
    ensures r == Signal(Stream(instrs, 1))
  {
    var xs := XValues(instrs);
    r := Signal(xs);
  }

  /** The sprite covers column `c mod 40` of the row being drawn. */
  predicate Lit(cycle: nat, x: int) {
    -1 <= cycle % 40 - x <= 1
  }

  /** The source's test: the sprite moved to the current row, `x + 40 * (cycle / 40)`,
      is within one of the cycle. */
  predicate SpriteHit(cycle: nat, x: int) {
    var sprite := x + 40 * (cycle / 40);
    cycle >= sprite - 1 && cycle <= sprite + 1
  }

  lemma SpriteHitIsLit(cycle: nat, x: int)
    ensures SpriteHit(cycle, x) <==> Lit(cycle, x)
  {
    assert cycle == 40 * (cycle / 40) + cycle % 40;
  }

  /** The picture cell for a cycle. */
  function Pixel(xs: seq<int>, c: int): char {
    if 0 <= c < |xs| && Lit(c, xs[c]) then '#' else '.'
  }

  /** The CRT fold over the stream into 240 cells. `None` where the source panics:
      a lit pixel at cycle 240 or later writes outside the array. */
  method Crt(xs: seq<int>) returns (r: Option<seq<char>>)
    ensures r.None? <==> exists c :: 240 <= c < |xs| && Lit(c, xs[c])
    ensures r.Some? ==> |r.value| == 240 && forall c :: 0 <= c < 240 ==> r.value[c] == Pixel(xs, c)
  {
    var crt := new char[240](_ => '.');
    var cycle := 0;
    while cycle < |xs|
      invariant 0 <= cycle <= |xs|
      invariant forall c :: 0 <= c < 240 ==> crt[c] == Pixel(xs[..cycle], c)
      invariant forall c :: 240 <= c < cycle ==> !Lit(c, xs[c])
    {
      var x := xs[cycle];
      var sprite := x + 40 * (cycle / 40);
      SpriteHitIsLit(cycle, x);
      if cycle >= sprite - 1 && cycle <= sprite + 1 {
        if cycle >= 240 {
          return None;
        }
        crt[cycle] := '#';
      }
      cycle := cycle + 1;
    }
    assert xs[..cycle] == xs;
    r := Some(crt[..]);
  }

  /** Row `i` of the cells. */
  function PixelRow(pixels: seq<char>, i: nat): seq<char>
    requires 40 * i + 40 <= |pixels|
  {
    pixels[40 * i..40 * i + 40]
  }

  /** Line `i` of the rendered screen, line break included. */
  function ScreenLine(screen: seq<char>, i: nat): seq<char>
    requires 41 * i + 41 <= |screen|
  {
    screen[41 * i..41 * i + 41]
  }

  /** The cells cut into rows of 40 (`chunks_exact(40)`), each copied into a line of
      41 that ends in a line break. */
  function Picture(pixels: seq<char>): (r: seq<char>)
    requires |pixels| % 40 == 0
    ensures |r| == |pixels| / 40 * 41
    ensures forall i :: 0 <= i < |pixels| / 40 ==> ScreenLine(r, i) == PixelRow(pixels, i) + ['\n']
  {
    if pixels == [] then []
    else
      var rest := Picture(pixels[40..]);
      var r := pixels[..40] + ['\n'] + rest;
      forall i | 0 <= i < |pixels| / 40 ensures ScreenLine(r, i) == PixelRow(pixels, i) + ['\n'] {
        if i > 0 {
          assert ScreenLine(r, i) == ScreenLine(rest, i - 1);
          assert PixelRow(pixels, i) == PixelRow(pixels[40..], i - 1);
        }
      }
      r
  }

  /** `procces_part_two`: the rendered screen, six lines of 40 pixels each. */
  method ProcessTwo(instrs: seq<Instruction>) returns (r: Option<seq<char>>)
    ensures r.None? <==> exists c :: 240 <= c < |Stream(instrs, 1)| && Lit(c, Stream(instrs, 1)[c])
    ensures r.Some? ==> r.value == Picture(seq(240, c => Pixel(Stream(instrs, 1), c)))
  {
    var xs := XValues(instrs);
    var crt := Crt(xs);
    if crt.None? {
      return None;
    }
    assert crt.value == seq(240, c => Pixel(xs, c));
    r := Some(Picture(crt.value));
  }
}
