/** Day 25: SNAFU numbers, written in base five with the digits `=` (-2), `-` (-1),
    `0`, `1` and `2`. Part one decodes every line, adds the values and encodes the
    sum again. */
module Day25 {
  import opened Wrappers
  import Arith

  /** The value of one SNAFU digit; `None` for any other character (the `panic!` of
      line 13). */
  function DigitValue(c: char): Option<int> {
    match c
    case '=' => Some(-2)
    case '-' => Some(-1)
    case '0' => Some(0)
    case '1' => Some(1)
    case '2' => Some(2)
    case _ => None
  }

  predicate IsSnafu(s: string) {
    forall k :: 0 <= k < |s| ==> DigitValue(s[k]).Some?
  }

  function Pow5(i: nat): nat {
    if i == 0 then 1 else 5 * Pow5(i - 1)
  }

  /** `chars().rev()`. */
  function Reverse<T>(s: seq<T>): (r: seq<T>)
    ensures |r| == |s|
  {
    if s == [] then [] else [s[|s| - 1]] + Reverse(s[..|s| - 1])
  }

  lemma {:induction false} ReverseAt<T>(s: seq<T>, k: nat)
    requires k < |s|
    ensures |Reverse(s)| == |s| && Reverse(s)[k] == s[|s| - 1 - k]
  {
    if k > 0 {
      ReverseAt(s[..|s| - 1], k - 1);
    } else if |s| > 1 {
      ReverseAt(s[..|s| - 1], 0);
    }
  }

  /** The fold of lines 5-15: the `i`-th character from the right adds its digit
      value times 5^i. */
  function FoldDigits(rev: seq<char>, i: nat, acc: int): Option<int>
    decreases |rev|
  {
    if rev == [] then Some(acc)
    else
      match DigitValue(rev[0])
      case None => None
      case Some(d) => FoldDigits(rev[1..], i + 1, acc + d * Pow5(i))
  }

  /** One line of `sum`: the numeral's value, read most significant digit first,
      and `None` exactly on a line holding a character that is not a SNAFU digit. */
  function DecodeLine(line: string): (r: Option<int>)
    ensures r == if IsSnafu(line) then Some(Value(line)) else None
  {
    if IsSnafu(line) then
      FoldDigitsValue(line, 0, 0);
      FoldDigits(Reverse(line), 0, 0)
    else
      ReverseAll(line);
      FoldDigitsFails(Reverse(line), 0, 0);
      FoldDigits(Reverse(line), 0, 0)
  }

  /** An independent reading of a SNAFU numeral, most significant digit first. */
  function Value(s: string): int
    requires IsSnafu(s)
  {
    if s == [] then 0 else 5 * Value(s[..|s| - 1]) + DigitValue(s[|s| - 1]).value
  }

  lemma {:induction false} FoldDigitsValue(s: string, i: nat, acc: int)
    requires IsSnafu(s)
    ensures FoldDigits(Reverse(s), i, acc) == Some(acc + Pow5(i) * Value(s))
  {
    if s != [] {
      var init, d := s[..|s| - 1], DigitValue(s[|s| - 1]).value;
      assert IsSnafu(init);
      assert Reverse(s)[0] == s[|s| - 1] && Reverse(s)[1..] == Reverse(init);
      FoldDigitsValue(init, i + 1, acc + d * Pow5(i));
      ShiftDigit(acc, d, Pow5(i), Value(init));
    }
  }

  lemma ShiftDigit(acc: int, d: int, p: int, v: int)
    ensures acc + d * p + 5 * p * v == acc + p * (5 * v + d)
  {
  }

  lemma {:induction false} FoldDigitsFails(rev: seq<char>, i: nat, acc: int)
    ensures FoldDigits(rev, i, acc).None? <==> exists k :: 0 <= k < |rev| && DigitValue(rev[k]).None?
  {
    if rev != [] {
      FoldDigitsFails(rev[1..], i + 1, acc + (if DigitValue(rev[0]).Some? then DigitValue(rev[0]).value else 0) * Pow5(i));
      if exists k :: 0 <= k < |rev[1..]| && DigitValue(rev[1..][k]).None? {
        var k :| 0 <= k < |rev[1..]| && DigitValue(rev[1..][k]).None?;
        assert rev[k + 1] == rev[1..][k];
      }
      if exists k :: 0 <= k < |rev| && DigitValue(rev[k]).None? {
        var k :| 0 <= k < |rev| && DigitValue(rev[k]).None?;
        if k > 0 { assert rev[1..][k - 1] == rev[k]; }
      }
    }
  }

  /** Every character of `s` reappears in its reversal, mirrored. */
  lemma ReverseAll<T>(s: seq<T>)
    ensures forall k :: 0 <= k < |s| ==> s[k] == Reverse(s)[|s| - 1 - k]
  {
    forall k | 0 <= k < |s| ensures s[k] == Reverse(s)[|s| - 1 - k] {
      var j := |s| - 1 - k;
      ReverseAt(s, j);
      assert |s| - 1 - j == k;
    }
  }

  /** `sum`: the total of all lines, `None` if any line panics. */
  function Sum(lines: seq<string>): (r: Option<int>)
    ensures r.Some? <==> forall i :: 0 <= i < |lines| ==> DecodeLine(lines[i]).Some?
  {
    if lines == [] then Some(0)
    else
      match (Sum(lines[..|lines| - 1]), DecodeLine(lines[|lines| - 1]))
      case (Some(a), Some(b)) => Some(a + b)
      case _ => None
  }

  // Encoding. Rust's `%` and `/` on `i64` truncate toward zero.

  function RustRem(a: int, b: int): int
    requires b > 0
  {
    if a >= 0 then a % b else -((-a) % b)
  }

  function RustDiv(a: int, b: int): int
    requires b > 0
  {
    if a >= 0 then a / b else -((-a) / b)
  }

  function DigitChar(d: int): char
    requires -2 <= d <= 2
  {
    if d == -2 then '=' else if d == -1 then '-' else if d == 0 then '0' else if d == 1 then '1' else '2'
  }

  /** The canonical SNAFU numeral of `n`: the lowest digit is `n` modulo 5 shifted
      into -2..2, the rest encodes what remains divided by five. Zero is the empty
      numeral (the loop of `snafu_output` does not run). */
  function Encode(n: nat): (r: string)
    ensures IsSnafu(r) && Value(r) == n
    ensures n > 0 ==> r[0] in {'1', '2'}
    decreases n
  {
    if n == 0 then []
    else
      var rem := n % 5;
      var d := if rem <= 2 then rem else rem - 5;
      var m := Encode(Carry(n));
      LowDigit(n);
      SnocValue(m, DigitChar(d));
      assert Carry(n) > 0 ==> (m + [DigitChar(d)])[0] == m[0];
      m + [DigitChar(d)]
  }

  /** What remains to encode after the lowest digit: the number less that digit,
      divided by five. */
  function Carry(n: nat): (r: nat)
    ensures n > 0 ==> r < n
    ensures n % 5 <= 2 ==> n == 5 * r + n % 5
    ensures n % 5 > 2 ==> n == 5 * r + n % 5 - 5
  {
    if n % 5 <= 2 then n / 5 else n / 5 + 1
  }

  /** `snafu_output`: emits the digits lowest first and reverses them at the end. A
      negative number panics: Rust's remainder is then negative and reaches the
      `_ => panic!()` arm. */
  method SnafuOutput(num: int) returns (r: Option<string>)
    ensures r.Some? <==> num >= 0
    ensures num >= 0 ==> r == Some(Encode(num))
  {
    var n := num;
    var emitted: string := [];
    while n != 0
      invariant num >= 0 ==> n >= 0 && Encode(num) == Encode(n) + Reverse(emitted)
      invariant num < 0 ==> n < 0
      decreases if n >= 0 then n else -n
    {
      var next, c := Emit(n);
      if c.None? {
        return None;
      }
      if num >= 0 {
        EmitKeeps(Encode(num), Encode(n), Encode(next), c.value, emitted);
      }
      n := next;
      emitted := emitted + [c.value];
    }
    assert num >= 0 ==> Encode(n) == [] && Encode(num) == Reverse(emitted);
    r := Some(Reverse(emitted));
  }

  /** A digit emitted moves from the numeral still to encode to the digits
      emitted so far, which are reversed at the end. */
  lemma EmitKeeps(total: string, head: string, rest: string, c: char, emitted: string)
    requires total == head + Reverse(emitted) && head == rest + [c]
    ensures total == rest + Reverse(emitted + [c])
  {
    var e := emitted + [c];
    assert e[..|e| - 1] == emitted;
    assert Reverse(e) == [c] + Reverse(emitted);
    assert head + Reverse(emitted) == rest + ([c] + Reverse(emitted));
  }

  /** One turn of the loop in `snafu_output`: the digit for the Rust remainder of
      `n` by five, and what is left to encode; `None` for a negative remainder. */
  method Emit(n: int) returns (next: int, c: Option<char>)
    requires n != 0
    ensures n > 0 ==> c.Some? && next == Carry(n) && Encode(n) == Encode(next) + [c.value]
    ensures n < 0 && c.Some? ==> n < next < 0
  {
    var rem := RustRem(n, 5);
    if rem == 0 {
      next := RustDiv(n, 5);
      c := Some('0');
    } else if rem == 1 {
      next := RustDiv(n - 1, 5);
      c := Some('1');
    } else if rem == 2 {
      next := RustDiv(n - 2, 5);
      c := Some('2');
    } else if rem == 3 {
      next := RustDiv(n + 2, 5);
      c := Some('=');
    } else if rem == 4 {
      next := RustDiv(n + 1, 5);
      c := Some('-');
    } else {
      next := n;
      c := None;
    }
  }

  /** Appending a digit multiplies the value by five and adds the digit. */
  lemma SnocValue(s: string, c: char)
    requires IsSnafu(s) && DigitValue(c).Some?
    ensures IsSnafu(s + [c]) && Value(s + [c]) == 5 * Value(s) + DigitValue(c).value
  {
    var t := s + [c];
    assert t[..|t| - 1] == s;
  }

  /** The lowest digit of `n` and the carry put `n` back together; the digit is
      positive when nothing is carried. */
  lemma LowDigit(n: nat)
    requires n > 0
    ensures var rem := n % 5;
      var d := if rem <= 2 then rem else rem - 5;
      DigitValue(DigitChar(d)) == Some(d) && n == 5 * Carry(n) + d && (Carry(n) == 0 ==> d > 0)
  {
  }

  /** The round trip of part one: decoding the encoded sum gives the sum back. */
  lemma DecodeEncode(n: nat)
    ensures DecodeLine(Encode(n)) == Some(n)
  {
  }

  /** process1: the sum of all lines, written as a SNAFU numeral; `None` where a line
      holds a foreign character or the sum is negative. */
  method Process1(lines: seq<string>) returns (r: Option<string>)
    ensures r.Some? <==> Sum(lines).Some? && Sum(lines).value >= 0
    ensures r.Some? ==> DecodeLine(r.value) == Sum(lines)
    ensures r.Some? ==> r.value == Encode(Sum(lines).value)
  {
    match Sum(lines)
    case None => r := None;
    case Some(total) =>
      r := SnafuOutput(total);
      if total >= 0 {
        DecodeEncode(total);
      }
  }

  /** The puzzle's example sum, 4890, is written `2=-1=0`. */
  lemma SampleEncoding()
    ensures Encode(4890) == "2=-1=0"
  {
    EncodeSnoc(2, 0, 2);
    EncodeSnoc(8, 2, -2);
    EncodeSnoc(39, 8, -1);
    EncodeSnoc(196, 39, 1);
    EncodeSnoc(978, 196, -2);
    EncodeSnoc(4890, 978, 0);
  }

  /** `n = 5 * m + d` with a digit `d` is encoded as `m` followed by `d`. */
  lemma EncodeSnoc(n: nat, m: nat, d: int)
    requires n > 0 && -2 <= d <= 2 && n == 5 * m + d
    ensures Encode(n) == Encode(m) + [DigitChar(d)]
  {
    if d >= 0 {
      Arith.DivModUnique(n, 5, m, d);
    } else {
      Arith.DivModUnique(n, 5, m - 1, d + 5);
    }
  }
}
