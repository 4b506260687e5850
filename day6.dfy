/** Day 6: tuning trouble. The answer is the number of characters read when the
    first window of `k` pairwise different characters has been completed (`k` is 4 for
    the start-of-packet marker, 14 for the start-of-message marker). */
module Day6 {
  import opened Wrappers

  /** `all_unique` of itertools: no character occurs twice. */
  predicate AllUnique(w: seq<char>) {
    forall i, j :: 0 <= i < j < |w| ==> w[i] != w[j]
  }

  /** The window of width `k` starting at `i`. */
  predicate UniqueWindowAt(s: seq<char>, k: nat, i: nat)
    requires i + k <= |s|
  {
    AllUnique(s[i..i + k])
  }

  /** `windows(k).enumerate().filter(all_unique).next()`, from window `from` on:
      the start of the first window whose characters are all different. */
  function FirstUniqueWindow(s: seq<char>, k: nat, from: nat): (r: Option<nat>)
    decreases |s| - from
    ensures r.Some? ==> from <= r.value && r.value + k <= |s| && UniqueWindowAt(s, k, r.value)
    ensures r.Some? ==> forall j :: from <= j < r.value ==> !UniqueWindowAt(s, k, j)
    ensures r.None? ==> forall j :: from <= j && j + k <= |s| ==> !UniqueWindowAt(s, k, j)
  {
    if from + k > |s| then None
    else if AllUnique(s[from..from + k]) then Some(from)
    else FirstUniqueWindow(s, k, from + 1)
  }

  /** The marker position: the window's start plus its width (`res.0 + k`); `None`
      where the `unwrap` finds no such window. */
  function Marker(s: seq<char>, k: nat): (r: Option<nat>)
    ensures r.Some? <==> exists j: nat :: j + k <= |s| && UniqueWindowAt(s, k, j)
    ensures r.Some? ==> k <= r.value <= |s| && UniqueWindowAt(s, k, r.value - k)
    ensures r.Some? ==> forall j: nat :: j + k < r.value ==> !UniqueWindowAt(s, k, j)
  {
    match FirstUniqueWindow(s, k, 0)
    case None => None
    case Some(i) => Some(i + k)
  }

  /** The start-of-packet marker: the end of the first window of four different
      characters. */
  function PartOne(s: seq<char>): (r: Option<nat>)
    ensures r.Some? <==> exists j: nat :: j + 4 <= |s| && UniqueWindowAt(s, 4, j)
    ensures r.Some? ==> 4 <= r.value <= |s| && UniqueWindowAt(s, 4, r.value - 4)
    ensures r.Some? ==> forall j: nat :: j + 4 < r.value ==> !UniqueWindowAt(s, 4, j)
  {
    Marker(s, 4)
  }

  /** The start-of-message marker: the end of the first window of fourteen
      different characters. */
  function PartTwo(s: seq<char>): (r: Option<nat>)
    ensures r.Some? <==> exists j: nat :: j + 14 <= |s| && UniqueWindowAt(s, 14, j)
    ensures r.Some? ==> 14 <= r.value <= |s| && UniqueWindowAt(s, 14, r.value - 14)
    ensures r.Some? ==> forall j: nat :: j + 14 < r.value ==> !UniqueWindowAt(s, 14, j)
  {
    Marker(s, 14)
  }

  /** A window of fourteen different characters contains one of four, so the
      start-of-message marker never comes before the start-of-packet marker. */
  lemma PacketBeforeMessage(s: seq<char>)
    requires PartTwo(s).Some?
    ensures PartOne(s).Some? && PartOne(s).value + 10 <= PartTwo(s).value
  {
    var m := PartTwo(s).value - 14;
    assert UniqueWindowAt(s, 4, m) by {
      assert s[m..m + 4] == s[m..m + 14][..4];
    }
  }

  /** The first window of distinct characters starts at `m`: the marker is its
      end. */
  lemma FirstMarkerAt(s: seq<char>, k: nat, m: nat)
    requires m + k <= |s| && UniqueWindowAt(s, k, m)
    requires forall j: nat :: j < m ==> !UniqueWindowAt(s, k, j)
    ensures Marker(s, k) == Some(m + k)
  {
  }

  /** A window holding the same character twice is not a marker. */
  lemma RepeatInWindow(s: seq<char>, k: nat, j: nat, p: nat, q: nat)
    requires j + k <= |s| && j <= p < q < j + k && s[p] == s[q]
    ensures !UniqueWindowAt(s, k, j)
  {
    assert s[j..j + k][p - j] == s[j..j + k][q - j];
  }

  /** Two of the puzzle's examples, one per part. */
  lemma SamplePartOne(a: seq<char>)
    requires a == "bvwbjplbgvbhsrlpgdmjqwftvncz"
    ensures PartOne(a) == Some(5)
  {
    PacketChars(a);
    RepeatInWindow(a, 4, 0, 0, 3);
    assert UniqueWindowAt(a, 4, 1);
    FirstMarkerAt(a, 4, 1);
  }

  lemma PacketChars(a: seq<char>)
    requires a == "bvwbjplbgvbhsrlpgdmjqwftvncz"
    ensures |a| >= 5 && a[0] == 'b' && a[1] == 'v' && a[2] == 'w' && a[3] == 'b' && a[4] == 'j'
  {
  }

  lemma SamplePartTwo(b: seq<char>)
    requires b == "mjqjpqmgbljsphdztnvjfqwrcgsmlb"
    ensures PartTwo(b) == Some(19)
  {
    MessageChars(b);
    MessageMarker(b);
  }

  /** The first nineteen characters of the part-two example. */
  predicate MessagePrefix(b: seq<char>) {
    |b| >= 19 &&
    b[0] == 'm' && b[1] == 'j' && b[2] == 'q' && b[3] == 'j' && b[4] == 'p' &&
    b[5] == 'q' && b[6] == 'm' && b[7] == 'g' && b[8] == 'b' && b[9] == 'l' &&
    b[10] == 'j' && b[11] == 's' && b[12] == 'p' && b[13] == 'h' && b[14] == 'd' &&
    b[15] == 'z' && b[16] == 't' && b[17] == 'n' && b[18] == 'v'
  }

  /** Each of the first five windows repeats a character; the sixth does not. */
  lemma MessageMarker(b: seq<char>)
    requires MessagePrefix(b)
    ensures PartTwo(b) == Some(19)
  {
    RepeatInWindow(b, 14, 0, 0, 6);
    RepeatInWindow(b, 14, 1, 1, 3);
    RepeatInWindow(b, 14, 2, 2, 5);
    RepeatInWindow(b, 14, 3, 3, 10);
    RepeatInWindow(b, 14, 4, 4, 12);
    Unique14(b[5..19]);
    FirstMarkerAt(b, 14, 5);
  }

  lemma MessageChars(b: seq<char>)
    requires b == "mjqjpqmgbljsphdztnvjfqwrcgsmlb"
    ensures MessagePrefix(b)
  {
    MessageStart(b);
    MessageMiddle(b);
    MessageEnd(b);
  }

  lemma MessageStart(b: seq<char>)
    requires b == "mjqjpqmgbljsphdztnvjfqwrcgsmlb"
    ensures |b| == 30 && b[0] == 'm' && b[1] == 'j' && b[2] == 'q' && b[3] == 'j' && b[4] == 'p' && b[5] == 'q'
  {
  }

  lemma MessageMiddle(b: seq<char>)
    requires b == "mjqjpqmgbljsphdztnvjfqwrcgsmlb"
    ensures b[6] == 'm' && b[7] == 'g' && b[8] == 'b' && b[9] == 'l' && b[10] == 'j' && b[11] == 's'
  {
  }

  lemma MessageEnd(b: seq<char>)
    requires b == "mjqjpqmgbljsphdztnvjfqwrcgsmlb"
    ensures b[12] == 'p' && b[13] == 'h' && b[14] == 'd' && b[15] == 'z' && b[16] == 't' && b[17] == 'n' && b[18] == 'v'
  {
  }

  /** The window `qmgbljsphdztnv` has fourteen different characters. */
  lemma Unique14(w: seq<char>)
    requires |w| == 14
    requires w[0] == 'q' && w[1] == 'm' && w[2] == 'g' && w[3] == 'b' && w[4] == 'l'
    requires w[5] == 'j' && w[6] == 's' && w[7] == 'p' && w[8] == 'h' && w[9] == 'd'
    requires w[10] == 'z' && w[11] == 't' && w[12] == 'n' && w[13] == 'v'
    ensures AllUnique(w)
  {
  }
}
