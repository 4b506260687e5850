/** Day 3 ("day_three"): rucksack reorganisation. Each line is a rucksack whose two
    halves are its compartments; part one sums the priority of the item type found in
    both compartments, part two the priority of the badge shared by each group of
    three consecutive rucksacks. */
module DayThree {
  import opened Wrappers
  import Arith
  import Utf8

  /** The program draws "some" element of a hash-set intersection; which one depends on
      the hash order. The model takes that choice as a parameter that picks a member
      of any non-empty set. */
  type Picker = set<char> -> char

  ghost predicate PicksMember(pick: Picker) {
    forall s: set<char> :: s != {} ==> pick(s) in s
  }

  function Items(s: string): set<char> { set c | c in s }

  /** `char::is_lowercase`, the Unicode `Lowercase` property. Its tables are not
      part of this model, so the test is a parameter; on ASCII it holds exactly for
      'a' to 'z'. */
  type CaseTest = char -> bool

  ghost predicate AsciiCase(lower: CaseTest) {
    forall c: char :: c as int < 0x80 ==> (lower(c) <==> 'a' <= c <= 'z')
  }

  /** Priority of an item type (lines 10-14): a lower-case character counts from
      'a', any other from 'A' plus 26; a character below its base makes the `u32`
      subtraction underflow. */
  function Priority(c: char, lower: CaseTest): (r: Option<nat>)
    ensures lower(c) ==> (r.Some? <==> 'a' <= c) && (r.Some? ==> r.value == c as nat - 'a' as nat + 1)
    ensures !lower(c) ==> (r.Some? <==> 'A' <= c) && (r.Some? ==> r.value == c as nat - 'A' as nat + 27)
  {
    if lower(c) then
      if c < 'a' then None else Some(c as nat - 'a' as nat + 1)
    else if c < 'A' then None
    else Some(c as nat - 'A' as nat + 1 + 26)
  }

  predicate IsLetter(c: char) { 'a' <= c <= 'z' || 'A' <= c <= 'Z' }

  /** Letters get the priorities 1 to 52, each its own. */
  lemma PriorityOfLetters(c: char, d: char, lower: CaseTest)
    requires AsciiCase(lower) && IsLetter(c) && IsLetter(d)
    ensures Priority(c, lower).Some? && 1 <= Priority(c, lower).value <= 52
    ensures ('a' <= c <= 'z') <==> Priority(c, lower).value <= 26
    ensures Priority(c, lower) == Priority(d, lower) ==> c == d
  {
    assert c as int < 0x80 && d as int < 0x80;
  }

  /** A lower-case letter outside ASCII counts from 'a' too: 'é' scores 137. */
  lemma PriorityBeyondAscii(lower: CaseTest)
    requires lower('é')
    ensures Priority('é', lower) == Some(137)
  {
  }

  /** The two compartments (lines 7-8): the line split at byte `len() / 2`; `None`
      where that byte falls inside a character and the slice panics. */
  function Compartments(line: string): (r: Option<(string, string)>)
    ensures r.Some? ==> r.value.0 + r.value.1 == line && Utf8.ByteLen(r.value.0) == Utf8.ByteLen(line) / 2
    ensures r.None? ==> forall k :: 0 <= k <= |line| ==> Utf8.ByteLen(line[..k]) != Utf8.ByteLen(line) / 2
  {
    match Utf8.Boundary(line, Utf8.ByteLen(line) / 2)
    case None => None
    case Some(k) =>
      assert line[..k] + line[k..] == line;
      Some((line[..k], line[k..]))
  }

  /** The item types present in both compartments. */
  function Shared(line: string): Option<set<char>> {
    match Compartments(line)
    case None => None
    case Some((left, right)) => Some(Items(left) * Items(right))
  }

  /** On an ASCII line the split is at character `|line| / 2`. */
  lemma SharedAscii(line: string)
    requires Utf8.Ascii(line)
    ensures Shared(line) == Some(Items(line[..|line| / 2]) * Items(line[|line| / 2..]))
  {
    Utf8.AsciiBytes(line);
    Utf8.AsciiBoundary(line, |line| / 2);
  }

  /** In "aéa" (four bytes) byte 2 is inside 'é', so the split panics. */
  lemma SplitInsideChar()
    ensures Shared("aéa") == None
  {
    assert Utf8.ByteLen("aéa") == 4 by {
      assert "aéa"[1..] == "éa" && "éa"[1..] == "a" && "a"[1..] == "";
    }
    assert Utf8.Boundary("aéa", 2) == None by {
      assert "aéa"[1..] == "éa";
    }
  }

  /** A line on which part one panics: its split falls inside a character, its
      compartments share nothing, or the picked item has no priority. */
  predicate BadLine(line: string, pick: Picker, lower: CaseTest) {
    match Shared(line)
    case None => true
    case Some(shared) => shared == {} || Priority(pick(shared), lower).None?
  }

  /** The priority one rucksack adds in part one; `None` exactly on a bad line. */
  function LineScore(line: string, pick: Picker, lower: CaseTest): (r: Option<nat>)
    ensures r.None? <==> BadLine(line, pick, lower)
    ensures r.Some? ==> r.value >= 1
  {
    match Shared(line)
    case None => None
    case Some(shared) => if shared == {} then None else Priority(pick(shared), lower)
  }

  /** The sum of two scores, `None` when either panics. */
  function Plus(a: Option<nat>, b: Option<nat>): Option<nat> {
    if a.Some? && b.Some? then Some(a.value + b.value) else None
  }

  /** procces_one: fails exactly when some rucksack is a bad line; otherwise each
      rucksack adds a priority of at least 1. */
  function ProcessOne(lines: seq<string>, pick: Picker, lower: CaseTest): (r: Option<nat>)
    ensures r.None? <==> exists i :: 0 <= i < |lines| && BadLine(lines[i], pick, lower)
    ensures r.Some? ==> r.value >= |lines|
  {
    if lines == [] then Some(0)
    else
      assert forall i :: 1 <= i < |lines| ==> lines[i] == lines[1..][i - 1];
      Plus(LineScore(lines[0], pick, lower), ProcessOne(lines[1..], pick, lower))
  }

  /** The badge candidates of three rucksacks (lines 22-27). */
  function Badges(f: string, m: string, l: string): set<char> {
    Items(l) * (Items(f) * Items(m))
  }

  /** A group on which part two panics: its three rucksacks share nothing, or
      the picked badge has no priority. */
  predicate BadGroup(f: string, m: string, l: string, pick: Picker, lower: CaseTest) {
    var badges := Badges(f, m, l);
    badges == {} || Priority(pick(badges), lower).None?
  }

  /** The priority one group adds in part two; `None` exactly on a bad group. */
  function GroupScore(f: string, m: string, l: string, pick: Picker, lower: CaseTest): (r: Option<nat>)
    ensures r.None? <==> BadGroup(f, m, l, pick, lower)
    ensures r.Some? ==> r.value >= 1
  {
    var badges := Badges(f, m, l);
    if badges == {} then None else Priority(pick(badges), lower)
  }

  /** procces_two: `array_chunks` of three lines; trailing lines that do not fill a
      group are dropped. Fails exactly when some full group is bad; otherwise each
      group adds a priority of at least 1. */
  function ProcessTwo(lines: seq<string>, pick: Picker, lower: CaseTest): (r: Option<nat>)
    ensures r.None? <==>
      exists g :: 0 <= g < |lines| / 3 && BadGroup(lines[3 * g], lines[3 * g + 1], lines[3 * g + 2], pick, lower)
    ensures r.Some? ==> r.value >= |lines| / 3
  {
    if |lines| < 3 then Some(0)
    else
      GroupsOfRest(lines);
      BadGroupOfRest(lines, pick, lower);
      Plus(GroupScore(lines[0], lines[1], lines[2], pick, lower), ProcessTwo(lines[3..], pick, lower))
  }

  /** The bad groups of the lines are the first group, when bad, and the bad
      groups of the lines after the first three. */
  lemma BadGroupOfRest(lines: seq<string>, pick: Picker, lower: CaseTest)
    requires |lines| >= 3
    ensures (exists g :: 0 <= g < |lines| / 3 && BadGroup(lines[3 * g], lines[3 * g + 1], lines[3 * g + 2], pick, lower)) <==>
            BadGroup(lines[0], lines[1], lines[2], pick, lower) ||
            exists g :: 0 <= g < |lines[3..]| / 3 &&
              BadGroup(lines[3..][3 * g], lines[3..][3 * g + 1], lines[3..][3 * g + 2], pick, lower)
  {
    assert lines[3 * 0] == lines[0] && lines[3 * 0 + 1] == lines[1] && lines[3 * 0 + 2] == lines[2];
    if exists g :: 0 <= g < |lines[3..]| / 3 && BadGroup(lines[3..][3 * g], lines[3..][3 * g + 1], lines[3..][3 * g + 2], pick, lower) {
      var g :| 0 <= g < |lines[3..]| / 3 && BadGroup(lines[3..][3 * g], lines[3..][3 * g + 1], lines[3..][3 * g + 2], pick, lower);
      BadGroupShifted(lines, g, pick, lower);
    }
    if exists g :: 0 <= g < |lines| / 3 && BadGroup(lines[3 * g], lines[3 * g + 1], lines[3 * g + 2], pick, lower) {
      var g :| 0 <= g < |lines| / 3 && BadGroup(lines[3 * g], lines[3 * g + 1], lines[3 * g + 2], pick, lower);
      if g > 0 {
        BadGroupShifted(lines, g - 1, pick, lower);
      }
    }
  }

  /** Group `g` of the lines after the first three is group `g + 1` of all the lines. */
  lemma BadGroupShifted(lines: seq<string>, g: nat, pick: Picker, lower: CaseTest)
    requires |lines| >= 3 && g < |lines| / 3 - 1
    ensures g < |lines[3..]| / 3
    ensures BadGroup(lines[3..][3 * g], lines[3..][3 * g + 1], lines[3..][3 * g + 2], pick, lower) <==>
      BadGroup(lines[3 * (g + 1)], lines[3 * (g + 1) + 1], lines[3 * (g + 1) + 2], pick, lower)
  {
    GroupsOfRest(lines);
  }

  /** The groups after the first are those of the lines after the first three. */
  lemma GroupsOfRest(lines: seq<string>)
    requires |lines| >= 3
    ensures |lines[3..]| / 3 == |lines| / 3 - 1
    ensures forall g :: 0 <= g < |lines[3..]| / 3 ==>
      lines[3..][3 * g] == lines[3 * (g + 1)] && lines[3..][3 * g + 1] == lines[3 * (g + 1) + 1] &&
      lines[3..][3 * g + 2] == lines[3 * (g + 1) + 2]
  {
    FullGroups(|lines|);
  }

  /** Sum of priorities of the given items, when all are defined. */
  function SumPriorities(items: seq<char>, lower: CaseTest): Option<nat> {
    if items == [] then Some(0)
    else Plus(Priority(items[0], lower), SumPriorities(items[1..], lower))
  }

  /** When every rucksack has exactly one misplaced item type (as the puzzle promises),
      part one is the sum of those items' priorities, whatever the hash order. */
  lemma {:induction false} ProcessOneDeterminedBySingletons(lines: seq<string>, items: seq<char>, pick: Picker, lower: CaseTest)
    requires PicksMember(pick)
    requires |items| == |lines|
    requires forall i :: 0 <= i < |lines| ==> Shared(lines[i]) == Some({items[i]})
    ensures ProcessOne(lines, pick, lower) == SumPriorities(items, lower)
  {
    if lines != [] {
      assert Shared(lines[0]) == Some({items[0]});
      assert pick({items[0]}) == items[0];
      SingletonsOfRest(lines, items);
      ProcessOneDeterminedBySingletons(lines[1..], items[1..], pick, lower);
    }
  }

  lemma SingletonsOfRest(lines: seq<string>, items: seq<char>)
    requires 0 < |items| == |lines|
    requires forall i :: 0 <= i < |lines| ==> Shared(lines[i]) == Some({items[i]})
    ensures forall i :: 0 <= i < |lines| - 1 ==> Shared(lines[1..][i]) == Some({items[1..][i]})
  {
    forall i | 0 <= i < |lines| - 1 ensures Shared(lines[1..][i]) == Some({items[1..][i]}) {
      assert lines[1..][i] == lines[i + 1] && items[1..][i] == items[i + 1];
    }
  }

  /** The badge of each full group of three is what part two sums; lines after the last
      full group do not change the answer. */
  lemma {:induction false} ProcessTwoIgnoresTrailingLines(lines: seq<string>, pick: Picker, lower: CaseTest)
    ensures ProcessTwo(lines, pick, lower) == ProcessTwo(lines[..|lines| / 3 * 3], pick, lower)
  {
    if |lines| >= 3 {
      var full := |lines| / 3 * 3;
      var rest := lines[3..];
      FullGroups(|lines|);
      assert |rest| / 3 * 3 == full - 3;
      var cut := lines[..full];
      ProcessTwoIgnoresTrailingLines(rest, pick, lower);
      assert cut[3..] == rest[..full - 3];
      assert cut[0] == lines[0] && cut[1] == lines[1] && cut[2] == lines[2];
    }
  }

  /** Dropping one group of three drops three lines from the full groups. */
  lemma FullGroups(n: nat)
    requires n >= 3
    ensures 3 <= n / 3 * 3 <= n && (n - 3) / 3 * 3 == n / 3 * 3 - 3
  {
    var k, t := n / 3, n % 3;
    assert n == k * 3 + t;
    Arith.DivModUnique(n - 3, 3, k - 1, t);
  }

  /** With exactly one common item type per group (the badge), part two is the sum of
      the badges' priorities, whatever the hash order. */
  lemma {:induction false} ProcessTwoDeterminedByBadges(lines: seq<string>, badges: seq<char>, pick: Picker, lower: CaseTest)
    requires PicksMember(pick)
    requires |badges| == |lines| / 3
    requires forall g :: 0 <= g < |badges| ==>
      Badges(lines[3 * g], lines[3 * g + 1], lines[3 * g + 2]) == {badges[g]}
    ensures ProcessTwo(lines, pick, lower) == SumPriorities(badges, lower)
  {
    if |lines| >= 3 {
      forall g | 0 <= g < |badges| - 1
        ensures Badges(lines[3..][3 * g], lines[3..][3 * g + 1], lines[3..][3 * g + 2]) == {badges[1..][g]}
      {
        assert Badges(lines[3 * (g + 1)], lines[3 * (g + 1) + 1], lines[3 * (g + 1) + 2]) == {badges[g + 1]};
      }
      assert Badges(lines[0], lines[1], lines[2]) == {badges[0]} by {
        assert 3 * 0 == 0;
      }
      ProcessTwoDeterminedByBadges(lines[3..], badges[1..], pick, lower);
    }
  }
}
