/** Day 2: rock-paper-scissors strategy guide. Each line holds the opponent's letter
    (A, B, C) and a second letter (X, Y, Z); the total score is the sum of the per-round
    scores of a fixed table. */
module Day2 {
  import opened Wrappers

  /** The space-separated tokens of one line. */
  type Line = seq<string>

  /** The table of procces_one; `None` where the program panics on an unknown pair. */
  function RoundScoreOne(a: string, b: string): Option<nat> {
    match (a, b)
    case ("A", "X") => Some(3 + 1)
    case ("A", "Y") => Some(6 + 2)
    case ("A", "Z") => Some(0 + 3)
    case ("B", "X") => Some(0 + 1)
    case ("B", "Y") => Some(3 + 2)
    case ("B", "Z") => Some(6 + 3)
    case ("C", "X") => Some(6 + 1)
    case ("C", "Y") => Some(0 + 2)
    case ("C", "Z") => Some(3 + 3)
    case _ => None
  }

  /** The table of procces_two. */
  function RoundScoreTwo(a: string, b: string): Option<nat> {
    match (a, b)
    case ("A", "X") => Some(0 + 3)
    case ("A", "Y") => Some(3 + 1)
    case ("A", "Z") => Some(6 + 2)
    case ("B", "X") => Some(0 + 1)
    case ("B", "Y") => Some(3 + 2)
    case ("B", "Z") => Some(6 + 3)
    case ("C", "X") => Some(0 + 2)
    case ("C", "Y") => Some(3 + 3)
    case ("C", "Z") => Some(6 + 1)
    case _ => None
  }

  /** Sum of a per-round table over all lines; `None` when a line has fewer than two
      tokens (the `unwrap` of `it.next()`) or an unknown pair (the `panic!`). */
  function Total(lines: seq<Line>, partTwo: bool): Option<nat>
  {
    if lines == [] then Some(0)
    else
      var line := lines[|lines| - 1];
      match Total(lines[..|lines| - 1], partTwo)
      case None => None
      case Some(prefix) =>
        if |line| < 2 then None
        else
          match (if partTwo then RoundScoreTwo(line[0], line[1]) else RoundScoreOne(line[0], line[1]))
          case None => None
          case Some(score) => Some(prefix + score)
  }

  /** `procces_one`: the scores of the rounds under the rules, with the second
      column read as the shape to play. */
  function ProcessOne(lines: seq<Line>): (r: Option<nat>)
    ensures r == RulesTotal(lines, false)
  {
    TotalFollowsRules(lines, false);
    Total(lines, false)
  }

  /** `procces_two`: the scores of the rounds under the rules, with the second
      column read as the outcome to reach. */
  function ProcessTwo(lines: seq<Line>): (r: Option<nat>)
    ensures r == RulesTotal(lines, true)
  {
    TotalFollowsRules(lines, true);
    Total(lines, true)
  }

  // An independent reading of the rules, against which the tables are checked.

  datatype Shape = Rock | Paper | Scissors
  datatype Outcome = Loss | Draw | Win

  function Opponent(a: string): Option<Shape> {
    if a == "A" then Some(Rock) else if a == "B" then Some(Paper)
    else if a == "C" then Some(Scissors) else None
  }

  /** Part one reads the second column as the shape to play. */
  function Response(b: string): Option<Shape> {
    if b == "X" then Some(Rock) else if b == "Y" then Some(Paper)
    else if b == "Z" then Some(Scissors) else None
  }

  /** Part two reads the second column as the outcome to reach. */
  function Wanted(b: string): Option<Outcome> {
    if b == "X" then Some(Loss) else if b == "Y" then Some(Draw)
    else if b == "Z" then Some(Win) else None
  }

  function ShapeScore(s: Shape): nat {
    match s
    case Rock => 1
    case Paper => 2
    case Scissors => 3
  }

  function OutcomeScore(o: Outcome): nat {
    match o
    case Loss => 0
    case Draw => 3
    case Win => 6
  }

  /** The shape that `s` defeats. */
  function Defeats(s: Shape): Shape {
    match s
    case Rock => Scissors
    case Paper => Rock
    case Scissors => Paper
  }

  /** The outcome for me when I play `mine` against `theirs`. */
  function Play(theirs: Shape, mine: Shape): Outcome {
    if mine == theirs then Draw
    else if Defeats(mine) == theirs then Win
    else Loss
  }

  /** The shape to play against `theirs` to reach `want`. */
  function Needed(theirs: Shape, want: Outcome): (mine: Shape)
    ensures Play(theirs, mine) == want
  {
    match want
    case Draw => theirs
    case Loss => Defeats(theirs)
    case Win => Defeats(Defeats(theirs))
  }

  /** The score of one round by the rules: the shape played plus the outcome. */
  function RuleScore(a: string, b: string, partTwo: bool): Option<nat> {
    if !partTwo then
      match (Opponent(a), Response(b))
      case (Some(theirs), Some(mine)) => Some(ShapeScore(mine) + OutcomeScore(Play(theirs, mine)))
      case _ => None
    else
      match (Opponent(a), Wanted(b))
      case (Some(theirs), Some(want)) => Some(ShapeScore(Needed(theirs, want)) + OutcomeScore(want))
      case _ => None
  }

  /** The total by the rules; `None` when a line lacks a letter or has an
      unknown one. */
  function RulesTotal(lines: seq<Line>, partTwo: bool): Option<nat> {
    if lines == [] then Some(0)
    else
      var line := lines[|lines| - 1];
      match RulesTotal(lines[..|lines| - 1], partTwo)
      case None => None
      case Some(prefix) =>
        if |line| < 2 then None
        else
          match RuleScore(line[0], line[1], partTwo)
          case None => None
          case Some(score) => Some(prefix + score)
  }

  /** Each table entry is the score the rules give that round. */
  lemma TablesFollowRules(a: string, b: string)
    ensures RoundScoreOne(a, b) == RuleScore(a, b, false)
    ensures RoundScoreTwo(a, b) == RuleScore(a, b, true)
  {
    RoundScoreOneMeaning(a, b);
    RoundScoreTwoMeaning(a, b);
    if RoundScoreTwo(a, b).Some? {
      var theirs, want := Opponent(a).value, Wanted(b).value;
      var mine :| Play(theirs, mine) == want &&
        RoundScoreTwo(a, b).value == OutcomeScore(want) + ShapeScore(mine);
      PlayDetermines(theirs, mine, Needed(theirs, want));
    }
  }

  /** Against a given shape, each outcome is reached by one shape only. */
  lemma PlayDetermines(theirs: Shape, m1: Shape, m2: Shape)
    requires Play(theirs, m1) == Play(theirs, m2)
    ensures m1 == m2
  {
  }

  lemma {:induction false} TotalFollowsRules(lines: seq<Line>, partTwo: bool)
    ensures Total(lines, partTwo) == RulesTotal(lines, partTwo)
  {
    if lines != [] {
      var line := lines[|lines| - 1];
      TotalFollowsRules(lines[..|lines| - 1], partTwo);
      if |line| >= 2 {
        TablesFollowRules(line[0], line[1]);
      }
    }
  }

  /** The part-one table is "shape score plus outcome score", and panics exactly on
      letters outside A-C / X-Z. */
  lemma RoundScoreOneMeaning(a: string, b: string)
    ensures RoundScoreOne(a, b).Some? <==> Opponent(a).Some? && Response(b).Some?
    ensures RoundScoreOne(a, b).Some? ==>
      RoundScoreOne(a, b).value ==
        ShapeScore(Response(b).value) + OutcomeScore(Play(Opponent(a).value, Response(b).value))
  {
  }

  /** The part-two table plays the shape that reaches the wanted outcome. */
  lemma RoundScoreTwoMeaning(a: string, b: string)
    ensures RoundScoreTwo(a, b).Some? <==> Opponent(a).Some? && Wanted(b).Some?
    ensures RoundScoreTwo(a, b).Some? ==>
      exists mine :: Play(Opponent(a).value, mine) == Wanted(b).value &&
        RoundScoreTwo(a, b).value == OutcomeScore(Wanted(b).value) + ShapeScore(mine)
  {
    if RoundScoreTwo(a, b).Some? {
      var theirs, want := Opponent(a).value, Wanted(b).value;
      var mine := match want
        case Draw => theirs
        case Loss => Defeats(theirs)
        case Win => Defeats(Defeats(theirs));
      assert Play(theirs, mine) == want;
    }
  }

  /** A total exists exactly when every line has two known letters, and every round
      scores between 1 and 9. */
  lemma {:induction false} TotalBounds(lines: seq<Line>, partTwo: bool)
    ensures Total(lines, partTwo).Some? <==>
      forall i :: 0 <= i < |lines| ==>
        (|lines[i]| >= 2 && Opponent(lines[i][0]).Some? && Response(lines[i][1]).Some?)
    ensures Total(lines, partTwo).Some? ==> |lines| <= Total(lines, partTwo).value <= 9 * |lines|
  {
    if lines != [] {
      var init, line := lines[..|lines| - 1], lines[|lines| - 1];
      TotalBounds(init, partTwo);
      assert forall i :: 0 <= i < |init| ==> lines[i] == init[i];
      if |line| >= 2 {
        RoundScoreOneMeaning(line[0], line[1]);
        RoundScoreTwoMeaning(line[0], line[1]);
      }
    }
  }

  /** The puzzle's example scores 15 under the part-one table. */
  lemma SampleAnswer()
    ensures ProcessOne([["A", "Y"], ["B", "X"], ["C", "Z"]]) == Some(15)
  {
    var s: seq<Line> := [["A", "Y"], ["B", "X"], ["C", "Z"]];
    assert s[..1][..0] == [] && s[..2][..1] == s[..1] && s[..3][..2] == s[..2];
    assert Total(s[..1], false) == Some(8);
    assert Total(s[..2], false) == Some(9);
  }
}
