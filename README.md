# Advent of Code 2022 solvers, modelled in Dafny

This project models the puzzle solvers of the repository, one Rust crate per day, as
one Dafny module per day (`DayOne`, `Day2`, `DayThree`, … `Day25`, plus `DayEleven`
and `DayThirdteen` for the crates spelled that way). Every solver is a pipeline
"parse the input, compute, reduce to a number or a string". The model starts from the
parsed input, given as a datatype or a sequence (the `nom` parsers and file reading are
not modelled), and keeps the computation in the form the Rust code has:

- pure iterator pipelines and recursive functions become Dafny functions and lemmas;
- code that mutates a vector, a grid, a queue or a set step by step becomes a
  `method` with `while` loops and invariants, or a `class` whose methods update its
  fields, each proved against a specification function;
- a `panic!`, an `unwrap` on `None`, an out-of-range index or an integer underflow
  becomes `None` of an `Option` result (or an explicit precondition where the puzzle
  input guarantees it and the model says so below).

Shared modules: `Wrappers` (the `Option` type), `Sorting` (the slice `sort` family, as
an in-place insertion sort proved sorted and a permutation), `Multisets`, `Arith` and
`Visits` (the termination measure of the grid breadth-first searches).

Hash-set and hash-map iteration order is never relied on: where the Rust code takes
"the first" element of a hash set, the model takes the choice as a parameter and
proves the answer does not depend on it whenever the puzzle guarantees a single
candidate.

## Model

| member | source | states |
|---|---|---|
| Sorting.SortByKey | day_one/src/lib.rs:33 | sorting a slice in place leaves it ordered by the key and a permutation of its old contents |
| Sorting.SortedUnique | day_one/src/lib.rs:33-37 | two sorted arrangements of the same multiset are equal, so anything read off a sorted vector depends only on its elements |
| DayOne.Totals | day_one/src/lib.rs:14-19 | one total per elf, in elf order, each the sum of that elf's calories |
| DayOne.Max | day_one/src/lib.rs:20-21 | `max` is absent exactly for no elves; otherwise it is one of the totals and at least every total |
| DayOne.PartOne | day_one/src/lib.rs:12-23 | part one panics exactly for no elves; otherwise it is the total of some elf and at least every elf's total |
| DayOne.PartTwo | day_one/src/lib.rs:25-39 | the answer is the sum of the last three of any sorted arrangement of the totals, so it is independent of the elves' order |
| DayOne.PartTwoAtLeastPartOne | day_one/src/lib.rs:20-37 | for a non-empty input the three largest totals sum to at least the largest one (part one) |
| DayOne.SampleAnswer | day_one/src/lib.rs:12-23 | the puzzle's example gives 24000 for part one |
| Day2.RoundScoreOneMeaning | day_2/src/lib.rs:7-17 | the part-one table is the shape score (X=1, Y=2, Z=3) plus the outcome score of playing that shape, and panics exactly on letters outside A-C / X-Z |
| Day2.RoundScoreTwoMeaning | day_2/src/lib.rs:28-38 | the part-two table reads X/Y/Z as loss/draw/win and adds the score of a shape that reaches that outcome |
| Day2.TotalBounds | day_2/src/lib.rs:2-19 | the sum exists exactly when every line has two known letters, and lies between 1 and 9 per line |
| Day2.Needed | day_2/src/lib.rs:28-38 | the shape to play against a given shape reaches the wanted outcome |
| Day2.TablesFollowRules | day_2/src/lib.rs:7-38 | every entry of both tables, and their panics, agree with scoring by the rules: shape score plus outcome score, the part-two shape being the one that reaches the wanted outcome |
| Day2.TotalFollowsRules | day_2/src/lib.rs:1-41 | summing the table entries gives the total by the rules, and panics exactly where the rules reject a line |
| Day2.ProcessOne | day_2/src/lib.rs:1-20 | `procces_one` is the total by the rules with the second letter read as the shape to play, and panics exactly on a line the rules reject |
| Day2.ProcessTwo | day_2/src/lib.rs:22-41 | `procces_two` is the total by the rules with the second letter read as the outcome to reach, and panics exactly on a line the rules reject |
| Day2.SampleAnswer | day_2/src/lib.rs:1-20 | the example strategy guide scores 15 |
| DayThree.PriorityOfLetters | day_three/src/lib.rs:10-14 | lower-case letters get 1-26, upper-case 27-52, and distinct letters distinct priorities |
| DayThree.ProcessOneDeterminedBySingletons | day_three/src/lib.rs:4-16 | when each rucksack's halves share exactly one item type, part one is the sum of those priorities whatever the hash order |
| DayThree.Priority | day_three/src/lib.rs:10-14 | a character passing the lower-case test gets its code point minus 'a' plus 1, any other its code point minus 'A' plus 27; the subtraction underflows (a panic) exactly below 'a' or 'A' |
| DayThree.PriorityBeyondAscii | day_three/src/lib.rs:10-11 | 'é' is lower-case to `is_lowercase` and gets priority 137, not a letter's priority |
| DayThree.Compartments | day_three/src/lib.rs:7-8 | the line splits at byte `len() / 2` into two parts that make up the line, and panics exactly when that byte falls inside a character |
| DayThree.SharedAscii | day_three/src/lib.rs:7-9 | on an ASCII line the split falls at character `len / 2` and the shared items are those of the two halves |
| DayThree.SplitInsideChar | day_three/src/lib.rs:7 | in "aéa" byte 2 is inside 'é', so the slice panics |
| DayThree.LineScore | day_three/src/lib.rs:6-14 | one rucksack's share of part one panics exactly when the split falls inside a character, the halves share no item, or the picked item's priority underflows; otherwise it is at least 1 |
| DayThree.GroupScore | day_three/src/lib.rs:21-33 | one group's share of part two panics exactly when the three rucksacks share no item or the badge's priority underflows; otherwise it is at least 1 |
| DayThree.ProcessOne | day_three/src/lib.rs:4-16 | part one panics exactly when some line cannot be split, its halves share nothing, or the item picked has no priority; otherwise every line adds at least 1 |
| DayThree.ProcessTwo | day_three/src/lib.rs:18-35 | part two panics exactly when some full group of three shares nothing or its badge has no priority; otherwise every full group adds at least 1 |
| DayThree.BadGroupOfRest | day_three/src/lib.rs:19-21 | a bad group is the first group or a bad group of the lines after it |
| DayThree.ProcessTwoIgnoresTrailingLines | day_three/src/lib.rs:19-21 | `array_chunks` drops an incomplete trailing group: the answer equals that of the full groups only |
| DayThree.ProcessTwoDeterminedByBadges | day_three/src/lib.rs:18-35 | with one common item per group of three, part two is the sum of the badges' priorities whatever the hash order |
| Sorting.InsertLast | day_one/src/lib.rs:33 | one step of the in-place sort: the first `i + 1` elements become ordered by the key, and the slice stays a permutation of its old contents |
| Day4.ProcessOne | day_4/src/lib.rs:13-19 | the containment count is at most the number of pairs |
| Day4.ProcessTwo | day_4/src/lib.rs:21-27 | the overlap count is at most the number of pairs |
| Day4.Symmetric | day_4/src/lib.rs:17-25 | both filters give the same answer when the pair's two assignments are swapped |
| Day4.CountsSymmetric | day_4/src/lib.rs:13-27 | swapping the assignments of every pair leaves both counts unchanged |
| Day4.ProcessOneCounts | day_4/src/lib.rs:13-19 | `filter(..).count()` of part one is the number of indices whose pair passes the containment test |
| Day4.ProcessTwoCounts | day_4/src/lib.rs:21-27 | `filter(..).count()` of part two is the number of indices whose pair passes the overlap test |
| Day4.ContainsMeansSubset | day_4/src/lib.rs:17 | for well-formed ranges the endpoint test holds exactly when every section of one range is a section of the other |
| Day4.OverlapMeansShared | day_4/src/lib.rs:25 | for well-formed ranges "not apart" holds exactly when the two ranges share a section |
| Day4.PartOneAtMostPartTwo | day_4/src/lib.rs:17-25 | containment implies overlap, so the part-one count never exceeds the part-two count |
| Day4.SampleAnswers | day_4/src/lib.rs:13-27 | the example gives 2 containing and 4 overlapping pairs |
| Day5.ParseMove | day_5/src/lib.rs:10-17 | a move parses exactly when both stack numbers are at least one, and then names the stacks from zero with the count unchanged |
| Day5.BuildStacks | day_5/src/lib.rs:44-53 | the fold succeeds exactly when no crate lies beyond the top row's width, and then builds each column bottom crate first |
| Day5.PushRow | day_5/src/lib.rs:47-51 | one row of the fold pushes each crate onto its column's stack and nothing else; it fails exactly on a crate beyond the last stack |
| Day5.Rearrange | day_5/src/lib.rs:54-58 | the in-place move loop succeeds exactly when the move-by-move specification does, and leaves the stacks that specification computes |
| Day5.Process | day_5/src/lib.rs:38-88 | both parts yield the top crate of every non-empty stack after all moves, and fail exactly on a malformed drawing or an impossible move |
| Day5.CratesPreserved | day_5/src/lib.rs:55-57 | a move neither creates nor destroys crates: the multiset of all crates is unchanged |
| Day5.MoveShape | day_5/src/lib.rs:80-84 | between two different stacks a move shrinks the source by `times`, grows the target by `times` and leaves every other stack alone |
| Day5.ReversedIsOneAtATime | day_5/src/lib.rs:56-57 | part one's reversed block equals what a crane lifting one crate at a time produces |
| Day5.SampleStacks | day_5/src/lib.rs:44-53 | the example's drawing builds the stacks "ZN", "MCD", "P" (bottom first) |
| Day5.SampleAnswers | day_5/src/lib.rs:54-58 | the example's four moves end in ["C","M","PDNZ"] for the reversing crane and ["M","C","PZND"] for the order-keeping one |
| Day5.SampleTops | day_5/src/lib.rs:59-61 | those arrangements read "CMZ" and "MCD" |
| Day5.MoveBetween | day_5/src/lib.rs:54-58 | a move between two different stacks takes exactly the top `times` crates off `from`, adds them to `to` (reversed by the one-at-a-time crane) and leaves every other stack as it was |
| Day5.MoveNothing | day_5/src/lib.rs:55-57 | moving no crates changes nothing |
| Day5.TopCrate | day_5/src/lib.rs:56-57 | the one-at-a-time crane first moves the top crate of `from` onto `to`, then the rest |
| Day5.MoveCrates | day_5/src/lib.rs:55-57 | one move in place, a `drain` of the top `times` crates of `from` and an `extend` of `to`, leaves exactly the stacks the move specification computes |
| Day6.FirstUniqueWindow | day_6/src/lib.rs:6-10 | the result is a window of pairwise different characters, no earlier window qualifies, and `None` means no window qualifies at all |
| Day6.Marker | day_6/src/lib.rs:3-12 | a marker exists exactly when some window is all-different; it lies between `k` and the input length, ends such a window, and every earlier window repeats a character |
| Day6.PartOne | day_6/src/lib.rs:3-12 | part one panics exactly when no four consecutive characters differ, and otherwise is the end of the first such window |
| Day6.PartTwo | day_6/src/lib.rs:14-23 | part two panics exactly when no fourteen consecutive characters differ, and otherwise is the end of the first such window |
| Day6.PacketBeforeMessage | day_6/src/lib.rs:3-23 | whenever part two finds a marker, part one finds one at least ten characters earlier |
| Day6.FirstMarkerAt | day_6/src/lib.rs:6-11 | an all-different window at `m` with none before it puts the marker at `m + k` |
| Day6.RepeatInWindow | day_6/src/lib.rs:8 | a window holding the same character twice fails `all_unique` |
| Day6.SamplePartOne | day_6/src/lib.rs:38 | "bvwbjplbgvbhsrlpgdmjqwftvncz" gives 5 for part one |
| Day6.SamplePartTwo | day_6/src/lib.rs:53 | "mjqjpqmgbljsphdztnvjfqwrcgsmlb" gives 19 for part two |
| Day6.MessageMarker | day_6/src/lib.rs:14-23 | an input whose first all-different fourteen-character window starts at index 5 gives 19 |
| Day7.ListedAppend | day_7/src/lib.rs:77-83 | the listed size of two listings together is the sum of their listed sizes |
| Day7.ListedEntry | day_7/src/lib.rs:79-82 | a directory entry counts 0 and a file its size |
| Day7.LastBar | day_7/src/lib.rs:121 | the position found holds a `\|` with no `\|` after it, and none is found exactly when the key has no `\|` |
| Day7.Parent | day_7/src/lib.rs:121-123 | `rsplit_once` yields a strictly shorter key, which is why the rollup loop terminates |
| Day7.ParentCut | day_7/src/lib.rs:121 | `rsplit_once` fails exactly on a key without `\|`, and otherwise returns the prefix before the last `\|` |
| Day7.Ancestors | day_7/src/lib.rs:120-124 | every key the loop reaches is shorter than the key it starts from |
| Day7.AncestorsAreCuts | day_7/src/lib.rs:120-124 | the keys the loop reaches are exactly the prefixes of the key that end just before one of its `\|` |
| Day7.ParentOfPush | day_7/src/lib.rs:102-111 | cutting the key of `stack + [name]` at its last `\|` gives the key of `stack`, so the rollup climbs exactly the directories `cd` descended |
| Day7.LsAdds | day_7/src/lib.rs:76-94 | `ls` keeps the stack, adds the listed sizes to the current key's own size, and changes no other key |
| Day7.Apply | day_7/src/lib.rs:74-113 | the closure's match on one command, on the table and stack in place, leaves the state of one specification step: `ls` adds the listed sizes at the current key (with `LsAdds`), `cd ..` pops unless the stack is empty, `cd /` and `cd name` push and reset the new key to 0 |
| Day7.Walk | day_7/src/lib.rs:72-116 | the command fold with the table and the stack updated in place yields the state of the command-by-command specification |
| Day7.TotalOfDescendants | day_7/src/lib.rs:118-126 | a directory's rolled-up total gathers its own key and exactly the keys below it (those continuing it after a `\|`) |
| Day7.CoveredStep | day_7/src/lib.rs:118-125 | folding one more key adds its own size to the totals along its chain and to no other total |
| Day7.Add | day_7/src/lib.rs:119 | `entry().and_modify().or_insert()` adds `v` at one key, inserting it if missing, and leaves every other key alone |
| Day7.AddAlongAncestors | day_7/src/lib.rs:120-124 | the `while let` loop adds the size once at each ancestor key and nowhere else |
| Day7.AddChain | day_7/src/lib.rs:119-124 | one fold step adds the size at the key and at each of its ancestors |
| Day7.Rollup | day_7/src/lib.rs:118-126 | the rollup fold, in any key order, computes every directory's total of itself and its descendants |
| Day7.SumSmall | day_7/src/lib.rs:128 | the sum of exactly the totals of at most 100000 |
| Day7.ProcessOne | day_7/src/lib.rs:69-129 | `process1` is the sum of the rolled-up totals of at most 100000 |
| Day7.MinAbove | day_7/src/lib.rs:191 | the result is absent exactly when no total exceeds the bound, and is otherwise a total above the bound that no other total above it undercuts |
| Day7.ProcessTwo | day_7/src/lib.rs:131-192 | `process2` is the smallest total strictly above \|30000000 - (70000000 - total of "/")\|, and fails exactly on a missing "/", an overflowing subtraction, or no total above the bound |
| Day7.RolledUpAll | day_7/src/lib.rs:118-126 | once every key has been folded in, the accumulated map is the rolled-up totals |
| Day8.WholeRowsIsMultiple | day_8/src/lib.rs:2-6 | a grid is whole rows of `width` exactly when its length is a multiple of the width |
| Day8.RowStart | day_8/src/lib.rs:17 | the row start of `idx` lies at most `len - 1` before it |
| Day8.RowStartIsDiv | day_8/src/lib.rs:16-17 | the row bounds are the source's `idx / len * len` and `(idx / len + 1) * len - 1` |
| Day8.Bounds | day_8/src/lib.rs:16-18 | the slices `s[idx..=right_bound]` and `s[left_bound..idx]` are in range for a rectangular grid |
| Day8.TraverseIsVisible | day_8/src/lib.rs:15-36 | the source's slices, reversals and strides accept a tree exactly when every tree toward some edge is strictly shorter |
| Day8.EdgeVisible | day_8/src/lib.rs:15-36 | trees in the first or last row or column are always visible |
| Day8.ShorterRun | day_8/src/lib.rs:63 | `take_while(..).count()` counts the leading strictly shorter trees and stops at the first tree at least as tall |
| Day8.ViewDistance | day_8/src/lib.rs:62-88 | the viewing distance lies between 0 and the line's length, is 0 only for an empty line, counts shorter trees plus the blocking one, and is the whole line when nothing blocks |
| Day8.Traverse2 | day_8/src/lib.rs:55-60 | `traverse2` is the product of the viewing distances along the four lines of sight, each cut from the tree's row or column |
| Day8.EdgeScoresZero | day_8/src/lib.rs:55-88 | a tree on the edge of the grid scores 0 |
| Day8.CountTrueIsSetSize | day_8/src/lib.rs:10-11 | `filter(..).count()` is the number of accepted positions |
| Day8.ProcessOne | day_8/src/lib.rs:7-11 | the visible count is at most the number of trees |
| Day8.ProcessOneCountsVisible | day_8/src/lib.rs:1-13 | part one counts exactly the trees visible from outside the grid |
| Day8.MaxOf | day_8/src/lib.rs:51 | `max` is absent exactly for no scores, and is otherwise one of them and at least every other |
| Day8.MaxScore | day_8/src/lib.rs:47-51 | part two is the best scenic score of any tree, absent only for an empty grid |
| Day8.Width | day_8/src/lib.rs:2 | the width is the run of characters before the first ASCII whitespace |
| Day8.Digits | day_8/src/lib.rs:4-6 | the tree sequence holds only digits, no more than the input has characters |
| Day8.SolveOne | day_8/src/lib.rs:1-13 | on raw input, part one fails exactly when the digits do not form whole rows of the width (a zero width or a short last row), and otherwise counts the visible trees |
| Day8.SolveTwo | day_8/src/lib.rs:41-53 | on raw input, part two fails exactly on no trees or a non-rectangular grid, and otherwise is the best scenic score |
| Day9.ParseStep | day_9/src/lib.rs:13-24 | a step parses exactly for the letters R, L, U and D, keeping its count; any other letter panics |
| Day9.NextFollow | day_9/src/lib.rs:106-119 | afterwards the knot touches the knot ahead; a knot that already touched stays put; a knot at most two away moves by at most one along each axis |
| Day9.NextFollowExamples | day_9/src/lib.rs:106-119 | the unit cases of the program's tests, such as (0,0) after (2,0) moving to (1,0) and after (2,2) moving to (1,1) |
| Day9.PartOne | day_9/src/lib.rs:30-63 | part one counts exactly the positions the tail occupies after each unit move of the head |
| Day9.WalkOne | day_9/src/lib.rs:37-59 | one step's `for` loop is `count` unit moves of the head, the tail following and being recorded after each |
| Day9.RunOne | day_9/src/lib.rs:37-60 | after the moves the tail touches the head, its last position is recorded, and each move adds at most one new position |
| Day9.Pull | day_9/src/lib.rs:74-76 | the inner knot loop keeps the rope's length |
| Day9.PartTwo | day_9/src/lib.rs:65-103 | part two counts exactly the positions the last of ten knots occupies after each unit move |
| Day9.WalkTwo | day_9/src/lib.rs:72-99 | one step's loop, on the ten-element array in place, is `count` unit moves of the whole rope with the last knot recorded after each |
| Day9.PullRope | day_9/src/lib.rs:73-76 | one unit move on the array: the head moves, then knots 1 to 9 follow in order, each after the knot ahead has moved |
| Day9.PullTouches | day_9/src/lib.rs:74-76 | once the inner loop has run, every knot touches the knot ahead of it |
| Day9.RunTwo | day_9/src/lib.rs:70-101 | after the moves each adjacent pair of knots touches, the last knot's position is recorded, and each move adds at most one new position |
| Day10.StreamLength | day_10/src/lib.rs:26-30 | the stream has one entry per `noop` and two per `addx` |
| Day10.StreamSplit | day_10/src/lib.rs:26-30 | running two halves of a program one after the other gives the stream of the whole, and X continues from where the first half left it |
| Day10.StreamAt | day_10/src/lib.rs:27-30 | during all cycles of an instruction X holds the value left by the instructions before it, and an `addx v` adds `v` only afterwards |
| Day10.XValues | day_10/src/lib.rs:25-30 | the loop with X changed in place, starting from 1, produces the specified stream of X values |
| Day10.Signal | day_10/src/lib.rs:31-36 | for a stream of at least 220 cycles the answer is 20·X₂₀ + 60·X₆₀ + … + 220·X₂₂₀ (1-based cycles), and 0 for a stream shorter than 20 |
| Day10.ProcessOne | day_10/src/lib.rs:23-37 | part one is the signal strength of the stream that starts with X = 1 |
| Day10.SpriteHitIsLit | day_10/src/lib.rs:49-50 | the source's test against the sprite shifted to the current row holds exactly when the sprite covers column `cycle mod 40` |
| Day10.Crt | day_10/src/lib.rs:48-54 | the fold fails exactly when a lit pixel falls at cycle 240 or later (outside the array), and otherwise yields 240 cells, each lit exactly when the sprite covers its column |
| Day10.Picture | day_10/src/lib.rs:55-62 | the screen is one line of 41 characters per row of 40 cells, each the row followed by a line break |
| Day10.ProcessTwo | day_10/src/lib.rs:39-63 | part two renders the picture of the stream from X = 1, and fails exactly where the CRT fold does |
| DayEleven.ParseNat | day_eleven/src/lib.rs:27 | `str::parse::<usize>` accepts exactly an optional `+` followed by at least one decimal digit |
| DayEleven.ParseOperation | day_eleven/src/lib.rs:21-36 | the operation parses exactly when the operand is `old` or a number, and then computes `old * old`, `old + old`, `old * n` or `old + n` as the text says |
| DayEleven.Target | day_eleven/src/lib.rs:42-47 | the item goes to the "true" monkey exactly when the new worry is divisible by the divisor, otherwise to the "false" monkey |
| DayEleven.Throw | day_eleven/src/lib.rs:69 | throwing keeps one buffer per monkey |
| DayEleven.Turn | day_eleven/src/lib.rs:66-70 | a turn keeps one item list, count and buffer per monkey |
| DayEleven.ThrowAddsAll | day_eleven/src/lib.rs:67-70 | every thrown item lands in exactly one buffer |
| DayEleven.TurnConserves | day_eleven/src/lib.rs:65-71 | a turn neither creates nor loses items |
| DayEleven.TurnsConserve | day_eleven/src/lib.rs:65-71 | neither does any run of turns |
| DayEleven.FlushConserves | day_eleven/src/lib.rs:72-74 | emptying the buffers into the item lists keeps every item |
| DayEleven.Round | day_eleven/src/lib.rs:64-75 | a whole round keeps one list per monkey, neither creates nor loses items, and leaves every buffer empty |
| DayEleven.TurnsKeepLater | day_eleven/src/lib.rs:65-71 | turns before monkey `j`'s leave its items and its count alone |
| DayEleven.TurnsKeepEarlier | day_eleven/src/lib.rs:65-71 | after its turn a monkey's list stays empty and its count stays fixed for the rest of the round |
| DayEleven.RoundInspects | day_eleven/src/lib.rs:66-70 | in a round a monkey inspects its starting items plus everything thrown to it before its turn, and its count grows by exactly that number |
| DayEleven.RoundHolds | day_eleven/src/lib.rs:72-74 | after a round every buffer is empty and each monkey holds what was thrown to it from its own turn on |
| DayEleven.DivisorProductMultiple | day_eleven/src/lib.rs:88 | every divisor divides `common_div` |
| DayEleven.ModMultiple | day_eleven/src/lib.rs:93 | reducing modulo a multiple of a divisor keeps the remainder by that divisor |
| DayEleven.ReductionKeepsTargets | day_eleven/src/lib.rs:88-94 | reducing worry modulo the product of all divisors sends every item to the same monkey |
| DayEleven.SortedTopTwo | day_eleven/src/lib.rs:76-81 | the first two of a descending arrangement of the counts are the two largest |
| DayEleven.TopTwo | day_eleven/src/lib.rs:101-105 | sorting descending and multiplying the first two gives the product of the two largest counts |
| DayEleven.ThrowAll | day_eleven/src/lib.rs:67-70 | throwing on the buffers array in place gives the specified buffers |
| DayEleven.TakeTurn | day_eleven/src/lib.rs:65-71 | one monkey's turn on the arrays gives the specified turn |
| DayEleven.PlayRound | day_eleven/src/lib.rs:64-75 | one round on the arrays: every monkey's turn in order, then the buffers emptied into the lists |
| DayEleven.ProcessOne | day_eleven/src/lib.rs:61-83 | part one is the product of the two largest counts after 20 rounds with worry divided by 3 |
| DayEleven.ProcessTwo | day_eleven/src/lib.rs:85-106 | part two is the product of the two largest counts after 10000 rounds with worry reduced modulo the product of all divisors |
| DayEleven.Play | day_eleven/src/lib.rs:63-81 | the round loop over the mutable item lists, counters and buffers ends with the counters of the specified rounds, and returns the product of the two largest |
| DayEleven.FlushAll | day_eleven/src/lib.rs:72-74 | emptying every buffer into its monkey's items in place gives the specified end of a round |
| Day12.BuildGrid | day_12/src/lib.rs:3-15 | the grid has the input's shape, with `S` stored as 254, `E` as 123 and every other byte kept |
| Day12.FlatIndex | day_12/src/lib.rs:17-20 | in rows of width `w`, flat index `i` is row `i / w`, column `i % w` |
| Day12.CellIndex | day_12/src/lib.rs:67-74 | the cell at (row, col) sits at flat index `row * w + col` |
| Day12.FindFlat | day_12/src/lib.rs:18 | `find` returns the first flat index holding the mark, and `None` exactly when none does |
| Day12.FindStart | day_12/src/lib.rs:17-20 | the start is a cell holding 254, and is missing exactly when no cell does |
| Day12.StartsUpTo | day_12/src/lib.rs:68-72 | the positions listed are exactly those of the `a` or start cells among the flat indices scanned |
| Day12.StartPositions | day_12/src/lib.rs:67-74 | `start_positions` lists exactly the grid cells of height `a` or the start |
| Day12.Around | day_12/src/lib.rs:24-41 | the neighbours considered lie in the grid and are pairwise distinct |
| Day12.PossibleSteps | day_12/src/lib.rs:22-43 | a neighbour is offered exactly when it is in the grid, at most one higher than the current cell and unvisited, without repeats |
| Day12.WithinMono | day_12/src/lib.rs:45-58 | a cell reachable in `n` steps is reachable in any larger number of steps |
| Day12.SearchStarts | day_12/src/lib.rs:46-47 | the initial visited set and queue satisfy the search invariant |
| Day12.SearchFound | day_12/src/lib.rs:48-51 | the first dequeued end cell carries the fewest steps to any end cell |
| Day12.SearchExhausted | day_12/src/lib.rs:48-57 | when the queue runs empty no end cell is reachable |
| Day12.StepLevels | day_12/src/lib.rs:47-55 | queue counts stay non-decreasing from front to back and differ by at most one after a push of `len + 1` |
| Day12.SearchStep | day_12/src/lib.rs:52-55 | dequeuing a non-end cell and queueing its possible steps one further keeps the search invariant |
| Day12.Enqueue | day_12/src/lib.rs:53-55 | the `for_each` marks each possible step visited and queues it at `len + 1`, lowering the count of unvisited cells by the number queued |
| Day12.Expand | day_12/src/lib.rs:48-55 | one round keeps the invariant and strictly lowers twice the unvisited cells plus the queue length, so the loop terminates |
| Day12.Bfs | day_12/src/lib.rs:45-58 | `bfs` returns the fewest steps to an end cell, or `None` exactly when no end cell is reachable |
| Day12.ProcessOne | day_12/src/lib.rs:60-65 | part one fails exactly on a missing start or an unreachable end, and is otherwise the fewest steps from the start |
| Day12.MinSteps | day_12/src/lib.rs:78-80 | the least step count over the starts that reach an end, absent exactly when none does |
| Day12.ProcessTwo | day_12/src/lib.rs:76-81 | part two is the fewest steps from any `a` or start cell to an end cell, and fails exactly when no such cell reaches one |
| Day13.AsList | day_13/src/lib.rs:41-43 | the list a packet stands for when compared is no larger than the packet, and strictly smaller for a list |
| Day13.CmpViaLists | day_13/src/lib.rs:37-46 | every comparison is the slice comparison of the lists the packets stand for (a number wrapped into a one-element list), and two numbers compare by value |
| Day13.CmpReflexive | day_13/src/lib.rs:37-46 | every packet compares equal to itself |
| Day13.CmpFlip | day_13/src/lib.rs:37-51 | swapping the arguments reverses the result, so `partial_cmp` is antisymmetric and `cmp` never sees an inconsistent pair |
| Day13.CmpListFlip | day_13/src/lib.rs:43 | the same for slice comparison |
| Day13.CmpTransitive | day_13/src/lib.rs:37-51 | `<=` is transitive and the result is equal only when both steps are, so the ordering is a total preorder as `sort` requires |
| Day13.CmpListTransitive | day_13/src/lib.rs:43 | the same for slice comparison |
| Day13.Triangle | day_13/src/lib.rs:56-61 | 1 + … + n is n(n+1)/2 |
| Day13.ProcessOneSwapped | day_13/src/lib.rs:54-62 | when no pair compares equal each 1-based index is counted for the pairs or for the swapped pairs, never both: the two answers sum to n(n+1)/2 |
| Day13.ProcessOne | day_13/src/lib.rs:54-62 | the sum of 1-based indices of pairs in order is at most n(n+1)/2, is exactly that when every pair is in order, and 0 when none is |
| Day13.Sort | day_13/src/lib.rs:73 | sorting in place leaves the packets in order, a permutation of the old ones, and exactly the stable insertion sort of the old order |
| Day13.InsertLast | day_13/src/lib.rs:73 | one insertion step extends the sorted prefix by one and permutes the array |
| Day13.SortStep | day_13/src/lib.rs:73 | one more insertion extends the sorted prefix of the input by its next packet and leaves the rest alone |
| Day13.Insert | day_13/src/lib.rs:73 | inserting a packet adds exactly that packet |
| Day13.InsertionSort | day_13/src/lib.rs:73 | the insertion sort is a permutation of its input |
| Day13.InsertSorted | day_13/src/lib.rs:73 | inserting into a sorted sequence keeps it sorted |
| Day13.InsertionSortSorted | day_13/src/lib.rs:73 | the insertion sort is sorted |
| Day13.EqualToMembers | day_13/src/lib.rs:73 | the packets kept for a class are exactly those comparing equal to it |
| Day13.InsertStable | day_13/src/lib.rs:73 | an inserted packet goes after every packet comparing equal to it, so each class keeps its order |
| Day13.InsertionSortStable | day_13/src/lib.rs:73 | `sort` is stable: the packets comparing equal to any given one keep their input order |
| Day13.SameLength | day_13/src/lib.rs:73 | sequences with the same classes in the same order are both empty or both not |
| Day13.LastOfClass | day_13/src/lib.rs:73 | two sorted sequences with the same classes in the same order end with the same packet |
| Day13.InitClasses | day_13/src/lib.rs:73 | dropping the same last packet keeps the classes equal |
| Day13.StableUnique | day_13/src/lib.rs:73 | a stable sort's result is determined: two sorted sequences with the same classes in the same order are equal |
| Day13.CountPermutation | day_13/src/lib.rs:73-76 | the number of packets comparing a given way with a divider does not depend on their order |
| Day13.CountAllBelow | day_13/src/lib.rs:73-76 | when every packet is at most the divider, those below and those equal make up all of them |
| Day13.InBlockPermutation | day_13/src/lib.rs:73-76 | whether an index falls in a divider's block of equal packets depends only on the multiset of packets |
| Day13.Position | day_13/src/lib.rs:73-76 | in a sorted sequence a packet equal to the divider sits after all packets below it and before all packets above it |
| Day13.BinarySearch | day_13/src/lib.rs:75-76 | `binary_search` on a sorted slice finds an index of a packet equal to the divider, and fails exactly when there is none |
| Day13.AllPackets | day_13/src/lib.rs:68-72 | the packets of every pair followed by the two dividers, 2n + 2 in all |
| Day13.FindDivider | day_13/src/lib.rs:75-76 | the search for a divider never fails, because the divider is among the packets, and lands in its block |
| Day13.ProcessTwo | day_13/src/lib.rs:63-77 | part two multiplies 1-based positions in the blocks of [[2]] and [[6]] of the sorted packets; with one packet equal to each divider these positions are fixed by the number of packets below it |
| Day13.PrefixDecides | day_13/src/lib.rs:85 | [1,2,3,4] < [5] because the first elements decide, and a number is below a longer list starting with it |
| DayThirdteen.ProcessTwo | day_thirdteen/src/lib.rs:52-68 | part two multiplies the 1-based positions of every packet structurally equal to a divider in the stable sort of the pairs' packets followed by the dividers |
| DayThirdteen.StableAnswer | day_thirdteen/src/lib.rs:59-67 | any sorted arrangement keeping every class in input order gives the same answer as the stable sort |
| DayThirdteen.EqualToDividerStaysAhead | day_thirdteen/src/lib.rs:52-68 | for the pair ([2], [1]) the packet [2], equal to [[2]] in the ordering but not structurally, stays before the divider, so the answer is 3 * 4 = 12 |
| DayThirdteen.TieBeforeDivider | day_thirdteen/src/lib.rs:59-67 | a pair whose first packet ties with [[2]] and exceeds the second sorts to second, first, [[2]], [[6]], and the answer is 12 |
| DayThirdteen.SortFour | day_thirdteen/src/lib.rs:61 | the sort of four packets with only the first two out of order swaps those two |
| DayThirdteen.SortAfter | day_thirdteen/src/lib.rs:61 | appending a packet no smaller than the sorted last one puts it last |
| DayThirdteen.SortSnoc | day_thirdteen/src/lib.rs:61 | sorting one more packet inserts it into the sort of the others |
| DayThirdteen.SortPair | day_thirdteen/src/lib.rs:61 | two packets out of order are swapped |
| DayThirdteen.MarksAtThreeAndFour | day_thirdteen/src/lib.rs:63-67 | dividers exactly at 1-based positions 3 and 4 give 12 |
| DayThirdteen.TwoMarks | day_thirdteen/src/lib.rs:63-67 | with dividers at exactly two positions the product is the product of those two 1-based positions |
| DayThirdteen.AgreesWithBinarySearch | day_thirdteen/src/lib.rs:52-68 | when each divider is the only packet in its class of the ordering, the structural lookup gives the same answer as the binary-search solver |
| DayThirdteen.DividerAt | day_thirdteen/src/lib.rs:58-66 | after sorting, a divider alone in its class of the ordering appears once, at the position counting the packets below it |
| Day14.PathRockStep | day_14/src/lib.rs:40-41 | a cell is rock after one more path exactly when it was rock before or a segment of that path covers it |
| Day14.FlattenHas | day_14/src/lib.rs:28-30 | every point of every path is among the points the bounds are taken over |
| Day14.Extent | day_14/src/lib.rs:28-37 | the smallest x never exceeds the largest |
| Day14.ExtentBounds | day_14/src/lib.rs:28-37 | every point lies within the smallest and largest x and the largest y, and each bound is reached by some point |
| Day14.Blank | day_14/src/lib.rs:38 | a blank grid has the requested height and width |
| Day14.Layout | day_14/src/lib.rs:36-38 | the grid has one row per y up to the largest and one column per x between the smallest and the largest, plus the spare columns |
| Day14.PaintSegment | day_14/src/lib.rs:41-59 | drawing a segment writes `#` on exactly the cells of its straight line, endpoints included, shifted by the smallest x, and changes nothing else |
| Day14.PathInBox | day_14/src/lib.rs:40-43 | every point of a path falls inside the grid after the shift, so no write is out of range |
| Day14.PaintPath | day_14/src/lib.rs:41-60 | drawing a path writes `#` on exactly the cells its segments cover |
| Day14.DrawnStep | day_14/src/lib.rs:40-61 | after drawing one more path, a cell is `#` exactly when a segment of the paths so far covers it |
| Day14.CaveOf | day_14/src/lib.rs:27-63 | a built cave is a non-empty grid of equal rows |
| Day14.BuildGrid | day_14/src/lib.rs:27-63 | `build_grid` and `build_grid2` draw the specified layout with entry column 500 - (smallest x) (+1 in part two), and fail on no points or a smallest x above 500 |
| Day14.PaintPaths | day_14/src/lib.rs:38-61 | drawing all paths over a blank grid makes a cell `#` exactly when a segment of some path covers it, and `.` otherwise |
| Day14.MoveSandcorn | day_14/src/lib.rs:71-90 | the grain overflows exactly (under part-one rules) when there is no row below or it is in the first or last column; a move goes one row down into air, preferring down, then down-left, then down-right; it rests only when blocked |
| Day14.Fall | day_14/src/lib.rs:93-107 | a grain ends resting or leaving, never mid-air; it rests on air or its start cell and is blocked there; under part-two rules it never overflows and never enters a floor without air |
| Day14.MarkCount | day_14/src/lib.rs:99-102 | writing `o` into a cell moves one cell from its old kind to `o` |
| Day14.PlaceFillsAir | day_14/src/lib.rs:92-108 | a grain that lets the loop go on has turned exactly one cell of air into sand |
| Day14.Populate | day_14/src/lib.rs:110-112 | repeating grains keeps the grid's shape and ends, since each continuing grain uses up a cell of air |
| Day14.PopulateFills | day_14/src/lib.rs:110-112 | sand only fills air or the entry cell: rock stays and no cell is emptied |
| Day14.PopulateKeepsFloor | day_14/src/lib.rs:202-204 | under the part-two rules a floor row without air is never changed |
| Day14.PlaceSandcorn | day_14/src/lib.rs:92-108 | the grain loop in place yields the grid and the go-on flag of the specification |
| Day14.PopulateGrid | day_14/src/lib.rs:110-112 | `while place_sandcorn(..) {}` yields the specified settled grid |
| Day14.ProcessOne | day_14/src/lib.rs:114-119 | part one counts the `o` cells of the settled part-one cave |
| Day14.SolveOne | day_14/src/lib.rs:114-119 | part one fails exactly when there are no points or the smallest x lies right of the entry column 500 |
| Day14.TriangleIsSum | day_14/src/lib.rs:206-208 | `missing_triangle(n)` is 1 + 2 + … + n, the grains of a pile spilling past an edge |
| Day14.FindEdge | day_14/src/lib.rs:218-225 | `find_position` returns the first row whose edge cell is `o`, and fails exactly when none is |
| Day14.Floor | day_14/src/lib.rs:213-215 | part two's grid adds a row of air and a floor row of rock of the same width |
| Day14.FinishAboveFloor | day_14/src/lib.rs:218-229 | once the sand settles above the floor, no edge grain is in the last two rows, so part two fails only where an edge column holds no grain |
| Day14.ProcessTwo | day_14/src/lib.rs:210-230 | part two counts the settled grains plus the two spilled piles |
| Day14.Settled | day_14/src/lib.rs:202-204 | the sand settled on the floor keeps the grid rectangular |
| Day14.SolveTwo | day_14/src/lib.rs:210-230 | part two fails exactly with no cave, an entry column right of the grid, or an edge column of the settled sand holding no grain; otherwise it counts at least every grain in the grid |
| Day14.FirstWith | day_14/src/lib.rs:218-225 | `find_position` finds the first row with a grain in the given edge column |
| Day15.LineIntersections | day_15/src/lib.rs:19-27 | an interval exists exactly when the row is within the sensor's beacon distance, and then holds exactly the cells of that row within that Manhattan distance |
| Day15.LineIntersections2 | day_15/src/lib.rs:29-42 | the same, clamped: exactly the cells within reach that lie in `0..=search_space` |
| Day15.HullIsUnion | day_15/src/lib.rs:70-73 | the hull of two intervals that pass the endpoint test holds exactly the cells of the two |
| Day15.FirstOverlap | day_15/src/lib.rs:69-72 | the index found is the first interval passing the endpoint test, and none is found exactly when no interval passes it |
| Day15.Fold | day_15/src/lib.rs:82-87 | the fold never yields more intervals than it was given |
| Day15.MergeRanges | day_15/src/lib.rs:68-78 | in place, the first interval that passes the test is widened to the hull and `true` returned, with nothing else changed; otherwise `false` and nothing changed |
| Day15.FoldRanges | day_15/src/lib.rs:80-88 | `fold_rages` folds some arrangement of its input sorted by start |
| Day15.FoldInto | day_15/src/lib.rs:82-87 | the fold with an accumulator growing by `push` gives the specified fold |
| Day15.StepCovers | day_15/src/lib.rs:82-86 | one fold step adds exactly the cells of the new interval |
| Day15.FoldCovers | day_15/src/lib.rs:80-88 | folding loses no cell and adds none |
| Day15.TouchingKeptApart | day_15/src/lib.rs:70-71 | 1..=3 and 4..=6 only touch and are not merged |
| Day15.JoinedHullIsUnion | day_15/src/lib.rs:73 | the hull of two non-empty intervals that overlap or touch holds exactly their cells |
| Day15.JoinedFold | day_15/src/lib.rs:80-88 | the corrected fold yields no more intervals than its input, none of them empty |
| Day15.JoinedFoldCovers | day_15/src/lib.rs:80-88 | the corrected fold also covers exactly the cells of its input |
| Day15.JoinedFoldSeparated | day_15/src/lib.rs:80-88 | folding start-sorted intervals with the corrected test leaves them separated by free cells and inside the search space |
| Day15.GapBeforeSecond | day_15/src/lib.rs:117-124 | when a row folds into more than one separated interval, the cell just before the second is free and inside the search space |
| Day15.CoveredPermutation | day_15/src/lib.rs:81 | whether a cell is covered does not depend on the intervals' order, so sorting changes nothing |
| Day15.JoinRanges | day_15/src/lib.rs:80-88 | the corrected `fold_rages` folds some start-sorted arrangement of its input |
| Day15.RowRanges | day_15/src/lib.rs:112-115 | the clamped intervals of a row cover exactly the cells of `0..=search_space` on that row that some sensor reaches |
| Day15.ProcessTwo | day_15/src/lib.rs:107-125 | an answer is the tuning frequency x·4000000 + y of an undetected cell of the first row of the search space with a free cell between two detected ones; `None` (the panic) exactly when no row has such a cell |
| Day15.RowFolded | day_15/src/lib.rs:110-116 | a row's folded intervals are separated, non-empty, inside the search space, and cover exactly the detected cells of that row in the space |
| Day15.FoldedGap | day_15/src/lib.rs:116-117 | such intervals are more than one exactly when a free cell lies between two detected ones |
| Day15.EmptyIntervalReportsOutsideSpace | day_15/src/lib.rs:29-42 | clamping a reach right of the space leaves an empty interval that the source's fold keeps, so the cell it reports lies outside the space; the corrected fold drops it |
| Day15.TouchingRowReportsCoveredCell | day_15/src/lib.rs:68-88 | on the row with 0..=3 and 4..=20 the source's fold keeps two intervals, and the cell it would report is covered, while the corrected fold gives one interval |
| Day16.Collect | day_16/src/lib.rs:169-172 | the graph has an entry for every valve line, and each entry is the flow and tunnels of some line with that name |
| Day16.WithinMono | day_16/src/lib.rs:55-71 | a valve reachable within `n` hops is reachable within any larger number |
| Day16.ShortestUnique | day_16/src/lib.rs:55-71 | the fewest number of hops between two valves is unique |
| Day16.ShortestExists | day_16/src/lib.rs:55-71 | every reachable valve has a fewest number of hops |
| Day16.Paths | day_16/src/lib.rs:55-71 | the result of `bfs` has exactly the valves reachable from the start with a non-zero flow, other than the start |
| Day16.Fresh | day_16/src/lib.rs:64-65 | `visited.insert` accepts exactly the tunnel targets not seen before |
| Day16.SearchStarts | day_16/src/lib.rs:56-58 | the initial queue, visited set and empty paths satisfy the search invariant |
| Day16.SearchExhausted | day_16/src/lib.rs:59-70 | when the queue runs dry the paths found are all of them, each at its hop distance |
| Day16.StepLevels | day_16/src/lib.rs:64-67 | queue counts stay non-decreasing from front to back and within one of each other after a push of `minute + 1` |
| Day16.StepFound | day_16/src/lib.rs:61-63 | recording a dequeued valve worth opening at its count keeps the paths found correct |
| Day16.SearchStep | day_16/src/lib.rs:59-68 | dequeuing a valve and queueing its fresh targets one hop further keeps the search invariant |
| Day16.Enqueue | day_16/src/lib.rs:64-68 | the tunnel loop marks and queues exactly the fresh targets, one hop further, each taking a name off the unvisited ones |
| Day16.Expand | day_16/src/lib.rs:59-68 | one round keeps the invariant and strictly lowers twice the unvisited names plus the queue length, so the loop terminates |
| Day16.Bfs | day_16/src/lib.rs:55-71 | `bfs` succeeds exactly when every valve it reaches is in the graph (the `unwrap`), and then returns every valve worth opening at its hop distance |
| Day16.MaxOf | day_16/src/lib.rs:95-96 | `max().unwrap_or_default()` is at least every total, one of them when there are any, and 0 for none |
| Day16.MaxOfDominated | day_16/src/lib.rs:95-96 | a set whose totals are all at most another set's maximum has a maximum no larger |
| Day16.BestMonotone | day_16/src/lib.rs:73-99 | more minutes never release less pressure |
| Day16.BestFewerTargets | day_16/src/lib.rs:86-94 | opening more valves beforehand never leaves more pressure to gain |
| Day16.BestUnfold | day_16/src/lib.rs:83-98 | with time left, the best total is the start's flow times the minutes plus the best move on |
| Day16.MaxOfAdd | day_16/src/lib.rs:86-96 | adding one total to a set makes its maximum the larger of the old maximum and that total |
| Day16.TriedNext | day_16/src/lib.rs:86-94 | trying one more neighbour adds its total exactly when it is unopened |
| Day16.Best2Unfold | day_16/src/lib.rs:128-163 | with both clocks running, the best joint total is both flows times their minutes plus the best pair of moves |
| Day16.Tried2Next | day_16/src/lib.rs:135-157 | trying one more pair adds its total exactly when its valves differ and neither is opened |
| Day16.Explorer.constructor | day_16/src/lib.rs:181 | the explorer starts with the reduced graph and the given opened set |
| Day16.Explorer.Dfs | day_16/src/lib.rs:73-99 | `dfs` returns 0 once the minutes are up and otherwise the start's flow times the minutes plus the best `dfs` over unopened neighbours at `mins - 1 - cost`; afterwards `opend` is as before minus the start |
| Day16.Explorer.Try | day_16/src/lib.rs:88-93 | one step of the `flat_map`: an unopened neighbour's total is kept when larger, and `opend` is restored |
| Day16.Explorer.Dfs2 | day_16/src/lib.rs:101-165 | `dfs2` returns 0 when both clocks are out, the single search of whoever has time when one is, and otherwise both flows times their minutes plus the best joint move; afterwards neither valve is marked opened |
| Day16.Explorer.Try2 | day_16/src/lib.rs:138-156 | one step over the pairs: a pair of distinct unopened valves is explored with both marked opened and its total kept when larger; `opend` is restored |
| Day16.Condensed | day_16/src/lib.rs:173-180 | the reduced graph holds "AA" with flow 0 and every valve with a non-zero flow, each with its `bfs` distances, and every distance names a valve of it |
| Day16.WorthNext | day_16/src/lib.rs:174-178 | one more key adds its entry exactly when its flow is non-zero |
| Day16.Condense | day_16/src/lib.rs:173-180 | the reduced graph is built exactly when every search succeeds, and is the specified one |
| Day16.ProcessOne | day_16/src/lib.rs:167-182 | part one is the best pressure one explorer releases in 30 minutes from "AA" with nothing open |
| Day16.ProcessTwo | day_16/src/lib.rs:184-198 | part two is the best pressure two explorers release in 26 minutes each from "AA", with "AA" counted as opened |
| Day16.Dist | day_16/src/lib.rs:55-71 | the hop distance to a reachable valve is its fewest number of hops |
| Day16.TriedAll | day_16/src/lib.rs:86-96 | folding over every neighbour gives the best move on |
| Day16.Tried2All | day_16/src/lib.rs:135-158 | folding over every pair of neighbours gives the best joint move |
| Day16.SearchAll | day_16/src/lib.rs:174-177 | the loop over the valves succeeds exactly when the search from every valve with a non-zero flow succeeds, and then maps each such valve to its flow and its distances, whatever the key order |
| Day18.Sides | day_18/src/lib.rs:80-106 | the six neighbours are distinct and inside the matrix where present, absent exactly where the coordinate would leave it |
| Day18.FacesOrSolid | day_18/src/lib.rs:80-107 | every side is either an open face or a solid neighbour, never both |
| Day18.CheckSidesContacts | day_18/src/lib.rs:25 | `check_sides` and the solid neighbours add up to six, so `6 - check_sides` counts the cube faces a cell touches |
| Day18.CountSides | day_18/src/lib.rs:5-17 | the nested loops return the surface area, the open faces of every solid cell |
| Day18.Filled | day_18/src/lib.rs:116-121 | the matrix has the requested side and a cell is solid exactly when it holds a shifted cube |
| Day18.SameMatrix | day_18/src/lib.rs:116-121 | two cubic matrices of one side agreeing on every cell are equal |
| Day18.MaxCoord | day_18/src/lib.rs:111-115 | the maximum bounds every coordinate of every cube and is one of them |
| Day18.Fill | day_18/src/lib.rs:116-121 | the `vec!` and `for_each` build exactly the filled matrix |
| Day18.ProcessOne | day_18/src/lib.rs:110-124 | panics exactly on empty input; otherwise the surface area of the cubes in a matrix of side `max + 1` |
| Day18.Open | day_18/src/lib.rs:41-75 | the cells kept are exactly the present, empty, unvisited sides, without repeats when the sides have none |
| Day18.VisitSides | day_18/src/lib.rs:36-78 | exactly the empty unvisited neighbours, each once |
| Day18.FloodStarts | day_18/src/lib.rs:20-23 | the queue and visited set holding only the corner satisfy the flood invariant |
| Day18.FloodSets | day_18/src/lib.rs:24-30 | after a round the visited cells are the processed plus the queued ones, each listed once |
| Day18.FloodReach | day_18/src/lib.rs:26-29 | cells queued from a reachable cell are reachable and inside |
| Day18.FloodClosed | day_18/src/lib.rs:26-30 | every air step out of a processed cell lands in the visited set |
| Day18.FloodStep | day_18/src/lib.rs:24-30 | one round keeps the flood invariant |
| Day18.ReachedDone | day_18/src/lib.rs:24-31 | once closed, every cell reachable from the start has been visited |
| Day18.FloodDone | day_18/src/lib.rs:24-33 | with the queue empty the processed cells are exactly the cells reachable from the start |
| Day18.Enqueue | day_18/src/lib.rs:27-30 | the new cells are marked and queued in order, each taking a cell off the unseen ones |
| Day18.Spread | day_18/src/lib.rs:24-30 | one round adds the popped cell's solid neighbours, keeps the invariant and lowers the termination measure |
| Day18.CheckAirBubbles | day_18/src/lib.rs:19-34 | the result is the total of solid neighbours over an enumeration, without repeats, of exactly the air cells reachable from the corner |
| Day18.BorderIsAir | day_18/src/lib.rs:131-136 | part two's outer layer is empty, so the corner is outside air |
| Day18.CubesPlaced | day_18/src/lib.rs:136 | every input cube is a solid cell of part two's matrix, moved one inwards |
| Day18.ProcessTwo | day_18/src/lib.rs:125-138 | panics exactly on empty input; otherwise the faces of cubes touched by the air flooded from the corner |
| Day19.MaxOreIsMax | day_19/src/lib.rs:64 | `max_ore` is one of the four ore costs and at least each of them |
| Day19.TickCollects | day_19/src/lib.rs:84-90 | a tick adds each robot count to its resource and one minute, changing nothing else |
| Day19.Choices | day_19/src/lib.rs:129-161 | a state has between one and four choices |
| Day19.ChoicesAllowed | day_19/src/lib.rs:129-161 | the choices tried are exactly the allowed ones: a geode robot alone when affordable, otherwise each affordable robot (ore ones only below `max_ore`) and waiting |
| Day19.Conditions | day_19/src/lib.rs:129-151 | the tests written in `bfs` are exactly the affordability and `max_ore` rules |
| Day19.Builds | day_19/src/lib.rs:129-161 | one built state per choice |
| Day19.BuildsAt | day_19/src/lib.rs:130-160 | each built state is the state that choice builds |
| Day19.Successors | day_19/src/lib.rs:129-161 | one successor per choice |
| Day19.SuccessorsAllowed | day_19/src/lib.rs:129-161 | a state is queued after `s` exactly when some allowed choice builds it |
| Day19.SuccessorStep | day_19/src/lib.rs:130-160 | each successor is one minute later, loses no robot, gains at most one, and has the old geodes plus one per geode robot |
| Day19.RunTime | day_19/src/lib.rs:110-161 | a run of `n` choices from the start ends at minute `n` |
| Day19.RunSnoc | day_19/src/lib.rs:129-161 | one more allowed choice extends a run by its successor |
| Day19.Weight | day_19/src/lib.rs:118-162 | every weight is positive, so each queued state counts toward the termination measure |
| Day19.LoadAppend | day_19/src/lib.rs:135-160 | the weight of a queue is additive under appending |
| Day19.LoadSame | day_19/src/lib.rs:129-161 | states at one minute weigh their count times one weight |
| Day19.LoadSuccessors | day_19/src/lib.rs:129-161 | the at most four successors weigh less than the state they replace, so the search ends |
| Day19.BuildsSnoc | day_19/src/lib.rs:135-160 | building one more choice appends its state |
| Day19.Expand | day_19/src/lib.rs:129-161 | the branch that pushes copies of the state pushes exactly its successors, in order |
| Day19.QueueNext | day_19/src/lib.rs:129-161 | each successor of a state before the limit is reached along its path plus one allowed choice, one minute later |
| Day19.RunsAppend | day_19/src/lib.rs:135-160 | appending successors keeps every queued state on its path |
| Day19.Witnessed | day_19/src/lib.rs:119 | a run within the limit makes its geode count achievable |
| Day19.Bfs | day_19/src/lib.rs:109-164 | `bfs` terminates, and its answer is the geode count at the end of some run of allowed choices from one ore robot within the limit |
| Day19.QualitySnoc | day_19/src/lib.rs:168-171 | one more blueprint adds its geodes times its 1-based position |
| Day19.ProductSnoc | day_19/src/lib.rs:175-178 | one more blueprint multiplies the product by its geodes |
| Day19.ProcessOne | day_19/src/lib.rs:166-172 | fails exactly on an empty list, else the sum of achievable geode counts in 24 minutes times their positions |
| Day19.ProcessTwo | day_19/src/lib.rs:173-179 | fails exactly on an empty list, else the product of achievable geode counts in 32 minutes for the first three blueprints |
| Day20.Tagged | day_20/src/lib.rs:2-6 | each number is paired with its index in the file, multiplied by the key |
| Day20.RustRem | day_20/src/lib.rs:12 | the remainder of `i64` `%` lies strictly between `-m` and `m` and is non-negative for a non-negative dividend |
| Day20.RustRemEuclidean | day_20/src/lib.rs:12 | the truncating remainder is the Euclidean one, minus `m` exactly for a negative dividend that is not a multiple |
| Day20.TargetIsEuclidean | day_20/src/lib.rs:11-12 | the double remainder always lands in `[0, size)` and equals the mathematical remainder of `index + value` |
| Day20.FirstTag | day_20/src/lib.rs:10 | `position` finds the first entry carrying the tag |
| Day20.RemoveInsert | day_20/src/lib.rs:13-14 | `insert` then `remove` at one index gives the vector back, and `insert` adds exactly one entry |
| Day20.RemoveMultiset | day_20/src/lib.rs:13 | `remove` takes exactly the entry at the index |
| Day20.MoveEntry | day_20/src/lib.rs:13-14 | after moving, the entry sits at the target, the others keep their relative order, and nothing is lost or duplicated |
| Day20.MixOneMovesEntry | day_20/src/lib.rs:9-15 | with distinct tags, the number moved is the one named, and it lands at its old index plus its value, modulo `n - 1` |
| Day20.MixOneAt | day_20/src/lib.rs:10-14 | moving a number removes it from its first tagged position and inserts it at `(index + value) mod (n - 1)` |
| Day20.MixOne | day_20/src/lib.rs:10-14 | one move keeps the length and the entries; the entry first carrying the tag ends at its old index plus its value modulo `n - 1`, with the others in their old order |
| Day20.MixAll | day_20/src/lib.rs:9-15 | part of a pass keeps the length and the entries |
| Day20.MixAllStep | day_20/src/lib.rs:9-15 | each move of the pass finds its number in the arrangement and moves it |
| Day20.Rounds | day_20/src/lib.rs:32-40 | mixing rounds only rearrange: the length and every entry are kept |
| Day20.FirstZero | day_20/src/lib.rs:16 | `position` finds the first 0 |
| Day20.CycleNthIsMod | day_20/src/lib.rs:17-19 | `cycle().skip(i).nth(k)` is the entry at `(i + k) mod n` |
| Day20.GroveSumAt | day_20/src/lib.rs:16-20 | the answer adds the values at 1000, 2000 and 3000 past the first 0, modulo the length |
| Day20.ZeroKept | day_20/src/lib.rs:16 | a rearrangement of the tagged numbers holds a 0 exactly when the file does, as the key is not 0 |
| Day20.Decrypt | day_20/src/lib.rs:1-46 | panics exactly when there are fewer than two numbers or no 0; otherwise the grove sum after the requested rounds of mixing by the key |
| Day20.ProcessOne | day_20/src/lib.rs:1-22 | `process1` panics exactly for fewer than two numbers or no 0, and is otherwise the grove sum after one round of mixing the numbers as they are |
| Day20.ProcessTwo | day_20/src/lib.rs:23-46 | `process2` panics in the same cases, and is otherwise the grove sum after ten rounds of mixing the numbers multiplied by 811589153 |
| Day20.Mix | day_20/src/lib.rs:32-40 | the `for` loop performs exactly the requested rounds |
| Day20.MixPass | day_20/src/lib.rs:9-15 | the `for_each` moves every number once, in the file's order |
| Day20.MixEntry | day_20/src/lib.rs:10-14 | the body locates, removes and re-inserts exactly as one move specifies |
| Day20.NewIndex | day_20/src/lib.rs:11-12 | the new index is the double remainder and lies below the size |
| Day20.SampleTagged | day_20/src/lib.rs:67-77 | the sample file tags as expected |
| Day20.SampleAnswer | day_20/src/lib.rs:67-77 | one pass over the sample puts the first 0 at index 5, and the grove values add up to 3 |
| Day22.Indent | day_22/src/lib.rs:18 | `space0` takes exactly the leading spaces and tabs |
| Day22.TabIndent | day_22/src/lib.rs:17-26 | a line "\t#." parses as an off-map tile, a wall and open ground |
| Day22.MazeLine | day_22/src/lib.rs:17-26 | a line parses exactly when everything after its indent is '#' or '.', and then each leading space or tab is off the map, '#' a wall and '.' open ground, tile for character |
| Day22.FirstOnMap | day_22/src/lib.rs:33-36 | the first tile on the map, or 0 when there is none |
| Day22.EmptyPrefix | day_22/src/lib.rs:35 | the first tile from `i` on that is not off the map |
| Day22.Maze | day_22/src/lib.rs:28-43 | the map parses exactly when every line does; the rows kept are the non-empty ones, each ranging from its first tile on the map to its end |
| Day22.Facing | day_22/src/lib.rs:263-268 | each facing's password value is below 4 |
| Day22.TurnValues | day_22/src/lib.rs:63-119 | a left turn takes one from the facing value and anything else in the turn slot adds one, modulo 4; the values are distinct |
| Day22.TurnsRestore | day_22/src/lib.rs:63-119 | four turns one way restore the facing, and a left turn undoes a right turn |
| Day22.Unslotted | day_22/src/lib.rs:56-62 | an even-length list, or a turn in a count slot, is rejected |
| Day22.Plan | day_22/src/lib.rs:55-135 | one leg per count slot; the first walks right, each later one its count in the facing after the turns so far |
| Day22.LegsNext | day_22/src/lib.rs:58-121 | each `scan` step appends the pair's count walked after its turn |
| Day22.Accepted | day_22/src/lib.rs:56-134 | when the pairs run out exactly, the list is accepted and the first count facing right followed by the scanned legs is the plan |
| Day22.FormSteps | day_22/src/lib.rs:55-135 | `form_steps` panics exactly when the list is empty, has a turn where a count belongs or ends on a turn; otherwise it returns the plan |
| Day22.Advance | day_22/src/lib.rs:173-174 | `take(steps + 1).take_while(open)` makes a well-defined number of moves |
| Day22.RunUnique | day_22/src/lib.rs:173-175 | the number of moves made is determined |
| Day22.StopsBefore | day_22/src/lib.rs:174 | a walk stops before its first closed cell |
| Day22.Slide | day_22/src/lib.rs:168-176 | `last().unwrap()` panics exactly when the cycle is empty or its first cell is closed; otherwise the walk ends on an open cell after stopping at its first wall or after `steps` moves |
| Day22.TopFrom | day_22/src/lib.rs:193-196 | `position` finds the first row whose range holds the column |
| Day22.BottomBefore | day_22/src/lib.rs:197-202 | the length minus the position from the back is one past the last row whose range holds the column |
| Day22.WalkRight | day_22/src/lib.rs:167-178 | walking right stays in the row and lands on open ground in its range |
| Day22.WalkLeft | day_22/src/lib.rs:179-191 | walking left stays in the row and lands on open ground in its range |
| Day22.WalkDown | day_22/src/lib.rs:192-211 | walking down stays in the column and lands on open ground |
| Day22.WalkUp | day_22/src/lib.rs:212-234 | walking up stays in the column and lands on open ground |
| Day22.Rightwards | day_22/src/lib.rs:168-174 | the cycle of a row's range left to right: one entry per cell, true exactly on open ground |
| Day22.Leftwards | day_22/src/lib.rs:180-187 | the same cycle right to left |
| Day22.Downwards | day_22/src/lib.rs:203-207 | the rows of the column's span top to bottom, true exactly on open ground |
| Day22.Upwards | day_22/src/lib.rs:223-229 | the same rows bottom to top |
| Day22.WalkStep | day_22/src/lib.rs:161-236 | whenever `walk_step` does not panic it lands on open ground |
| Day22.WalkFromOpen | day_22/src/lib.rs:161-236 | a step from open ground never panics |
| Day22.RightFromOpen | day_22/src/lib.rs:167-178 | walking right from open ground never panics |
| Day22.LeftFromOpen | day_22/src/lib.rs:179-191 | walking left from open ground never panics |
| Day22.DownFromOpen | day_22/src/lib.rs:192-211 | walking down from open ground never panics |
| Day22.UpFromOpen | day_22/src/lib.rs:212-234 | walking up from open ground never panics |
| Day22.Trail | day_22/src/lib.rs:243-245 | after at least one leg the position is open ground |
| Day22.TrailFromOpen | day_22/src/lib.rs:242-245 | walking any legs from open ground never panics and ends on open ground |
| Day22.WalkMaze | day_22/src/lib.rs:238-247 | the loop applies the legs in order from the first row's range start and reports the last leg's facing |
| Day22.MaxLen | day_22/src/lib.rs:251 | the longest row length bounds every row and is one of them |
| Day22.Widen | day_22/src/lib.rs:254-256 | padding keeps the range and the tiles and adds off-map tiles up to the width |
| Day22.WidenFramed | day_22/src/lib.rs:252-257 | a stored row, padded, has open ground or walls only inside its range |
| Day22.Pad | day_22/src/lib.rs:252-257 | the padding loop widens every row to the width, leaving a square map |
| Day22.PasswordDecode | day_22/src/lib.rs:261-268 | on a map under 250 columns wide the password gives back the 1-based row, the 1-based column and the facing |
| Day22.Padded | day_22/src/lib.rs:251-257 | padding to the longest row keeps the row count and makes the map square |
| Day22.PaddedStart | day_22/src/lib.rs:242 | padding keeps the start on open ground |
| Day22.AnswerLands | day_22/src/lib.rs:249-269 | a parsed map whose first row starts on open ground and an accepted instruction list always give a password, naming open ground and the last leg's facing |
| Day22.ProcessOne | day_22/src/lib.rs:249-269 | `process1` is the password of the walk, `None` exactly where the source panics |
| Day23.Elves | day_23/src/lib.rs:56-64 | an elf stands at (x, y) exactly when row y has a '#' at a character starting at byte offset x, the index `char_indices` reports |
| Day23.ElvesAscii | day_23/src/lib.rs:56-64 | on ASCII rows the byte offset is the column: an elf stands at (x, y) exactly when row y has a '#' at character x |
| Day23.ElvesByteOffset | day_23/src/lib.rs:58-60 | in "é#" the elf is at byte offset 2, one past its character index |
| Day23.CheckDirection | day_23/src/lib.rs:15-27 | a step is proposed towards `d` exactly when that side's three cells are empty, and it is the neighbouring cell on that side |
| Day23.FindMapFirst | day_23/src/lib.rs:49-51 | `find_map` finds nothing exactly when no remaining side of the rotation is free, and otherwise the step towards the first free one |
| Day23.AllFreeAlone | day_23/src/lib.rs:34-46 | all four sides free is the same as all eight neighbours empty |
| Day23.MoveTo | day_23/src/lib.rs:29-53 | an elf proposes nothing exactly when it is alone or boxed in on every side, and otherwise the step towards its first free side in the rotation |
| Day23.ProposalEmpty | day_23/src/lib.rs:29-53 | a proposed cell holds no elf |
| Day23.UniqueCount | day_23/src/lib.rs:70-79 | an elf is the only one to propose its cell exactly when the proposal count kept by the `fold` is 1 |
| Day23.MovesSound | day_23/src/lib.rs:67-81 | every move leaves from an elf, lands on an empty cell, and no two moves share a target |
| Day23.StillNoMoves | day_23/src/lib.rs:142 | `changes` is empty exactly when no elf is the sole proposer of its cell |
| Day23.ApplyStep | day_23/src/lib.rs:83-90 | each removal finds its elf and each insertion lands on a free cell, so neither message is printed |
| Day23.ImageAll | day_23/src/lib.rs:83-90 | once every move is applied, the cells arrived at are the targets |
| Day23.InjectiveValues | day_23/src/lib.rs:67-81 | moves with distinct targets arrive at as many cells as they leave |
| Day23.MovedSize | day_23/src/lib.rs:83-90 | applying sound moves keeps the number of elves |
| Day23.Step | day_23/src/lib.rs:66-91 | a round keeps the number of elves |
| Day23.Apply | day_23/src/lib.rs:83-90 | the `for_each` leaves exactly the unmoved elves plus the targets, in any order of the moves, and the same number of elves |
| Day23.IterateStep | day_23/src/lib.rs:66-92 | one round advances the rotation by one |
| Day23.FirstStillAfterStep | day_23/src/lib.rs:124-155 | a round with moves passes the search on to the next round |
| Day23.FirstStillAfterFirst | day_23/src/lib.rs:124-155 | the round found is the first without moves, and none means every round considered has moves |
| Day23.FirstStillFromOne | day_23/src/lib.rs:124 | numbered from 1, the round returned is the first without moves |
| Day23.Round | day_23/src/lib.rs:67-91 | one round reports whether any elf moves, applies the moves and keeps the number of elves |
| Day23.Bounds | day_23/src/lib.rs:93-104 | the `minmax` panics exactly with no elves, and otherwise is the tight bounding box |
| Day23.Simulate | day_23/src/lib.rs:66-92 | the `for` loop runs exactly the requested rounds, keeping the number of elves |
| Day23.ProcessOne | day_23/src/lib.rs:55-109 | panics exactly with no elves; otherwise the empty cells of the tight bounding box after ten rounds |
| Day23.ProcessTwo | day_23/src/lib.rs:111-157 | `process2` is the first round with no moves, searching the rounds 1 to 2147483646 that `1..` on `i32` yields before its counter overflows |
| Day23.FirstStill | day_23/src/lib.rs:124-155 | the loop stops at the first round without moves, or reports none after the allowed rounds |
| Day23.ProcessTwoFirst | day_23/src/lib.rs:124-144 | the answer is a round without moves and every earlier round has moves; none means every round from 1 to 2147483646 has moves |
| Day24.ParseCell | day_24/src/lib.rs:176-183 | exactly the six characters parse; anything else panics |
| Day24.ParseCellMeaning | day_24/src/lib.rs:176-183 | '#' is a wall, '.' a clear cell and each arrow a cell holding exactly the blizzard it draws |
| Day24.ParseRow | day_24/src/lib.rs:174-187 | a line parses exactly when each character does, cell for character |
| Day24.ParseRows | day_24/src/lib.rs:172-188 | the input parses exactly when each line does, row for line |
| Day24.FirstClear | day_24/src/lib.rs:193-195 | `position` finds the first clear cell of a row, and none when the row has none |
| Day24.Pick | day_24/src/lib.rs:54-58 | the search of a cell's slots finds a blizzard of the kind exactly when the cell holds one |
| Day24.CycleNeighbours | day_24/src/lib.rs:51-127 | the wrap-around cases of `find` are the next and previous index modulo the inside size |
| Day24.Find | day_24/src/lib.rs:50-129 | a cell's next blizzards: Left from the cell to its right, Right from its left, Up from below and Down from above, wrapping at the walls |
| Day24.Ticked | day_24/src/lib.rs:31-48 | a tick keeps the valley walled and its size |
| Day24.TickedCells | day_24/src/lib.rs:37-43 | each inside row after a tick is a wall, the arriving blizzards of every inside column, and a wall |
| Day24.TickedFrame | day_24/src/lib.rs:34-46 | a tick copies the first and last rows and keeps the side walls |
| Day24.TickedHolds | day_24/src/lib.rs:37-43 | after a tick a cell holds a blizzard of a kind exactly when its source cell, one step against that kind's direction modulo the inside, held one |
| Day24.SumAppend | day_24/src/lib.rs:31-48 | totals add under concatenation |
| Day24.SumRotate | day_24/src/lib.rs:51-127 | rotating a sequence keeps its total |
| Day24.Marks | day_24/src/lib.rs:39-41 | one mark per inside cell |
| Day24.RowCounts | day_24/src/lib.rs:37-43 | one count per inside row |
| Day24.TickedMark | day_24/src/lib.rs:51-88 | each mark after a tick comes from the neighbouring column, cyclically |
| Day24.TickedMarksSideways | day_24/src/lib.rs:51-88 | a tick rotates a row's Left marks one place left and its Right marks one place right |
| Day24.TickedMarksVertical | day_24/src/lib.rs:89-127 | a tick takes a row's Up marks from the row below and its Down marks from the row above |
| Day24.TickedRowCountsSideways | day_24/src/lib.rs:51-88 | Left and Right blizzards stay on their row |
| Day24.TickedRowCountsUp | day_24/src/lib.rs:89-107 | the Up counts per row rotate one row up |
| Day24.TickedRowCountsDown | day_24/src/lib.rs:109-127 | the Down counts per row rotate one row down |
| Day24.TickedTotal | day_24/src/lib.rs:31-48 | a tick loses and creates no blizzard: the number of each kind inside the walls is kept |
| Day24.NewPos | day_24/src/lib.rs:130-154 | five candidate moves: left, right, up, down and staying |
| Day24.StepsExact | day_24/src/lib.rs:130-154 | the moves from a position are exactly the clear cells among it and its neighbours, all inside the side walls |
| Day24.Expand | day_24/src/lib.rs:225-228 | after a minute the expedition can be on exactly the clear cells next to or at a cell it could be on before, all inside the side walls |
| Day24.ExpandAdd | day_24/src/lib.rs:225-228 | the fold over one more position adds that position's moves |
| Day24.Spread | day_24/src/lib.rs:225-228 | the fold gathers exactly the moves of every position |
| Day24.Ticks | day_24/src/lib.rs:232 | the valley after any number of ticks stays walled and of one size |
| Day24.Reached | day_24/src/lib.rs:224-234 | where the expedition can be always lies inside the side walls |
| Day24.AbsentBelow | day_24/src/lib.rs:229 | the first minute holding the goal comes after every minute not holding it |
| Day24.AbsentNext | day_24/src/lib.rs:229-233 | one more minute without the goal extends the absence |
| Day24.ReachedNext | day_24/src/lib.rs:225-233 | one more minute is one more spread in the next valley |
| Day24.FirstInUnique | day_24/src/lib.rs:229-230 | the first minute reaching the goal is unique |
| Day24.ArrivesUnique | day_24/src/lib.rs:220-235 | the arrival minute is unique and excludes not arriving within a limit |
| Day24.ReachedSafe | day_24/src/lib.rs:225-233 | the expedition stands only on clear cells of that minute's valley, each next to or at where it was |
| Day24.Field.constructor | day_24/src/lib.rs:212-217 | a field of a walled grid with both ends inside |
| Day24.Field.Tick | day_24/src/lib.rs:31-48 | `tick` replaces the grid by the next minute's and keeps it walled |
| Day24.Field.Leg | day_24/src/lib.rs:220-235 | a crossing returns the first minute whose moves reach the goal, leaving the grid ticked that many times, or none within the limit |
| Day24.Field.FindPath | day_24/src/lib.rs:220-235 | `find_path` returns the first arrival minute at the exit, or none within the limit |
| Day24.Field.FindPaths | day_24/src/lib.rs:237-279 | `find_paths` is the sum of three crossings, each starting in the valley the previous one left |
| Day24.ParseField | day_24/src/lib.rs:171-218 | `parse` panics exactly on a bad character, no rows, or no clear cell in the top or bottom row; otherwise the entrance and exit are the first clear cells of those rows and the width the top row's length |
| Day24.ClearIsDot | day_24/src/lib.rs:178 | in a parsed row the clear cells are exactly the '.' characters |
| Day24.ClearInside | day_24/src/lib.rs:130-154 | a clear cell of a walled valley lies inside the side walls |
| Day24.ProcessOne | day_24/src/lib.rs:281-284 | `process1` on a walled valley is the first arrival minute at the exit; a failed parse or an unwalled valley gives `None`, and otherwise `None` means no arrival within the limit |
| Day24.ProcessTwo | day_24/src/lib.rs:286-289 | `process2` is the sum of the three crossings; a failed parse or an unwalled valley gives `None`, and otherwise `None` means some crossing does not arrive within the limit |
| Day25.ReverseAt | day_25/src/lib.rs:5 | `chars().rev()` puts the `k`-th character from the right at index `k` |
| Day25.FoldDigitsValue | day_25/src/lib.rs:5-15 | the fold over the reversed digits adds the numeral's value times the starting power of five |
| Day25.FoldDigitsFails | day_25/src/lib.rs:7-13 | the fold panics exactly when some character is not a SNAFU digit |
| Day25.DecodeLine | day_25/src/lib.rs:4-16 | a line decodes to its SNAFU value, read most significant digit first, exactly when all its characters are SNAFU digits, and panics otherwise |
| Day25.ReverseAll | day_25/src/lib.rs:5 | `chars().rev()` holds every character of the line, mirrored |
| Day25.Sum | day_25/src/lib.rs:1-18 | `sum` succeeds exactly when every line decodes |
| Day25.Carry | day_25/src/lib.rs:26-50 | what is left after the lowest digit is smaller than a positive number, and five times it plus the digit gives the number back |
| Day25.SnafuOutput | day_25/src/lib.rs:20-57 | `snafu_output` panics exactly on a negative number, and otherwise returns its canonical SNAFU numeral |
| Day25.Emit | day_25/src/lib.rs:23-52 | one turn of `from_fn` emits the lowest digit of a positive number and leaves its carry; on a negative number it panics or moves closer to zero |
| Day25.Encode | day_25/src/lib.rs:20-57 | the numeral produced is SNAFU, has the number's value and no leading zero |
| Day25.SnocValue | day_25/src/lib.rs:5-15 | appending a digit multiplies the value by five and adds the digit |
| Day25.LowDigit | day_25/src/lib.rs:26-50 | the lowest digit and the carry put the number back together, and the top digit is positive |
| Day25.DecodeEncode | day_25/src/lib.rs:59-62 | decoding the encoded sum gives the sum back |
| Day25.Process1 | day_25/src/lib.rs:59-62 | `process1` panics exactly when a line holds another character or the total is negative; otherwise its answer is the canonical numeral `Encode` of the total (no leading zero, "" for 0), which decodes to the total of the lines |
| Day25.SampleEncoding | day_25/src/lib.rs:86-122 | the example total 4890 is written `2=-1=0` |

## Left out

- Parsing: the `nom` combinators, `lines()`/`split` tokenising and `parse::<…>()` calls are not modelled; each model starts from the parsed values (numbers, ranges, moves, packets, commands, instructions, valves, blueprints, sensor reports). Day 22's map lines and Day 23/24's raw lines are the exceptions, since their parsing is a character-level rule the model states.
- File reading, the `Instant` timing in day_12 and every `println!` of debug output (day_7, day_22, day_23) are I/O and are left out; so is the `Display` impl of day_24's `Field`.
- day_21 is not part of this model: all of its arithmetic is `f64`.
- day_22's `process2` and day_25's `process2` are `todo!()` in the source and have no behaviour to model.
- day_15's `proccess_one` is left out: its final formula holds only for one particular input (a single merged interval around 0), and its count of beacons on the row goes with it.
- Day22.ProcessOne: the instruction tokenizer `instructions` is not modelled; the path is given as a list of `Walk` values.
- Fixed-width integers are modelled as unbounded: the `u8` robot and resource counters of day_19, the `u32` flow-times-minutes products of day_16, the `i32` coordinates and products of day_15 and day_23, the `u32` packet numbers of day_13, and the `usize` sums elsewhere. No overflow is modelled, apart from the `i32` round counter of Day23.ProcessTwo (`RoundLimit`). Day 12's `current + 1` on a `u8` height cannot overflow: the largest height is the start mark 254, since the byte 255 never occurs in UTF-8 text.
- Day12.ProcessOne, Day12.ProcessTwo: require the grid's rows to have one width (`Rect`); a ragged grid, where the source's row-major index arithmetic would misread cells, is not modelled. The 'S' = 254 and 'E' = 'z' + 1 encodings are kept as written, so 'S' can step up to anything and 'E' is entered only from 'z' or higher.
- DayEleven.ProcessOne, DayEleven.ProcessTwo: require every divisor to be positive and every target monkey to exist (`ValidMonkeys`), which the puzzle input guarantees; the source would panic otherwise.
- Day16.Explorer.Dfs, Day16.Explorer.Dfs2: stated as equal to the recursive specifications `Best` and `Best2`, not as the global optimum of the valve puzzle.
- Day19.Bfs: stated as sound (its answer is reached by some run of allowed choices within the limit), not as optimal; the prune of states more than one geode behind the best is not proved harmless.
- Day15.ProcessTwo: like the source, it looks only for a free cell between two detected cells of a row; a row whose only free cell is in column 0 or column `search_space` gives no answer (the source reports column 0 only by accident, through an empty clamped interval), and `None` then stands for the source's panic.
- DayThree.Priority: `char::is_lowercase` (Unicode's `Lowercase` property) is taken as a parameter, since its tables are not modelled; the results about letters assume only that it agrees with ASCII on ASCII letters.
- Day24.ProcessOne, Day24.ProcessTwo: a parsed grid that is not walled (a rectangle of at least two rows with wall columns on both sides) gives `None`, where the source would index out of range or misbehave. The source loops forever when the exit is never reached; the model tries at most `limit` minutes and then returns `None`.
- Day24.Find: the four blizzard slots are modelled as a sequence, and only which kinds a cell holds is stated, not the slot each kind sits in.
- Day23.ProcessTwo: follows a debug build, where `1..` on `i32` panics when it counts past 2147483646, so `None` (with `RoundLimit`) stands for that panic; a release build wraps the counter to negative round numbers and never stops, which is not modelled.
- DayOne.PartOne, DayOne.PartTwo: return the total as a number; the source returns its decimal text through `to_string()`.
- Day23.CheckDirection: returns only the target cell; the source also returns the elf's own position, which the model keeps as the key of the move map.
- Hash iteration order in day_three, day_7, day_16, day_23 and day_24 is abstracted: sets and maps are mathematical, and the results are proved independent of the order.
- DayThree.ProcessOneDeterminedBySingletons, DayThree.ProcessTwoDeterminedByBadges: when several item types are common, the source's pick depends on hash order; the model takes the pick as a parameter and fixes the answer only when exactly one type is common.
- Samples: the example answers of day_one, day_2, day_4, day_5, day_6, day_20 (part one), day_25 and the prefix example of day_13 are proved. The other days' examples need the puzzle input files or inputs too long to evaluate in proofs, and are not stated.

## Findings

| source | as written | input that shows it | evidently intended | confidence | as-written member | corrected member |
|---|---|---|---|---|---|---|
| day_15/src/lib.rs:68-88 | `merge_ranges` joins two intervals only when an endpoint of one lies in the other, so intervals that touch (`hi + 1 == lo`) stay apart and `proccess_two` takes their row for the one with a free cell | sensors covering `0..=3` and `4..=20` on a row of a search space of 20: the row is fully covered, yet the fold leaves two intervals and the reported x (3) is covered | join intervals that overlap or touch, so that more than one interval after the fold means a real gap | not executed | Day15.TouchingRowReportsCoveredCell (on Day15.Fold / Day15.FoldRanges) | Day15.JoinRanges, Day15.JoinedFoldSeparated, Day15.ProcessTwo |
| day_15/src/lib.rs:29-42, 80-88 | `line_intersections_2` clamps a sensor's reach to `0..=search_space` with `max` and `min` but keeps the interval when the reach lies wholly outside the space, so an empty interval (start above end) enters the fold and counts as a second interval | a row of a search space of 20 with reaches `0..=19` and `25..=30`: the second clamps to the empty `25..=20`, the fold keeps both, and the reported x is 24, outside the space | leave out intervals that clamping empties, so that only detected cells count; the corrected fold drops them | not executed | Day15.EmptyIntervalReportsOutsideSpace (on Day15.Fold) | Day15.JoinedFold, Day15.RowFolded, Day15.ProcessTwo |
