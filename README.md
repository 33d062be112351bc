# Advent of Code solutions in Rust, modelled in Dafny

This project models eighteen puzzle solutions from a Rust Advent of Code
repository: days 1, 2, 4, 5, 6, 7, 9, 10 and 11 of 2022 (`src/bin`), days 3
(with a second, bitmask solution), 8 and 12 and the Infi puzzle of 2022
(`2022/src/bin`), and days 1, 2, 5 and 6 of 2023 (`2023/src/bin`). Each
solution is one module in one file, named after its path (`src_day05.dfy`
holds `SrcDay05`, `y2023_day06.dfy` holds `Y2023Day06`). Four shared
modules hold what the solutions borrow from Rust:

- `Wrappers`: `Option` and `Result`, and `collect` into a `Result`.
- `Text`: the `str` methods the parsers use (`lines`, `split`,
  `split_once`, `split_whitespace`, `trim`, `strip_prefix`, `parse`,
  `to_string`).
- `Seqs`: folds (`sum`, `product`, `max`) and a sort by key.
- `Arith`: facts about Euclidean division.

How the Rust code is carried over:

- A parser that returns `Err` or `None` becomes a function returning
  `Result` or `Option`, with the error text the program builds. A panic
  (`unwrap`, an index out of range, `assert!`, `unreachable!`, an
  unsigned underflow) becomes a precondition.
- Code that updates state in place stays imperative: a class with
  `modifies` clauses (the rope of day 9, the CPU of day 10, the walker of
  the Infi puzzle), an array (the crate stacks of day 5, the monkeys of
  day 11, the range sort of 2023 day 5), or a method with a loop (the race
  searches of 2023 day 6). Each method is proved
  against a pure specification function. Pure code becomes functions.
- Each operation has a partner: its inverse (rendering and parsing back),
  an independent reference definition (a scan for a binary search, a count
  of winning holds for the width of an interval), or an invariant it keeps.
  An all-inputs lemma connects the two.
- The example inputs in each solution's tests are stated as lemmas where
  the verifier can evaluate them.
- Integers are unbounded. Every number parse is bounded by its Rust
  type (`usize` taken as 64-bit, `u32`, `u64`, `i16`, `i32`, `i64`) and
  rejects a number too large for it, as `str::parse` does; the
  arithmetic after parsing is not bounded (see "Left out"). Text is a sequence of characters, one
  per byte, which is exact for the ASCII puzzle inputs.

## Model

| member | source | states |
|---|---|---|
| Wrappers.Collect | 2023/src/bin/day05.rs:27-30 | collecting results succeeds exactly when every one is a success, keeping the values in order; otherwise it gives the first error |
| Wrappers.CollectMap | 2022/src/bin/infi.rs:116 | mapping a parser over the items and collecting succeeds exactly when every item parses, keeping order; otherwise it gives the first item's error |
| Wrappers.CollectMapFirstErr | 2022/src/bin/infi.rs:116 | the error collected is that of the first item that fails |
| Wrappers.CollectMapSnoc | 2022/src/bin/infi.rs:116 | one more item that parses adds its value at the end |
| Wrappers.Context | 2023/src/bin/day05.rs:63 | `context` turns None into an error with the message and keeps a value |
| Text.Lines | 2023/src/bin/day01.rs:5 | `lines` gives no line exactly for the empty text, and no line holds a newline |
| Text.IndexOfAny | src/bin/day09.rs:42 | the index found is the first character from the set, none exactly when no character is in it |
| Text.Find | src/bin/day01.rs:25 | the match found is the first occurrence of the pattern, none exactly when it does not occur |
| Text.Split | 2023/src/bin/day02.rs:72 | `split` gives at least one part, and no part holds a separator |
| Text.JoinSplit | 2023/src/bin/day02.rs:72 | joining the parts of `split` with the separator gives the text back |
| Text.JoinCons | 2023/src/bin/day02.rs:72 | joining a first part with the rest puts one separator between them |
| Text.SplitStr | src/bin/day01.rs:25 | splitting at a string gives at least one part, no part holds the pattern, and the parts joined with the pattern give back the text |
| Text.SplitTerminator | src/bin/day11.rs:73 | `split_terminator` gives no part for the empty text, and no part holds the separator |
| Text.SplitOnce | 2023/src/bin/day02.rs:66 | `split_once` succeeds exactly when the character occurs, and cuts the text at its first occurrence |
| Text.SplitOnceStr | src/bin/day05.rs:96 | nothing iff the pattern does not occur; otherwise the text is the part before, the pattern and the part after, and the part before holds no occurrence, so the cut is at the first one |
| Text.WordLength | 2023/src/bin/day05.rs:28 | the first word runs up to the first whitespace character |
| Text.SplitWhitespace | 2023/src/bin/day05.rs:28 | `split_whitespace` gives only words that are not empty and hold no whitespace |
| Text.SplitWhitespaceWords | src/bin/day07.rs:34 | every part of `split_whitespace` is a word |
| Text.WordLengthOfWord | 2023/src/bin/day05.rs:28 | a word followed by whitespace or the end has its own length as first word |
| Text.SplitWhitespaceJoin | 2023/src/bin/day05.rs:28 | words joined by spaces split back into the same words |
| Text.TrimStart | 2023/src/bin/day02.rs:97 | trimming the start leaves a suffix that does not start with whitespace |
| Text.TrimEnd | 2023/src/bin/day02.rs:97 | trimming the end leaves a prefix that does not end with whitespace |
| Text.Trim | 2023/src/bin/day02.rs:97 | `trim` leaves text that neither starts nor ends with whitespace |
| Text.StripPrefix | src/bin/day11.rs:71 | `strip_prefix` succeeds exactly when the text starts with the prefix, and gives what follows it |
| Text.TrimStartMatches | 2023/src/bin/day02.rs:68 | after `trim_start_matches` the text no longer starts with the pattern |
| Text.DigitValue | 2023/src/bin/day01.rs:11 | a digit's value is below ten |
| Text.DigitChar | 2023/src/bin/day01.rs:10 | the digit written for a value below ten has that value |
| Text.Pow10 | 2023/src/bin/day06.rs:68 | a power of ten is at least one |
| Text.DigitsValueAppend | 2023/src/bin/day06.rs:68-69 | the digits of two numerals written together are worth the first shifted by the second's length plus the second |
| Text.ParseNat | src/bin/day01.rs:14 | an unsigned number parses exactly when it is a non-empty run of digits after an optional `+`, and then has their value |
| Text.ParseInt | 2022/src/bin/infi.rs:28 | a signed number with a leading `-` parses exactly when digits follow, to their negated value; without one it parses as an unsigned number |
| Text.ParseIntIn | 2022/src/bin/infi.rs:28 | a number parses into a bounded integer type exactly when it is a number within the bounds; a non-number is the invalid-digit error and a number above the bound the too-large error |
| Text.ParseNatUpTo | 2023/src/bin/day05.rs:29 | a number parses into an unsigned type exactly when it is a number up to the type's maximum; a non-number is the invalid-digit error and a larger number the too-large error |
| Text.NatToString | 2023/src/bin/day06.rs:66 | `to_string` writes digits, without a leading zero |
| Text.NatToStringValue | 2023/src/bin/day06.rs:66-69 | the digits written are worth the number |
| Text.ParseNatToString | 2023/src/bin/day06.rs:66-69 | a number written and parsed back is the same number |
| Text.IntToString | 2022/src/bin/infi.rs:28 | a signed number is written as at least one character |
| Text.ParseIntToString | 2022/src/bin/infi.rs:28 | a signed number written and parsed back is the same, and is one word |
| Text.ParseNegative | 2022/src/bin/infi.rs:28 | a minus sign before a written number parses as its negation |
| Seqs.SumAppend | src/bin/day01.rs:20 | the sum of two sequences joined is the sum of their sums |
| Seqs.SumNonNegative | src/bin/day01.rs:20 | a sum of non-negative numbers is non-negative |
| Seqs.SumBounded | 2023/src/bin/day01.rs:12-13 | a sum of n numbers each between 0 and b is between 0 and b times n |
| Seqs.SumBoundsTerms | 2023/src/bin/day01.rs:12-13 | no term of a sum of non-negative numbers exceeds the sum |
| Seqs.Max | src/bin/day01.rs:29 | `max` is None exactly on an empty sequence, and otherwise an element no smaller than any other |
| Seqs.InsertBy | src/bin/day01.rs:38 | inserting into a sorted sequence keeps it sorted and adds exactly the new element |
| Seqs.ConsSorted | src/bin/day01.rs:38 | an element no larger than a sorted sequence goes before it |
| Seqs.SortBy | src/bin/day01.rs:38 | sorting leaves the sequence sorted by the key and a permutation of what it was |
| Seqs.ConcatSnoc | 2022/src/bin/day12.rs:58 | one more row adds its cells at the end of the flattened grid |
| Seqs.ConcatLength | 2022/src/bin/day12.rs:58 | the flattened grid has as many cells as all rows together |
| Seqs.Shape | 2022/src/bin/day12.rs:58 | `from_shape_vec` with the right cell count gives that many rows of the given width |
| Seqs.ShapeConcat | 2022/src/bin/day12.rs:58 | rows of one width, flattened and shaped again, come back as the same rows |
| SrcDay01.ElfFromInput | src/bin/day01.rs:13-17 | an elf parses exactly when every line of its block is a `usize` (64-bit), and then holds those numbers in order |
| SrcDay01.TotalCal | src/bin/day01.rs:19-21 | the total is at least every single amount, and 0 for an elf with none |
| SrcDay01.TotalCalAppend | src/bin/day01.rs:19-21 | the total of two lists joined is the sum of their totals |
| SrcDay01.ParseInput | src/bin/day01.rs:24-26 | the input parses exactly when every blank-line-separated block of the trimmed text does, each number a `usize` (64-bit); there is always at least one block, and elf i is block i |
| SrcDay01.Totals | src/bin/day01.rs:29 | one total per elf, in order |
| SrcDay01.Part1 | src/bin/day01.rs:28-30 | None exactly for no elves; otherwise the total of some elf, at least every elf's total |
| SrcDay01.SortedTotals | src/bin/day01.rs:37-38 | the totals sorted ascending: ordered and a permutation of the elves' totals |
| SrcDay01.Part2 | src/bin/day01.rs:32-41 | None exactly for fewer than three elves; otherwise the sum of the three largest sorted totals |
| SrcDay01.Part2IsTopThree | src/bin/day01.rs:32-41 | the three summed totals are elves' totals and no other elf's total exceeds the least of them |
| SrcDay01.Part2AtLeastPart1 | src/bin/day01.rs:28-41 | with three or more elves the top three together carry at least as much as the top one |
| SrcDay01.ExampleTotals | src/bin/day01.rs:62-86 | the example's five elves total 6000, 4000, 11000, 24000 and 10000 |
| SrcDay01.ExamplePart1 | src/bin/day01.rs:88 | part 1 of the example is 24000 |
| SrcDay02.Inverse | src/bin/day02.rs:24-30 | the inverse of a draw is a draw and of any other outcome the other outcome |
| SrcDay02.InverseInvolution | src/bin/day02.rs:24-30 | inverting twice gives the outcome back |
| SrcDay02.OutcomeScore | src/bin/day02.rs:32-38 | a win scores 6, a loss 0, a draw 3 |
| SrcDay02.OutcomeFromXyz | src/bin/day02.rs:41-50 | accepts exactly X, Y and Z; anything else is the "Unexpected … where XYZ was expected" error |
| SrcDay02.Play | src/bin/day02.rs:62-68 | a win exactly when the first shape beats the second, a draw exactly for equal shapes, a loss exactly when the second beats the first |
| SrcDay02.PlayAntisymmetric | src/bin/day02.rs:168-172 | playing a against b is the inverse of playing b against a, for all shapes |
| SrcDay02.RpsScore | src/bin/day02.rs:74-80 | a shape scores 1 to 3 |
| SrcDay02.ScoreGame | src/bin/day02.rs:70-72 | a round scores the shape's score plus the outcome's, between 1 and 9 |
| SrcDay02.ScoreGameTotal | src/bin/day02.rs:70-72 | the two players' scores of one round add up to their shapes' scores plus 6 |
| SrcDay02.ResponseUnique | src/bin/day02.rs:82-91 | exactly one shape gets a given outcome against a given shape |
| SrcDay02.ChooseToGetOutcome | src/bin/day02.rs:82-91 | the scan over Rock, Paper, Scissors returns the shape that gets the outcome (the unreachable! is never reached) |
| SrcDay02.FromAbc | src/bin/day02.rs:93-100 | accepts exactly A, B and C; anything else is the "Unexpected … where ABC was expected" error |
| SrcDay02.RpsFromXyz | src/bin/day02.rs:103-112 | accepts exactly X, Y and Z; anything else is the "Unexpected … where XYZ was expected" error |
| SrcDay02.ParseLine | src/bin/day02.rs:114-120 | a line without a space is the "Weird line" error; a line parses exactly when it is two codes around its first space that both parse |
| SrcDay02.ParseInput | src/bin/day02.rs:122-124 | the trimmed input parses exactly when every line does, giving one round per line in order |
| SrcDay02.Part1 | src/bin/day02.rs:126-132 | the total lies between 1 and 9 points per round, and no round's score exceeds it |
| SrcDay02.Part2 | src/bin/day02.rs:134-141 | the total lies between 1 and 9 points per round, and no round's score, with the response chosen for its outcome, exceeds it |
| SrcDay02.Choices | src/bin/day02.rs:138 | each round keeps the elf's shape and picks a shape that gets the wanted outcome |
| SrcDay02.Part2IsPart1OfChoices | src/bin/day02.rs:134-141 | part 2 is part 1 scored on the chosen shapes |
| SrcDay02.Part2Meaning | src/bin/day02.rs:134-141 | each round adds its chosen shape's score and its outcome's score to part 2 |
| SrcDay02.Example | src/bin/day02.rs:174-188 | the example's rounds score 15 points in part 1 and 12 in part 2 |
| SrcDay02.ExampleLines | src/bin/day02.rs:162-165 | each of the test lines "A Y", "B X" and "C Z" parses, read as shapes, to the rounds Example scores in part 1 and, read as outcomes, to those it scores in part 2 |
| SrcDay04.ParseRange | src/bin/day04.rs:6-9 | a section range is the two `u32` numbers around the first '-' (text without a '-' or with a non-number is a panic, a precondition here) |
| SrcDay04.ParseGroup | src/bin/day04.rs:14-17 | a line is the two ranges around its first ',' |
| SrcDay04.ParseInput | src/bin/day04.rs:11-19 | one group per line, group i parsed from line i |
| SrcDay04.ContainsStartMeaning | src/bin/day04.rs:30-33 | for a non-empty second range, the `overlap_atall` closure holds exactly when that range holds the first range's start |
| SrcDay04.OverlapFullyMeaning | src/bin/day04.rs:21-27 | for non-empty ranges, `overlap_fully` holds exactly when every section of one range is in the other |
| SrcDay04.OverlapAtAllMeaning | src/bin/day04.rs:29-36 | for non-empty ranges, `overlap_atall` holds exactly when some section is in both |
| SrcDay04.OverlapAtAllEmptyRange | src/bin/day04.rs:29-36 | a group whose second range is empty (5-3) still counts as overlapping, though no section is shared |
| SrcDay04.OverlapSymmetric | src/bin/day04.rs:26 | both overlap tests are symmetric in the two ranges |
| SrcDay04.FullyImpliesAtAll | src/bin/day04.rs:21-36 | for non-empty ranges, a full overlap is an overlap |
| SrcDay04.CountAppend | src/bin/day04.rs:38-44 | counting the groups that pass a test splits over a concatenation |
| SrcDay04.CountIndices | src/bin/day04.rs:38-44 | the count of groups passing a test is the number of their indices |
| SrcDay04.CountBound | src/bin/day04.rs:38-44 | the count of groups passing a test is at most the number of groups |
| SrcDay04.Part1 | src/bin/day04.rs:38-40 | the count is the number of groups one of whose ranges contains the other, and 0 exactly when no group does |
| SrcDay04.Part2 | src/bin/day04.rs:42-44 | the count is the number of groups whose ranges overlap at all, and 0 exactly when no group does |
| SrcDay04.Part1AtMostPart2 | src/bin/day04.rs:38-44 | over non-empty ranges part 1 never exceeds part 2, which never exceeds the number of groups |
| SrcDay04.Example | src/bin/day04.rs:38-44 | the six example groups of the puzzle text give 2 full and 4 partial overlaps (the source's tests do not hold this example) |
| SrcDay05.GetBoth | src/bin/day05.rs:105-115 | the pair holds the elements at the two different positions, in the order asked for, whichever is larger |
| SrcDay05.Step | src/bin/day05.rs:121-127 | a move keeps the number of stacks |
| SrcDay05.Reversed | src/bin/day05.rs:126 | the reversal has the same length and reads the block back to front |
| SrcDay05.StepEffect | src/bin/day05.rs:121-127 | one move takes the top `amount` crates off `from` and puts them on `to`, reversed for the one-at-a-time crane; every other stack is unchanged |
| SrcDay05.Run | src/bin/day05.rs:117-128 | when every move is possible, running them keeps the number of stacks |
| SrcDay05.Tops | src/bin/day05.rs:130 | the answer has at most one char per stack, and when no stack is empty it is the top crate of every stack in order |
| SrcDay05.TopsMeaning | src/bin/day05.rs:130 | `filter_map(last)`: the answer has one char per non-empty stack, and the top of non-empty stack k is at the position that counts the non-empty stacks before k |
| SrcDay05.NonEmptyBeforePrefix | src/bin/day05.rs:130 | counting the non-empty stacks before k looks only at the stacks before k |
| SrcDay05.NonEmptyBeforeStep | src/bin/day05.rs:130 | the count of non-empty stacks grows by one exactly at a non-empty stack |
| SrcDay05.ApplyMoves | src/bin/day05.rs:117-131 | the loop over an array of stacks returns the tops of the stacks after the moves |
| SrcDay05.MoveInPlace | src/bin/day05.rs:121-127 | one move in place leaves the array equal to the specified step |
| SrcDay05.StepTotal | src/bin/day05.rs:121-127 | a move keeps the total number of crates |
| SrcDay05.RunTotal | src/bin/day05.rs:117-128 | a run of moves keeps the total number of crates |
| SrcDay05.SingleCrateMove | src/bin/day05.rs:123-127 | moving at most one crate, both cranes give the same stacks |
| SrcDay05.OneAtATime | src/bin/day05.rs:126 | the reversing move equals lifting the crates over one at a time |
| SrcDay05.FirstCrateThenRest | src/bin/day05.rs:126 | a reversing move of n crates is a move of one crate followed by a move of n - 1 |
| SrcDay05.TopsAppend | src/bin/day05.rs:130 | the tops of two lists of stacks are the tops of each, concatenated |
| SrcDay05.FirstIndexError | src/bin/day05.rs:55-68 | `collect` over the index words from a position on: no error iff every word reads as a `usize` equal to its position plus one; otherwise the error of a word that does not, with every earlier word reading |
| SrcDay05.CheckIndex | src/bin/day05.rs:58-65 | one index word is accepted iff it reads as a `usize` equal to its position plus one; otherwise its error is the not-an-int or the out-of-order message |
| SrcDay05.StackCount | src/bin/day05.rs:54-68 | the index row is accepted iff its words read 1, 2, 3, …, giving their number; otherwise the error is that of the first bad word (not an int, or out of order) |
| SrcDay05.PushRowMeaning | src/bin/day05.rs:74-88 | a row of crates succeeds iff every crate is in an existing column and holds one char, and then each crate is pushed on the stack after its column |
| SrcDay05.PushRowsMeaning | src/bin/day05.rs:73-89 | the rows succeed iff each fits, and then every stack holds its column read from the bottom row up |
| SrcDay05.StacksOfFromCount | src/bin/day05.rs:51-92 | with a good index row, parsing the stacks is pushing the crate rows onto that many empty stacks plus stack 0 |
| SrcDay05.StacksOfErrors | src/bin/day05.rs:54-68 | no lines gives "Stacks were empty"; a bad index row gives its error |
| SrcDay05.StacksOfMeaning | src/bin/day05.rs:51-92 | with n stacks named, parsing succeeds iff every crate row fits n columns, and stack k holds column k - 1 bottom up, stack 0 empty |
| SrcDay05.PushRowInPlace | src/bin/day05.rs:74-88 | the inner loop over an array returns the row's error, or leaves the array equal to the pushed stacks |
| SrcDay05.PushLinesInPlace | src/bin/day05.rs:73-89 | the outer loop over the lines above the index row returns what pushing all rows gives |
| SrcDay05.ParseStacks | src/bin/day05.rs:51-92 | the imperative parse returns the specified stacks or error |
| SrcDay05.ParseInput | src/bin/day05.rs:94-103 | without a blank line the error is "Input is missing segment seperator..."; otherwise it succeeds iff the stacks above and every move line below parse, giving those stacks and one move per line |
| SrcDay05.MovesOf | src/bin/day05.rs:101 | the moves parse iff every line does, one move per line in order |
| SrcDay05.ExampleParse | src/bin/day05.rs:187-211 | the example's three crate rows give the stacks "", "ZN", "MCD", "P" |
| SrcDay05.ExamplePart1 | src/bin/day05.rs:213-218 | the example moves with the one-at-a-time crane give tops "CMZ" |
| SrcDay05.ExamplePart2 | src/bin/day05.rs:213-218 | the example moves with the block crane give tops "MCD" |
| SrcDay05.CrateRows | src/bin/day05.rs:73-74 | every line above the index row gives its row of crates, in order |
| SrcDay05.Empties | src/bin/day05.rs:70 | the stacks start out empty, one per name and one unused at index 0 |
| SrcDay05.NewEmpties | src/bin/day05.rs:55-70 | a fresh array holding the empty stacks, one per name and one unused at index 0 |
| SrcDay05.PileFromEmpty | src/bin/day05.rs:70-89 | pushing the rows onto empty stacks succeeds iff every crate names an existing stack, and then stack k holds column k's crates from the bottom row up, with stack 0 empty |
| SrcDay05.ExampleBottomRow | src/bin/day05.rs:74-88 | the example's bottom row puts Z, M and P on stacks 1, 2 and 3 |
| SrcDay05.ExampleMiddleRow | src/bin/day05.rs:74-88 | the example's middle row adds N and C on stacks 1 and 2 |
| SrcDay05.ExampleTopRow | src/bin/day05.rs:74-88 | the example's top row adds D on stack 2, giving the stacks of the test |
| SrcDay05.ExampleMove1OneByOne | src/bin/day05.rs:213-217 | the first example move with the one-at-a-time crane puts D on stack 1 |
| SrcDay05.ExampleMove2OneByOne | src/bin/day05.rs:213-217 | the second example move with the one-at-a-time crane moves D, N and Z onto stack 3 in reverse |
| SrcDay05.ExampleMove3OneByOne | src/bin/day05.rs:213-217 | the third example move with the one-at-a-time crane moves C and M onto stack 1 |
| SrcDay05.ExampleMove4OneByOne | src/bin/day05.rs:213-217 | the fourth example move with the one-at-a-time crane moves M onto stack 2 |
| SrcDay05.ExampleMove1Block | src/bin/day05.rs:213-218 | the first example move with the block crane puts D on stack 1 |
| SrcDay05.ExampleMove2Block | src/bin/day05.rs:213-218 | the second example move with the block crane moves Z, N and D onto stack 3 in order |
| SrcDay05.ExampleMove3Block | src/bin/day05.rs:213-218 | the third example move with the block crane moves M and C onto stack 1 in order |
| SrcDay05.ExampleMove4Block | src/bin/day05.rs:213-218 | the fourth example move with the block crane moves C onto stack 2 |
| SrcDay05.ExampleFirstMovesOneByOne | src/bin/day05.rs:213-217 | one crate at a time, the first two example moves lead to stacks MC and PDNZ on the last two stacks |
| SrcDay05.ExampleLastMovesOneByOne | src/bin/day05.rs:213-217 | from there the last two moves leave C, M and PDNZ, whose tops read CMZ |
| SrcDay05.ExampleFirstMovesBlock | src/bin/day05.rs:213-218 | moving blocks, the first two example moves lead to stacks MC and PZND on the last two stacks |
| SrcDay05.ExampleLastMovesBlock | src/bin/day05.rs:213-218 | from there the last two moves leave M, C and PZND, whose tops read MCD |
| SrcDay05.RunStep | src/bin/day05.rs:117-128 | running a list of moves is one step and then the rest |
| SrcDay06.IsUniq | src/bin/day06.rs:8-16 | the pairwise check holds exactly when no two bytes of the window are equal |
| SrcDay06.FirstUniqFrom | src/bin/day06.rs:19-21 | `position` from a start: the first end position whose window of n bytes is all different, or None iff there is none |
| SrcDay06.PosAfterNUniq | src/bin/day06.rs:18-23 | the result is the smallest end position whose last n bytes are all different; the error "No unique sequence found" comes exactly when no window is |
| SrcDay06.ShortStream | src/bin/day06.rs:18-23 | a stream shorter than n has no window and gives the error |
| SrcDay06.ExamplePart1 | src/bin/day06.rs:50-62 | the first example stream gives 5 for windows of four |
| SrcDay06.Part1 | src/bin/day06.rs:25-27 | the start-of-packet marker: the first position after four distinct characters, and an error exactly when no window of four is distinct |
| SrcDay06.Part2 | src/bin/day06.rs:29-31 | the start-of-message marker: the same with fourteen characters |
| SrcDay06.Part1NoLaterThanPart2 | src/bin/day06.rs:18-31 | when the message marker exists, the packet marker exists and comes no later |
| SrcDay07.LineShapes | src/bin/day07.rs:33-43 | a line of other than two or three words is "Can't parse line"; commands start with "$" and `ls` is the two-word one; a listing is two words, a dir entry exactly when the first is "dir"; any other two words parse iff the first is a number, else the number's error |
| SrcDay07.LineFromStr | src/bin/day07.rs:30-44 | a parsed line is well formed: a `cd` target and a listed name are single words, a `cd` to a name is not to "/" or "..", and a file size fits a `usize` (64-bit) |
| SrcDay07.LineOfWords | src/bin/day07.rs:34-42 | the same, for a line given as its words |
| SrcDay07.ParseInput | src/bin/day07.rs:61-63 | the terminal output parses iff every line does; line i of the result is the parse of input line i, and every line is well formed |
| SrcDay07.ParsedWellFormed | src/bin/day07.rs:61-63 | every line of a parsed terminal output is well formed |
| SrcDay07.WordShapes | src/bin/day07.rs:34-42 | the same case analysis on the words of a line |
| SrcDay07.LineRoundTrip | src/bin/day07.rs:30-44 | every well-formed line (single-word names, a size that fits a `usize`), rendered as terminal text, parses back to itself |
| SrcDay07.WordsParse | src/bin/day07.rs:34 | a text whose words are those of a well-formed line parses to that line |
| SrcDay07.WordsOfLine | src/bin/day07.rs:34-42 | the words of a well-formed line match the arm that builds it |
| SrcDay07.SizeWords | src/bin/day07.rs:40 | a size and a name parse to that file entry |
| SrcDay07.UpdatePwd | src/bin/day07.rs:65-79 | `cd /` empties the path, `cd ..` drops the last directory or fails in `/` with "Did a `cd ..` in `/`", `cd d` appends d, `ls` keeps the path and starts listing; every command but `ls` waits for `ls` |
| SrcDay07.Cd | src/bin/day07.rs:65-79 | a `cd` fails exactly when it goes up from the root, with the error "Did a `cd ..` in `/`" |
| SrcDay07.CdDirThenParent | src/bin/day07.rs:68-72 | `cd d` then `cd ..` returns to the same path |
| SrcDay07.CdDepth | src/bin/day07.rs:67-76 | a command other than `cd /` changes the depth by at most one, along the same branch |
| SrcDay07.AddFile | src/bin/day07.rs:112-117 | the loop over prefixes adds a file's size to every prefix of the path, entries starting at 0 |
| SrcDay07.AddedUpTo | src/bin/day07.rs:113-116 | after the first n prefixes, exactly the ancestors shorter than n have gained the size and have an entry |
| SrcDay07.AddedMeaning | src/bin/day07.rs:112-117 | a file adds its size to every directory containing it and to no other |
| SrcDay07.DirSizes | src/bin/day07.rs:87-126 | the imperative walk returns the specified sizes or error |
| SrcDay07.StepLine | src/bin/day07.rs:93-119 | one line of the walk fails exactly on a `cd ..` at the root or a listing line before any `ls`, with the matching error; a listing line keeps the directory, stays in listing mode and marks the directory as listed |
| SrcDay07.Run | src/bin/day07.rs:93-119 | the walk over all lines fails only with one of the two walk errors, and over no lines leaves the state as it is |
| SrcDay07.DirSizesOf | src/bin/day07.rs:87-126 | computing the sizes fails only with a walk error or "Missed a dir" |
| SrcDay07.RootTotal | src/bin/day07.rs:87-126 | the root's size is the sum of all listed file sizes, and the root has an entry iff a file was listed |
| SrcDay07.RootStep | src/bin/day07.rs:93-118 | one line adds its file size, if any, to the root |
| SrcDay07.AddedNested | src/bin/day07.rs:112-117 | adding a file keeps every directory's size at least each subdirectory's |
| SrcDay07.RunNested | src/bin/day07.rs:93-119 | the walk keeps every directory's size at least each subdirectory's |
| SrcDay07.SubdirSmaller | src/bin/day07.rs:87-126 | in the result, every prefix of a directory has an entry at least as large |
| SrcDay07.DirsMeaning | src/bin/day07.rs:104-110 | a directory is recorded iff it was listed or named in a listing, and marked visited iff it was listed |
| SrcDay07.MissedMeaning | src/bin/day07.rs:121-123 | the walk fails with "Missed a dir" iff some directory named in a listing was never listed itself |
| SrcDay07.ListingNeedsLs | src/bin/day07.rs:94-103 | listing output fails with "Ls output where cmd was expected!" exactly when it does not follow `ls` |
| SrcDay07.SumAtMostPick | src/bin/day07.rs:84 | the filtered sum splits off any one directory |
| SrcDay07.SumAtMostBound | src/bin/day07.rs:84 | the sum of sizes up to the limit is at most the limit times the number of directories |
| SrcDay07.SumAtMostNone | src/bin/day07.rs:84 | when every directory is over the limit the sum is 0 |
| SrcDay07.Part1 | src/bin/day07.rs:81-85 | the walk's error, or the sum of the directory sizes of at most 100000 |
| SrcDay07.MinAtLeast | src/bin/day07.rs:134-139 | the smallest size of at least `need`, None iff there is none |
| SrcDay07.Part2 | src/bin/day07.rs:128-140 | the walk's error, or the size of a directory that frees enough space for the update and no larger than any other such; "no dir with enough size" iff none does |
| SrcDay09.DirFromStr | src/bin/day09.rs:27-35 | exactly "U", "D", "L" and "R" parse, each to the direction named by that letter; anything else is "Illegal move dir" with the text |
| SrcDay09.DirRoundTrip | src/bin/day09.rs:27-35 | every direction's letter parses back to it |
| SrcDay09.Apply | src/bin/day09.rs:18-25 | a step up, down, left or right changes the row or the column by one in that direction |
| SrcDay09.ParseLine | src/bin/day09.rs:41-44 | a line without whitespace is "Invalid line"; otherwise it parses iff the text before the first whitespace is a direction and the rest a `usize` (64-bit), giving that pair |
| SrcDay09.ParseInput | src/bin/day09.rs:38-46 | the motions parse iff every line does, one motion per line in order, each count a `usize` (64-bit) |
| SrcDay09.ParseLineRoundTrip | src/bin/day09.rs:41-44 | the line "D n" parses back to the motion when n fits a `usize` (64-bit) |
| SrcDay09.FollowMeaning | src/bin/day09.rs:60-87 | the case table moves a tail that does not touch the head one step toward it on each axis where they differ, and leaves a touching tail |
| SrcDay09.FollowTouches | src/bin/day09.rs:60-87 | after following, the tail touches the head and its own old cell |
| SrcDay09.StaysNear | src/bin/day09.rs:85 | a head that moves to a touching cell leaves a gap of at most two, so the `unreachable!` arm is never taken |
| SrcDay09.ApplyTouches | src/bin/day09.rs:18-25 | every head step goes to a touching cell |
| SrcDay09.FollowChainRope | src/bin/day09.rs:110-114 | pulling the knots behind a moved front knot keeps a rope (consecutive knots touch), each knot moving to a touching cell |
| SrcDay09.FollowChainFollows | src/bin/day09.rs:110-114 | each knot of the chain follows the new cell of the knot in front of it |
| SrcDay09.MoveRope | src/bin/day09.rs:110-114 | a step keeps the number of knots and moves the head in the direction |
| SrcDay09.MoveRopeRope | src/bin/day09.rs:108-117 | a step keeps a rope a rope |
| SrcDay09.MoveRopeFollows | src/bin/day09.rs:110-114 | after a step every knot is its old cell followed toward the knot in front |
| SrcDay09.RopeAfterRope | src/bin/day09.rs:108-117 | any number of steps keeps a rope a rope |
| SrcDay09.TrailMeaning | src/bin/day09.rs:97-115 | the visited set is exactly the tail's cells after each step |
| SrcDay09.Start | src/bin/day09.rs:91 | the default start, every knot at the origin, is a rope |
| SrcDay09.TrailRepeat | src/bin/day09.rs:95-98 | the cells visited over n steps one way and then more are the union of the two parts |
| SrcDay09.State.constructor | src/bin/day09.rs:48-52 | a fresh state has head and tail at the origin |
| SrcDay09.State.UpdateTail | src/bin/day09.rs:60-87 | the tail moves to where it follows the head; the head stays |
| SrcDay09.State.MoveHead | src/bin/day09.rs:55-58 | the head takes the step and the tail follows it |
| SrcDay09.TwoKnotStep | src/bin/day09.rs:55-58 | with two knots, the state's move is the rope step, and the knots keep touching |
| SrcDay09.StepTimes | src/bin/day09.rs:95-98 | the inner loop leaves the state at the rope after cnt steps and adds the cells the tail visited |
| SrcDay09.StepOnce | src/bin/day09.rs:96-97 | one turn of the inner loop of part 1: the rope is one step further on and the tail's new cell is among the visited |
| SrcDay09.Part1 | src/bin/day09.rs:90-102 | the count is the number of cells the tail of a two-knot rope visits over all motions |
| SrcDay09.StepRope | src/bin/day09.rs:110-114 | one step of the nine states moves the ten-knot rope they hold by one rope step |
| SrcDay09.Lead | src/bin/day09.rs:111 | `states[0].move_head(d)`: the first head takes the step and its tail goes where it follows |
| SrcDay09.Pull | src/bin/day09.rs:112-113 | a state given the knot in front as its head has its tail follow it |
| SrcDay09.PullStep | src/bin/day09.rs:112-113 | one turn of the loop over the states: one more state holds the knots of the moved rope, the rest the old ones |
| SrcDay09.StepRopeTimes | src/bin/day09.rs:109-116 | the inner loop leaves the states at the rope after cnt steps and adds the cells the last tail visited |
| SrcDay09.StepRopeOnce | src/bin/day09.rs:110-115 | one turn of the inner loop of part 2: the ten-knot rope is one step further on and the last tail's new cell is among the visited |
| SrcDay09.NewStates | src/bin/day09.rs:105 | n fresh states chained into a rope of n + 1 knots at the origin |
| SrcDay09.Part2 | src/bin/day09.rs:104-120 | the count is the number of cells the tail of a ten-knot rope visits over all motions |
| SrcDay10.InstructionOfWords | src/bin/day10.rs:18-25 | the words ["noop"] and only they give Nop; "addx" and at least one more word give AddX of that number when it parses as an `i64`, else the number's error; anything else is "Invalid line" with the text |
| SrcDay10.InstructionFromStr | src/bin/day10.rs:15-26 | a parsed instruction's operand fits an `i64`; a failing line gives "Invalid line" with the text or one of the number errors |
| SrcDay10.ParseInput | src/bin/day10.rs:28-30 | the program parses iff every line does, one instruction per line in order, each operand fitting an `i64` |
| SrcDay10.RenderRoundTrip | src/bin/day10.rs:15-26 | every instruction whose operand fits an `i64`, written as program text, parses back to itself |
| SrcDay10.Init | src/bin/day10.rs:40-57 | a new machine has X = 1, nothing waiting, the pointer at 0 and the program given |
| SrcDay10.StepState | src/bin/day10.rs:59-90 | a step keeps the machine well formed and the program; it fails with "Fell of the program" exactly when nothing waits and the pointer is past the end |
| SrcDay10.NopStep | src/bin/day10.rs:81-83 | a noop takes one step and only moves the pointer |
| SrcDay10.AddXSteps | src/bin/day10.rs:60-74 | an addx takes two steps: the first only starts waiting, the second adds its value to X and moves the pointer |
| SrcDay10.RegisterChanges | src/bin/day10.rs:59-90 | X changes only when a waiting addx completes, by its value; the pointer moves by at most one per step |
| SrcDay10.Steps | src/bin/day10.rs:93-102 | any number of steps keeps the machine well formed and the program; the only error is "Fell of the program" |
| SrcDay10.StepsPrefix | src/bin/day10.rs:93-102 | a machine that can take n steps can take every fewer number |
| SrcDay10.RunsForIff | src/bin/day10.rs:93-102 | running for n steps succeeds iff the n-th step does |
| SrcDay10.StepsMore | src/bin/day10.rs:96-101 | a machine that fails within j steps fails within any more |
| SrcDay10.McMachine.Default | src/bin/day10.rs:40-49 | the default machine has the empty program in its initial state |
| SrcDay10.McMachine.WithInstructions | src/bin/day10.rs:52-57 | the machine holds the program in its initial state |
| SrcDay10.McMachine.Step | src/bin/day10.rs:59-90 | the fields change as the specified step says, or stay and the error is "Fell of the program" |
| SrcDay10.RunFor | src/bin/day10.rs:93-102 | X after each of the steps, in order, iff the program runs that long, else "Fell of the program" |
| SrcDay10.Part1 | src/bin/day10.rs:104-111 | the sum of the signal strengths (cycle times X during it) at cycles 20, 60, …, 220, iff the program runs 221 steps |
| SrcDay10.Pixels | src/bin/day10.rs:118-126 | x pixels of a row are x characters |
| SrcDay10.Rows | src/bin/day10.rs:117-128 | y rows are 41 characters each |
| SrcDay10.PixelsAt | src/bin/day10.rs:119-123 | pixel c is lit exactly when the sprite at X covers column c during its cycle |
| SrcDay10.RowsAt | src/bin/day10.rs:117-128 | character col of row `row` of the screen is that pixel, and a newline after 40 |
| SrcDay10.DrawPixel | src/bin/day10.rs:119-125 | drawing a pixel extends the screen by its specified character, or fails with "Fell of the program" when the program stops first |
| SrcDay10.Part2 | src/bin/day10.rs:113-131 | the six rows of the screen iff the program runs 240 steps, else "Fell of the program" |
| SrcDay10.SmallExample | src/bin/day10.rs:150-182 | noop, addx 3, addx -5 leave X at 1, 1, 1, 4, 4, -1 after 0 to 5 steps, and the sixth step falls off the program |
| SrcDay10.SmallExampleLine3 | src/bin/day10.rs:150-158 | the line "addx -5" parses to AddX(-5) |
| SrcDay10.SmallExampleLine1 | src/bin/day10.rs:150-156 | the line "noop" parses to Nop |
| SrcDay10.SmallExampleLine2 | src/bin/day10.rs:150-156 | the line "addx 3" parses to AddX(3) |
| SrcDay10.RenderedParses | src/bin/day10.rs:15-26 | a line written from an instruction whose operand fits an `i64` parses back to it |
| SrcDay10.StepsErr | src/bin/day10.rs:96-101 | a machine that fails within j steps cannot run for any n of at least j |
| SrcDay11.OperationOfWords | src/bin/day11.rs:35-42 | exactly "new = old * old" is Square; "new = old * n" and "new = old + n" are Mul and Add of n when n parses as a `u64`, else the number's error; any other words are "Invalid operation" with the text |
| SrcDay11.OperationFromStr | src/bin/day11.rs:32-43 | a parsed operation's operand fits a `u64`; a failing line gives "Invalid operation" with the text or one of the number errors |
| SrcDay11.OperationRoundTrip | src/bin/day11.rs:32-43 | every operation whose operand fits a `u64`, written out, parses back to itself |
| SrcDay11.OperationWordsParse | src/bin/day11.rs:36-41 | the words of an operation match the arm that builds it |
| SrcDay11.ApplyMod | src/bin/day11.rs:23-29 | applying an operation commutes with reducing modulo m |
| SrcDay11.ItemFromStr | src/bin/day11.rs:74 | an item is the trimmed text read as a `u64` |
| SrcDay11.ItemsLine | src/bin/day11.rs:69-75 | a starting-items line needs its prefix ("unexpected start of starting_items" otherwise); the rest is the comma-separated items, the first failing one's error |
| SrcDay11.ItemsFit | src/bin/day11.rs:69-75 | every item of a parsed starting-items line fits a `u64` |
| SrcDay11.OperationLine | src/bin/day11.rs:77-83 | an operation line needs its prefix ("monkey missing op" otherwise), then the trimmed rest parses as an operation |
| SrcDay11.NumberLine | src/bin/day11.rs:85-107 | a numbered line needs its prefix (its own "missing" message otherwise), then succeeds iff the trimmed rest is a number of the field's type (`u64` for the divisor, `usize` for the targets), giving it |
| SrcDay11.MonkeyOfLines | src/bin/day11.rs:58-121 | no lines is "can not parse empty string to monkey"; a bad first line is "invalid monkey introduction"; six lines whose body parses give that monkey with no inspections; a seventh line is "Monkey contains extra data" |
| SrcDay11.MonkeyFits | src/bin/day11.rs:58-121 | a parsed monkey fits its types (items, operand and divisor `u64`, targets `usize`) and has inspected nothing yet |
| SrcDay11.MonkeyFromStrAsWritten | src/bin/day11.rs:55-121 | as written: a block parses iff it has six lines, the first passes the loose intro check and the body parses; the monkey fits its types |
| SrcDay11.MonkeyFromStr | src/bin/day11.rs:55-121 | corrected: the same with an intro that starts with "Monkey " and ends with ":" |
| SrcDay11.MonkeyBlock | src/bin/day11.rs:166 | a block is trimmed before it is parsed with the corrected intro check of the Findings table; a parsed monkey fits its types |
| SrcDay11.ParseInput | src/bin/day11.rs:163-168 | the notes parse iff every blank-line-separated block does under the corrected intro check, one monkey per block in order, each fitting its types |
| SrcDay11.IntroAsWrittenTooLoose | src/bin/day11.rs:65-67 | the check as written accepts "Monkey 0" and "Elephant:", which the intended check rejects |
| SrcDay11.IntroMeaning | src/bin/day11.rs:65-67 | the intended check accepts every "Monkey n:" and only lines that start "Monkey " and end with ':' |
| SrcDay11.IntroChecksDiffer | src/bin/day11.rs:58-121 | a monkey whose first line only the loose check accepts parses as written and is rejected by the intended parser |
| SrcDay11.FindMod | src/bin/day11.rs:124-129 | with positive divisors the product of all divisors is positive |
| SrcDay11.FindModDivides | src/bin/day11.rs:124-129 | every monkey's divisor divides the product |
| SrcDay11.Worry | src/bin/day11.rs:139-148 | the new worry level is below the modulus |
| SrcDay11.Target | src/bin/day11.rs:151-155 | an item goes to one of the two targets, and, when they differ, to the first exactly when the worry is divisible by the test divisor |
| SrcDay11.Inspect | src/bin/day11.rs:137-159 | an inspection keeps every monkey's rules and a well-formed list |
| SrcDay11.InspectMeaning | src/bin/day11.rs:137-159 | one inspection counts for the inspecting monkey and appends the new worry level to exactly the monkey its test picks |
| SrcDay11.TurnOwn | src/bin/day11.rs:135-160 | after its turn a monkey holds no items and has counted each item it held |
| SrcDay11.InspectTotal | src/bin/day11.rs:158 | an inspection adds one item in flight |
| SrcDay11.TurnTotal | src/bin/day11.rs:134-160 | a turn keeps the total number of items |
| SrcDay11.TurnsTotal | src/bin/day11.rs:134-160 | the turns of the first k monkeys keep the total number of items |
| SrcDay11.RoundTotal | src/bin/day11.rs:131-161 | a round keeps the total number of items |
| SrcDay11.RoundReduced | src/bin/day11.rs:148 | after a round every item held is below the modulus |
| SrcDay11.ReducedTest | src/bin/day11.rs:148-151 | reducing by a multiple of the divisor does not change the test |
| SrcDay11.ReductionSound | src/bin/day11.rs:124-155 | without relief, reducing by the product of the divisors throws every item to the same monkey as the unreduced level, and congruent items behave alike |
| SrcDay11.InspectInPlace | src/bin/day11.rs:137-159 | one inspection in place leaves the array equal to the specified list |
| SrcDay11.TurnInPlace | src/bin/day11.rs:135-160 | one monkey's turn in place leaves the array equal to the specified turn |
| SrcDay11.Round | src/bin/day11.rs:131-161 | a round in place leaves the array equal to the specified round |
| SrcDay11.Counts | src/bin/day11.rs:177 | the counts are the monkeys' inspection counts, in order |
| SrcDay11.Descending | src/bin/day11.rs:178 | the sorted counts are a permutation of the counts, largest first |
| SrcDay11.TopTwoMeaning | src/bin/day11.rs:178-179 | the product is of two counts from the list, and every other count is at most the smaller one: the two largest |
| SrcDay11.InspectionsAfter | src/bin/day11.rs:171-177 | the counts after the given number of rounds, with the product of the divisors as modulus |
| SrcDay11.Part1 | src/bin/day11.rs:170-180 | the product of the two largest counts after 20 rounds with relief |
| SrcDay11.Part2 | src/bin/day11.rs:182-195 | the product of the two largest counts after 10000 rounds without relief |
| SrcDay11.ExampleFirstInspection | src/bin/day11.rs:216-231 | the example's monkey 0 turns item 79 into 500 and throws it to monkey 3 |
| SrcDay11.Throws | src/bin/day11.rs:136-159 | inspecting a monkey's items keeps every monkey's rules and the targets in range |
| SrcDay11.Turn | src/bin/day11.rs:134-160 | a monkey's turn keeps every monkey's rules and the targets in range |
| SrcDay11.Turns | src/bin/day11.rs:133-160 | the turns of the first k monkeys keep every monkey's rules and the targets in range |
| SrcDay11.RoundOf | src/bin/day11.rs:131-161 | a round keeps every monkey's rules and the targets in range |
| SrcDay11.Rounds | src/bin/day11.rs:171-176 | any number of rounds keep every monkey's rules and the targets in range |
| SrcDay11.ThrowsOwn | src/bin/day11.rs:136-140 | while a monkey throws the items it took, its own list stays as it was and its count rises by one per item |
| Y2022Day03.ItemTryFrom | 2022/src/bin/day03.rs:12-22 | exactly the letters are items: a to z have priorities 1 to 26, A to Z 27 to 52; any other byte is "Unexpected item: " with its value |
| Y2022Day03.ItemTryFromInjective | 2022/src/bin/day03.rs:15-21 | different letters have different priorities |
| Y2022Day03.ParseSide | 2022/src/bin/day03.rs:41-42 | a half parses iff all its bytes are letters, to the set of their priorities; otherwise the error of one of its bytes |
| Y2022Day03.RucksackFromStr | 2022/src/bin/day03.rs:30-44 | non-ASCII text is "Input … is not ASCII" and odd-length text "Input length of … is not even", with the text quoted; otherwise it parses iff every byte is a letter, into the item sets of its two halves |
| Y2022Day03.Diff | 2022/src/bin/day03.rs:48-50 | the items in both compartments |
| Y2022Day03.All | 2022/src/bin/day03.rs:52-54 | the items in either compartment |
| Y2022Day03.ParseInput | 2022/src/bin/day03.rs:57-59 | the input parses iff every line does, one rucksack per line |
| Y2022Day03.TheOnly | 2022/src/bin/day03.rs:65-68 | the one element of a one-element set, and the error for any other size |
| Y2022Day03.Part1 | 2022/src/bin/day03.rs:61-71 | succeeds iff every rucksack's halves share exactly one item, else "Diff contains not exactly one item" |
| Y2022Day03.Part1Value | 2022/src/bin/day03.rs:61-71 | the result is the sum of the shared items' priorities |
| Y2022Day03.Badges | 2022/src/bin/day03.rs:77-82 | the items in all three rucksacks of a group |
| Y2022Day03.Chunks3 | 2022/src/bin/day03.rs:75 | the consecutive groups of three, a partial last group dropped |
| Y2022Day03.SumBadges | 2022/src/bin/day03.rs:76-90 | succeeds iff every group has exactly one badge, else "Group contains not exactly one badge" |
| Y2022Day03.SumBadgesValue | 2022/src/bin/day03.rs:76-90 | the sum is that of the groups' badges |
| Y2022Day03.Part2 | 2022/src/bin/day03.rs:73-91 | succeeds iff every complete group of three has exactly one badge |
| Y2022Day03.Part2Value | 2022/src/bin/day03.rs:73-91 | the result is the sum of the badges' priorities |
| Y2022Day03.ExamplePriorities | 2022/src/bin/day03.rs:12-21 | `p` has priority 16 and `L` 38, and the digit `1` is no item, with the error text naming byte 49 |
| Y2022Day03.ParseSideIs | 2022/src/bin/day03.rs:41-42 | a side whose chars are all letters parses to exactly the set of their priorities |
| Y2022Day03.RucksackOfHalves | 2022/src/bin/day03.rs:30-44 | two equal-length halves that parse join into a text that is ASCII, of even length, and parses into a rucksack of exactly those halves |
| Y2022Day03.ExampleLeftHalf | 2022/src/bin/day03.rs:112 | the first half of the test's first rucksack parses to the priorities of v, J, r, w, p, W, t and g |
| Y2022Day03.ExampleRightHalf | 2022/src/bin/day03.rs:112 | the second half of the test's first rucksack parses to the priorities of h, c, s, F, M, f and p |
| Y2022Day03.ExampleFirstParses | 2022/src/bin/day03.rs:112-119 | the test's first rucksack parses into those two halves |
| Y2022Day03.ExampleFirstDiff | 2022/src/bin/day03.rs:121 | the test's first rucksack parses and its halves share only `p`, of priority 16 |
| Y2022Day03Faster.Priority | 2022/src/bin/day03_faster.rs:5-11 | exactly the letters have a priority, between 1 and 52 |
| Y2022Day03Faster.PriorityAgrees | 2022/src/bin/day03_faster.rs:5-11 | the priorities are those of the set-based solution's items |
| Y2022Day03Faster.Or | 2022/src/bin/day03_faster.rs:17-19 | bit k of the `|` is set iff it is set in either word |
| Y2022Day03Faster.And | 2022/src/bin/day03_faster.rs:21-23 | bit k of the `&` is set iff it is set in both words |
| Y2022Day03Faster.Shl1 | 2022/src/bin/day03_faster.rs:44 | `1 << p` has exactly bit p set |
| Y2022Day03Faster.Union | 2022/src/bin/day03_faster.rs:17-19 | the union holds the items of either compartment |
| Y2022Day03Faster.Intersection | 2022/src/bin/day03_faster.rs:21-23 | the intersection holds the items of both compartments |
| Y2022Day03Faster.TrailingZerosFrom | 2022/src/bin/day03_faster.rs:33 | `trailing_zeros` is the lowest set bit, or 64 for no bit |
| Y2022Day03Faster.CountOnesZero | 2022/src/bin/day03_faster.rs:26 | `count_ones` is 0 iff no bit is set |
| Y2022Day03Faster.CountOnesOne | 2022/src/bin/day03_faster.rs:26 | `count_ones` is 1 iff the lowest set bit is the only one |
| Y2022Day03Faster.OnlyBitCount | 2022/src/bin/day03_faster.rs:25-35 | a word with only bit p set counts one bit, p trailing zeros |
| Y2022Day03Faster.SingleItem | 2022/src/bin/day03_faster.rs:25-35 | the error names the number of set bits and the word's value |
| Y2022Day03Faster.SingleItemMeaning | 2022/src/bin/day03_faster.rs:25-35 | succeeds iff exactly one bit is set, and gives that bit |
| Y2022Day03Faster.ItemOf | 2022/src/bin/day03_faster.rs:43-44 | the bit of a byte is below 64, and 0 exactly for a non-letter |
| Y2022Day03Faster.ItemBit | 2022/src/bin/day03_faster.rs:44 | the word for one byte has only that byte's bit set |
| Y2022Day03Faster.MaskOfHas | 2022/src/bin/day03_faster.rs:42-45 | the mask has exactly the bits of the text's bytes |
| Y2022Day03Faster.CompartmentOf | 2022/src/bin/day03_faster.rs:41-52 | a compartment parses iff every byte is a letter (bit 0 unset), to the mask of its bytes; else "Weird char in line" with the text |
| Y2022Day03Faster.CompartmentItems | 2022/src/bin/day03_faster.rs:41-52 | the parsed mask has exactly the priorities of the text's bytes |
| Y2022Day03Faster.CompartmentFromStr | 2022/src/bin/day03_faster.rs:41-52 | the loop that ors in each byte's bit gives the specified compartment or error |
| Y2022Day03Faster.BackpackFromStr | 2022/src/bin/day03_faster.rs:60-68 | odd-length text is "Line does not have even number of items"; otherwise it parses iff both halves do, into the two compartments |
| Y2022Day03Faster.ParseInput | 2022/src/bin/day03_faster.rs:71-73 | the input parses iff every line does, one backpack per line |
| Y2022Day03Faster.SumSingles | 2022/src/bin/day03_faster.rs:76 | the sum succeeds iff every compartment has one item, else one of their errors |
| Y2022Day03Faster.Part1 | 2022/src/bin/day03_faster.rs:75-77 | succeeds iff every backpack's halves share exactly one item |
| Y2022Day03Faster.FoldIntersection | 2022/src/bin/day03_faster.rs:85 | the fold keeps exactly the bits of the start in every compartment |
| Y2022Day03Faster.AllOnes | 2022/src/bin/day03_faster.rs:85 | `!0`, the fold's start: every one of the 64 bits is set |
| Y2022Day03Faster.GroupBadgeMeaning | 2022/src/bin/day03_faster.rs:82-85 | the fold from all ones holds exactly the items all three elves carry |
| Y2022Day03Faster.Part2 | 2022/src/bin/day03_faster.rs:79-89 | succeeds iff every complete group of three has exactly one common item |
| Y2022Day03Faster.CompartmentAgrees | 2022/src/bin/day03_faster.rs:41-52 | a compartment parses iff the set-based half does, with the same items |
| Y2022Day03Faster.BackpackAgrees | 2022/src/bin/day03_faster.rs:60-68 | a backpack parses iff the set-based rucksack does, with the same items |
| Y2022Day03Faster.SumSinglesPart1 | 2022/src/bin/day03_faster.rs:76 | summing single bits equals summing the set-based common items |
| Y2022Day03Faster.SumSinglesBadges | 2022/src/bin/day03_faster.rs:80-88 | summing group bits equals summing the set-based badges |
| Y2022Day03Faster.Part1Agrees | 2022/src/bin/day03_faster.rs:75-77 | on agreeing inputs, part 1 succeeds iff the set-based part 1 does, with the same value |
| Y2022Day03Faster.GroupBadgeAgrees | 2022/src/bin/day03_faster.rs:82-85 | a group's badge mask has the set-based badges |
| Y2022Day03Faster.Part2Agrees | 2022/src/bin/day03_faster.rs:79-89 | on agreeing inputs, part 2 succeeds iff the set-based part 2 does, with the same value |
| Y2022Day03Faster.ParseInputAgrees | 2022/src/bin/day03_faster.rs:71-73 | the input parses iff it parses for the set-based solution, into agreeing backpacks |
| Y2022Day08.Digit | 2022/src/bin/day08.rs:18 | a char parses iff it is a digit, to its value; else the invalid-digit error |
| Y2022Day08.DigitsOf | 2022/src/bin/day08.rs:16-19 | one height per char of a line |
| Y2022Day08.ParseLines | 2022/src/bin/day08.rs:11-25 | no lines is "No lines"; a grid is a square whose side is the first line's length |
| Y2022Day08.ParseRow | 2022/src/bin/day08.rs:16-19 | a line parses iff every character is a digit, to the digits' values in order; otherwise it is the invalid-digit error |
| Y2022Day08.ParseInput | 2022/src/bin/day08.rs:11-25 | a parsed grid comes from at least one line and is square, its side the first line's length |
| Y2022Day08.RowsParse | 2022/src/bin/day08.rs:14-22 | the lines parse iff every one is all digits, row by row; else the invalid-digit error |
| Y2022Day08.ParseMeaning | 2022/src/bin/day08.rs:11-25 | the input parses iff it has lines, all digits, and as many digits as the square of the first line's length; otherwise the first failing check's error ("weird shape" for the count) |
| Y2022Day08.ParseSquare | 2022/src/bin/day08.rs:11-25 | n lines of n digits each parse to their rows of heights |
| Y2022Day08.ColMaxMeaning | 2022/src/bin/day08.rs:38-41 | a height above the running column maximum is above every height in the rows so far |
| Y2022Day08.FirstRow | 2022/src/bin/day08.rs:33-36 | the first row is all seeable and becomes the running maximum |
| Y2022Day08.LaterRow | 2022/src/bin/day08.rs:37-42 | a later row is seeable where it is above the running maximum, which it then raises |
| Y2022Day08.SeeableFromUp | 2022/src/bin/day08.rs:27-46 | a tree is marked iff it is taller than every tree above it in its column |
| Y2022Day08.Flip | 2022/src/bin/day08.rs:53-54 | inverting the rows keeps the shape |
| Y2022Day08.Transpose | 2022/src/bin/day08.rs:59-60 | swapping the axes swaps the shape |
| Y2022Day08.DownView | 2022/src/bin/day08.rs:53-56 | seeable from above in the flipped grid is seeable from below |
| Y2022Day08.LeftView | 2022/src/bin/day08.rs:59-62 | seeable from above in the transposed grid is seeable from the left |
| Y2022Day08.RightView | 2022/src/bin/day08.rs:65-69 | seeable from above in the flipped transposed grid is seeable from the right |
| Y2022Day08.BoundaryVisible | 2022/src/bin/day08.rs:48-74 | every tree on the edge is visible |
| Y2022Day08.VisibleCountBounds | 2022/src/bin/day08.rs:73 | between one row's worth and all trees are visible |
| Y2022Day08.CombineCell | 2022/src/bin/day08.rs:71 | or-ing the four views sets one cell to its visibility from some side and no other cell |
| Y2022Day08.Combine | 2022/src/bin/day08.rs:71 | after the combine every cell holds whether its tree is visible from some side |
| Y2022Day08.CountVisible | 2022/src/bin/day08.rs:73 | the count of set cells is the number of visible trees |
| Y2022Day08.Part1 | 2022/src/bin/day08.rs:48-74 | the number of trees visible from outside the grid |
| Y2022Day08.Apply | 2022/src/bin/day08.rs:85-95 | a step is None exactly when it would leave the grid, otherwise the neighbour |
| Y2022Day08.ApplyEdge | 2022/src/bin/day08.rs:85-95 | a step fails exactly at the edge, and each step brings the edge one closer |
| Y2022Day08.TreesBound | 2022/src/bin/day08.rs:98-115 | the viewing distance is at most the distance to the edge, and 0 exactly at the edge |
| Y2022Day08.TreesLower | 2022/src/bin/day08.rs:101-112 | every tree before the last one seen is lower than the viewer |
| Y2022Day08.TreesStop | 2022/src/bin/day08.rs:109-111 | a view that stops before the edge stops at a tree at least as tall as the viewer |
| Y2022Day08.SeeTrees | 2022/src/bin/day08.rs:98-115 | the loop counts the specified viewing distance |
| Y2022Day08.BoundaryScore | 2022/src/bin/day08.rs:120-125 | every tree on the edge scores 0 |
| Y2022Day08.MultiplyScores | 2022/src/bin/day08.rs:121-124 | the four multiplications give the start times the scenic score |
| Y2022Day08.ScoreCell | 2022/src/bin/day08.rs:120-125 | one cell of the score array becomes its scenic score and no other cell changes |
| Y2022Day08.MaxOf | 2022/src/bin/day08.rs:127 | the maximum of an array: None iff it is empty, else an element no smaller than any |
| Y2022Day08.Part2 | 2022/src/bin/day08.rs:117-128 | "No elements" iff the grid is empty, else the highest scenic score of any tree |
| Y2022Day12.HeightOf | 2022/src/bin/day12.rs:43-54 | exactly a to z, S and E are heights, none above 25 |
| Y2022Day12.LastInMeaning | 2022/src/bin/day12.rs:45-52 | the recorded column is that of the last occurrence of the char in the line, None iff it does not occur |
| Y2022Day12.LastOfMeaning | 2022/src/bin/day12.rs:45-52 | the recorded position is the last occurrence in the whole input, None iff it occurs in no line |
| Y2022Day12.RaggedRows | 2022/src/bin/day12.rs:37-56 | the lines S, aE and an empty line read as heights [0], [0, 25] and [] |
| Y2022Day12.RaggedAccepted | 2022/src/bin/day12.rs:58-64 | as written, those lines parse into three rows of one cell with the end at line 1, column 1, outside its row |
| Y2022Day12.LineHeightsMeaning | 2022/src/bin/day12.rs:38-55 | a line reads iff every char is a height, one height per char |
| Y2022Day12.LineHeightsFirstErr | 2022/src/bin/day12.rs:53 | a failing line reports "Invalid height" for its first bad char |
| Y2022Day12.RowsMeaning | 2022/src/bin/day12.rs:30-56 | the lines read iff each does, row by row |
| Y2022Day12.RowsFirstErr | 2022/src/bin/day12.rs:56 | failing lines report the error of the first bad line |
| Y2022Day12.RowsCells | 2022/src/bin/day12.rs:30-56 | the lines read iff every char is a height, and cell (y, x) is the height of char x of line y |
| Y2022Day12.LineHeightsErrStays | 2022/src/bin/day12.rs:56 | once a prefix of a line fails, the whole line fails with that error |
| Y2022Day12.RowsErrStays | 2022/src/bin/day12.rs:56 | once a prefix of the lines fails, all lines fail with that error |
| Y2022Day12.ParseAccepts | 2022/src/bin/day12.rs:24-65 | with every line as wide as the first, the input parses iff it is a rectangle of heights containing an S and an E |
| Y2022Day12.ParseHeights | 2022/src/bin/day12.rs:24-65 | a parsed map has one row per line, each cell the height of its char |
| Y2022Day12.ParseValue | 2022/src/bin/day12.rs:24-65 | the start is a cell holding S with height 0, the end a cell holding E with height 25 |
| Y2022Day12.ScanChar | 2022/src/bin/day12.rs:42-55 | one char extends the row and the recorded S and E positions, or gives the line's "Invalid height" error |
| Y2022Day12.ScanLine | 2022/src/bin/day12.rs:37-55 | the inner loop gives the line's heights or error, recording the last S and E of the line, else keeping the ones before |
| Y2022Day12.ScanStep | 2022/src/bin/day12.rs:30-56 | one line extends the cells, width, height and positions, or gives the lines' error |
| Y2022Day12.ParseInput | 2022/src/bin/day12.rs:24-65 | the imperative parse gives the specified map or error, with the corrected same-width check of the Findings table |
| Y2022Day12.Finish | 2022/src/bin/day12.rs:58-64 | a shape mismatch, here lines of unequal width as corrected in the Findings table, is the shape error, then "No start found" and "No end found", else the map |
| Y2022Day12.NeighboursMeaning | 2022/src/bin/day12.rs:67-93 | the neighbours are exactly the adjacent cells in the grid one may climb to (at most one higher) or, descending, step down to (at most one lower) |
| Y2022Day12.Neighbours | 2022/src/bin/day12.rs:67-93 | there are at most four neighbours, and each lies inside the grid one step up, down, left or right of the position |
| Y2022Day12.CanStepDual | 2022/src/bin/day12.rs:83-86 | stepping down from p to q is allowed exactly when stepping up from q to p is, which lets the backward search use the same rule |
| Y2022Day12.Parse | 2022/src/bin/day12.rs:24-65 | a line that does not read gives its error; a parsed map has one row per line, each as wide as the first line; the strict parse accepts only lines all as wide as the first |
| Y2022Day12.ParseAsWritten | 2022/src/bin/day12.rs:58-64 | as written: wherever the strict parse succeeds this gives the same map, and its map too has one row per line, as wide as the first |
| Y2022Day12.Duality | 2022/src/bin/day12.rs:83-86 | descending from p to q is climbing from q to p, so the backward search of part 2 walks the forward edges reversed |
| Y2022Infi.InstFromStr | 2022/src/bin/infi.rs:19-35 | a line without a space is "malformed line"; a first word other than draai, loop and spring is "Invalid instruction"; a parsed instruction has the first word as keyword and the rest as its operand, within `i16` for a turn and `i32` otherwise |
| Y2022Infi.SplitAtFirst | 2022/src/bin/infi.rs:25 | the split at the first space is unique |
| Y2022Infi.RenderRoundTrip | 2022/src/bin/infi.rs:19-35 | every instruction whose operand fits, written as a program line, parses back to itself |
| Y2022Infi.Dir.Turn | 2022/src/bin/infi.rs:50-59 | the new direction's discriminant is the old one plus the degrees over 45, modulo 8 |
| Y2022Infi.FromInt | 2022/src/bin/infi.rs:76-88 | exactly 0 to 7 are directions, each the one with that discriminant |
| Y2022Infi.FromIntIndex | 2022/src/bin/infi.rs:76-88 | `from_int` inverts the discriminant |
| Y2022Infi.IndexInjective | 2022/src/bin/infi.rs:38-47 | directions with the same discriminant are the same |
| Y2022Infi.TurnAdd | 2022/src/bin/infi.rs:50-59 | turning by a and then by b is turning by a + b |
| Y2022Infi.TurnFull | 2022/src/bin/infi.rs:50-59 | a full turn either way and a turn by 0 change nothing |
| Y2022Infi.TurnBack | 2022/src/bin/infi.rs:50-59 | turning by a and back by -a returns to the direction |
| Y2022Infi.JumpAdd | 2022/src/bin/infi.rs:61-74 | a jump of a then b is a jump of a + b |
| Y2022Infi.JumpOpposite | 2022/src/bin/infi.rs:61-74 | jumping after turning 180 degrees is jumping backwards |
| Y2022Infi.Opposite | 2022/src/bin/infi.rs:62-71 | the opposite direction's unit step is the negated step |
| Y2022Infi.UnitOfIndex | 2022/src/bin/infi.rs:62-71 | the unit step of the directions in discriminant order, clockwise from North |
| Y2022Infi.Dir.Jump | 2022/src/bin/infi.rs:61-74 | a jump of n moves at most n along each axis, and exactly n along one |
| Y2022Infi.Step | 2022/src/bin/infi.rs:107-112 | a turn keeps the position and sets the direction's discriminant to the old one plus the degrees over 45, modulo 8; a walk or a jump keeps the direction and moves the position as a jump of its argument |
| Y2022Infi.Run | 2022/src/bin/infi.rs:119-126 | a program without turns keeps the direction |
| Y2022Infi.ParseInput | 2022/src/bin/infi.rs:115-117 | the program parses iff every line does, one instruction per line in order, each argument fitting its type (`i16` degrees, `i32` lengths) |
| Y2022Infi.ExampleFirstTurn | 2022/src/bin/infi.rs:185 | the example's first instruction turns the walker east at the origin |
| Y2022Infi.ExampleFirstThree | 2022/src/bin/infi.rs:185-187 | after three example instructions the walker is at (8, 0) facing east |
| Y2022Infi.TurnsStayPut | 2022/src/bin/infi.rs:119-126 | a program of turns only ends at the origin's position it started from |
| Y2022Infi.KerstMens.Default | 2022/src/bin/infi.rs:97-104 | the walker starts at (0, 0) facing North |
| Y2022Infi.KerstMens.Exec | 2022/src/bin/infi.rs:107-112 | the fields change as the specified step says: a turn only the direction, a walk or jump only the position |
| Y2022Infi.Part1 | 2022/src/bin/infi.rs:119-126 | the Manhattan distance of the position after running the program |
| Y2022Infi.RunSnoc | 2022/src/bin/infi.rs:121-123 | running one more instruction is one more step |
| Y2022Infi.ExamplePart1 | 2022/src/bin/infi.rs:185-196 | the example ends at (10, 2), at distance 12 |
| Y2022Infi.WalkSteps | 2022/src/bin/infi.rs:139-144 | n unit walks end where one walk of n does |
| Y2022Infi.WalkMarksMeaning | 2022/src/bin/infi.rs:139-144 | the positions a walk of n marks are exactly those 1 to n steps ahead |
| Y2022Infi.AfterIsStep | 2022/src/bin/infi.rs:133-146 | for a non-negative walk, part 2's handling of an instruction ends where `exec` does, and marks the end unless it stayed put |
| Y2022Infi.TraceFollowsRun | 2022/src/bin/infi.rs:128-146 | without negative walks part 2 follows part 1's walker, and its trace holds the final position |
| Y2022Infi.TraceGrows | 2022/src/bin/infi.rs:129-146 | the trace only grows and always holds the start |
| Y2022Infi.BackwardWalkSkipped | 2022/src/bin/infi.rs:139-144 | a walk of -1 moves part 1's walker but part 2's range is empty, so part 2 stays at the origin |
| Y2022Infi.WalkTrace | 2022/src/bin/infi.rs:139-144 | the unit-walk loop moves the walker n steps (none for n < 0) and marks each position |
| Y2022Infi.Part2Traces | 2022/src/bin/infi.rs:128-146 | the loop collects the specified trace |
| Y2022Infi.Dir.Index | 2022/src/bin/infi.rs:38-47 | a direction's discriminant is in 0 to 7 |
| Y2022Infi.Dir.Unit | 2022/src/bin/infi.rs:61-74 | a unit step moves at most one in each coordinate and is never zero |
| Y2023Day01.FirstDigit | 2023/src/bin/day01.rs:7 | the index found is a digit with no digit before it; none is found exactly when the line has no digit |
| Y2023Day01.LastDigit | 2023/src/bin/day01.rs:8 | the index found is a digit with no digit after it; none is found exactly when the line has no digit |
| Y2023Day01.TwoDigitNumber | 2023/src/bin/day01.rs:10-11 | formatting two digits side by side and parsing them gives ten times the first plus the second |
| Y2023Day01.Part1Line | 2023/src/bin/day01.rs:6-12 | a line's value is below 100 and is made of its first and last digit |
| Y2023Day01.Part1 | 2023/src/bin/day01.rs:3-14 | the calibration sum is at most 99 per line, and no line's value exceeds it |
| Y2023Day01.ExamplePart1Line1 | 2023/src/bin/day01.rs:69 | the test line `1abc2` is worth 12 |
| Y2023Day01.ExamplePart1Line2 | 2023/src/bin/day01.rs:72 | the test line `treb7uchet` is worth 77 (first and last digit are the same) |
| Y2023Day01.FirstPrefix | 2023/src/bin/day01.rs:43-49 | one pass over the needles in the forward direction returns the first needle the haystack starts with, or none when it starts with none |
| Y2023Day01.FirstSuffix | 2023/src/bin/day01.rs:43-49 | one pass over the needles in the reverse direction returns the first needle the haystack ends with, or none when it ends with none |
| Y2023Day01.OccursAtShift | 2023/src/bin/day01.rs:51 | dropping the first character moves every occurrence one place to the left |
| Y2023Day01.ForwardMatch | 2023/src/bin/day01.rs:41-55 | the forward search returns the smallest position where a needle starts, and the first needle in list order there; it finds nothing exactly when no needle occurs in the line |
| Y2023Day01.NoneShift | 2023/src/bin/day01.rs:45-51 | when no needle starts the haystack and none occurs in its tail, none occurs at all |
| Y2023Day01.SomeShift | 2023/src/bin/day01.rs:45-51 | a first match found in the tail is the first match of the whole haystack, one position later |
| Y2023Day01.AnyOccursEnds | 2023/src/bin/day01.rs:45-46 | some needle starts somewhere exactly when some needle ends somewhere |
| Y2023Day01.ReverseMatch | 2023/src/bin/day01.rs:41-55 | the reverse search returns the largest position where a needle ends, and the first needle in list order there |
| Y2023Day01.DropLastEnds | 2023/src/bin/day01.rs:52 | when no needle ends the haystack, dropping its last character keeps every occurrence that ends earlier |
| Y2023Day01.FindAny | 2023/src/bin/day01.rs:41-55 | the loop that shortens the haystack returns the index the forward or reverse search specifies; the reverse search is only called on a line where a needle occurs, because an empty haystack would underflow `len() - 1` |
| Y2023Day01.Part2LineWith | 2023/src/bin/day01.rs:20-34 | a line's value is below 100 and is ten times the first match's index mod 10 plus the last match's index mod 10 |
| Y2023Day01.TensAndUnits | 2023/src/bin/day01.rs:20-34 | for any needle list, a line holding a needle has a first and a last match, and the value's tens are the first match's index modulo 10 and its units the last match's |
| Y2023Day01.Part2Line | 2023/src/bin/day01.rs:20-34 | with the twenty digit and word needles: a value below 100 whose tens are the first digit or digit word found and whose units are the last |
| Y2023Day01.Part2 | 2023/src/bin/day01.rs:16-18 | the corrected calibration sum is at most 99 per line, and no line's value exceeds it |
| Y2023Day01.DigitsAreDigitNeedles | 2023/src/bin/day01.rs:21-24 | needles 0 to 9 of the list are the one-character digits in order |
| Y2023Day01.OccursAtDigit | 2023/src/bin/day01.rs:21-24 | a digit needle occurs at a position exactly when that character is the digit |
| Y2023Day01.EndsAtDigit | 2023/src/bin/day01.rs:21-24 | a digit needle ends at a position exactly when the character before it is the digit |
| Y2023Day01.EndsAtOccurs | 2023/src/bin/day01.rs:45-46 | a needle ending at `e` starts at `e` minus its length |
| Y2023Day01.DigitCharValue | 2023/src/bin/day01.rs:10-11 | a digit character's value is below ten and renders back to the same character |
| Y2023Day01.ForwardFindsFirstDigit | 2023/src/bin/day01.rs:26-27 | on a line without spelled-out digits, the forward search finds the first digit of part 1 |
| Y2023Day01.ReverseFindsLastDigit | 2023/src/bin/day01.rs:29-30 | on a line without spelled-out digits, the reverse search finds the last digit of part 1 |
| Y2023Day01.NoWordsSameAsPart1 | 2023/src/bin/day01.rs:3-34 | on a line without spelled-out digits, part 2 reads the same number as part 1 |
| Y2023Day01.NoWordsSameWith | 2023/src/bin/day01.rs:3-34 | the same, for any needle list that starts with the ten digits |
| Y2023Day01.ExampleForward | 2023/src/bin/day01.rs:89 | on `two1nine` the forward search stops at position 0 on `two` |
| Y2023Day01.ExampleReverse | 2023/src/bin/day01.rs:89 | on `two1nine` the reverse search stops at the end on `nine` |
| Y2023Day01.ExamplePart2Line | 2023/src/bin/day01.rs:89 | `part2_line("two1nine")` is 29 |
| Y2023Day02.ColourOf | 2023/src/bin/day02.rs:101-105 | exactly `red`, `green` and `blue` name a colour, and a colour's name reads back as the same colour |
| Y2023Day02.ElemFromStr | 2023/src/bin/day02.rs:96-105 | an element without a space after trimming is the "Could not split element" error; one that parses has the count before the space, read as a `u32`, and the colour after it; a count followed by another word is the "Weird color" error |
| Y2023Day02.Put | 2023/src/bin/day02.rs:102-104 | `replace` sets the one colour's count and leaves the others as they were |
| Y2023Day02.Parsed | 2023/src/bin/day02.rs:95-105 | every element between commas is parsed, in order |
| Y2023Day02.ScanErrStays | 2023/src/bin/day02.rs:95-110 | the first error ends the loop: later elements do not change it |
| Y2023Day02.ScanMeaning | 2023/src/bin/day02.rs:95-110 | the loop succeeds exactly when every element parses and no colour appears twice, and then it holds each element's count under its colour |
| Y2023Day02.ScanStepMeaning | 2023/src/bin/day02.rs:101-109 | one more element of a colour not seen before keeps the loop's invariant |
| Y2023Day02.ScanRound | 2023/src/bin/day02.rs:95-116 | the round built after the loop has each element's count under its colour and zero for a colour that does not appear |
| Y2023Day02.RoundFromStr | 2023/src/bin/day02.rs:90-117 | `Round::from_str` succeeds exactly when every comma-separated element parses and no colour is repeated; then each colour has its element's count, or zero |
| Y2023Day02.ParseRound | 2023/src/bin/day02.rs:90-117 | the loop over the elements with its three `Option` variables returns what the specification of `Round::from_str` gives |
| Y2023Day02.GameFromStr | 2023/src/bin/day02.rs:64-77 | a line without `:` is the "Weird game" error; a parsed game has the id after the leading `Game ` and one round per `;`-separated part, each parsed by `Round::from_str` |
| Y2023Day02.ParseGames | 2023/src/bin/day02.rs:39-41 | the input parses iff every line is a game; game i is the parse of line i |
| Y2023Day02.MinStones | 2023/src/bin/day02.rs:50-58 | every round fits within the fewest cubes |
| Y2023Day02.Part1 | 2023/src/bin/day02.rs:5-19 | every possible game's id is at most the sum, and the sum is 0 when no game is possible |
| Y2023Day02.Part2 | 2023/src/bin/day02.rs:21-27 | the power of every game's fewest cubes is at most the sum |
| Y2023Day02.MinStonesLeast | 2023/src/bin/day02.rs:50-58 | any cubes that every round fits within are at least the fewest cubes, colour by colour |
| Y2023Day02.PossibleMinStones | 2023/src/bin/day02.rs:10-16 | a game passes part 1's filter exactly when its fewest cubes fit within the bag of 12 red, 13 green and 14 blue |
| Y2023Day02.Part1ByMinStones | 2023/src/bin/day02.rs:5-19 | part 1 counts the same games as a filter on the fewest cubes |
| Y2023Day02.MinStonesSnoc | 2023/src/bin/day02.rs:53-57 | one more round folds into the fewest cubes by a componentwise maximum |
| Y2023Day02.Part1MinSnoc | 2023/src/bin/day02.rs:5-19 | one more game adds its id to part 1 (in its fewest-cubes form) exactly when its fewest cubes fit within the bag, and nothing otherwise |
| Y2023Day02.Part2Snoc | 2023/src/bin/day02.rs:21-27 | one more game adds the power of its fewest cubes to part 2 |
| Y2023Day02.MinStonesOfThree | 2023/src/bin/day02.rs:53-57 | the fold over three rounds, step by step |
| Y2023Day02.MinStonesOfTwo | 2023/src/bin/day02.rs:53-57 | the fold over two rounds, step by step |
| Y2023Day02.ExampleMinStones | 2023/src/bin/day02.rs:170-180 | the test games' fewest cubes are (4, 2, 6), (1, 3, 4), (20, 13, 6), (14, 3, 15) and (6, 3, 2) |
| Y2023Day02.ExampleSnocs1 | 2023/src/bin/day02.rs:127-159 | part 1 of the test games, unrolled one game at a time |
| Y2023Day02.ExampleSnocs2 | 2023/src/bin/day02.rs:127-145 | part 2 of the test games, unrolled one game at a time |
| Y2023Day02.ExamplePart1 | 2023/src/bin/day02.rs:127-159 | on the test games part 1 is 8, as the test asserts |
| Y2023Day02.ExamplePart2 | 2023/src/bin/day02.rs:127-145 | on the test games part 2 is 2286, the answer the puzzle text gives for this example (the tests do not assert it) |
| Y2023Day05.TryMap | 2023/src/bin/day05.rs:13-20 | a range maps exactly the numbers from its source start up to (not including) start plus length, each to a number within its destination |
| Y2023Day05.TryMapInjective | 2023/src/bin/day05.rs:13-20 | a range sends different numbers to different destinations, keeping each number's offset from the start |
| Y2023Day05.Numbers | 2023/src/bin/day05.rs:27-29 | every word of a range line is parsed as a `u32`, in order |
| Y2023Day05.RangeOfWords | 2023/src/bin/day05.rs:26-37 | a range line parses exactly when all its words are `u32`s, and then the first three are the destination, the source and the length, in that order |
| Y2023Day05.RangeFromStr | 2023/src/bin/day05.rs:26-37 | `Range::from_str` on the text: it parses exactly when all its words are `u32`s, and then the first three are the destination, the source and the length |
| Y2023Day05.NumeralIsWord | 2023/src/bin/day05.rs:28 | a written number has no whitespace in it, so it is one word |
| Y2023Day05.RangeWordsRoundTrip | 2023/src/bin/day05.rs:26-37 | the three numbers of a range, written out, read back as the same range |
| Y2023Day05.RangeRoundTrip | 2023/src/bin/day05.rs:26-37 | a range written as "dst src len" parses back as itself when its numbers fit a `u32` |
| Y2023Day05.RangesOfMeaning | 2023/src/bin/day05.rs:68-70 | when every range line parses, the ranges are one per line, in order |
| Y2023Day05.WordLines | 2023/src/bin/day05.rs:68-70 | each range line is split into its words |
| Y2023Day05.MapLinesMeaning | 2023/src/bin/day05.rs:61-71 | a block without lines is the "no header" error, a header not of the form `<from>-to-<to> map:` is the header error, and otherwise the map has the names around `to` and the ranges of the other lines |
| Y2023Day05.SwapDown | 2023/src/bin/day05.rs:72 | swapping the out-of-order range one step down keeps the sort's invariant and the ranges' multiset |
| Y2023Day05.InsertDone | 2023/src/bin/day05.rs:72 | once the moved range is no smaller than the one before it, the prefix is sorted |
| Y2023Day05.InsertBySrc | 2023/src/bin/day05.rs:72 | one insertion step extends the sorted prefix by one range, leaves the rest of the array alone and permutes the array |
| Y2023Day05.SortBySrc | 2023/src/bin/day05.rs:72 | sorting by `src_start` leaves the ranges sorted by source start and a permutation of what they were |
| Y2023Day05.ParseMap | 2023/src/bin/day05.rs:61-79 | `Map::from_str` fails exactly when the block's specification does, with the same error; otherwise it keeps the names and returns the block's ranges sorted by source start, as a permutation |
| Y2023Day05.CountBelow | 2023/src/bin/day05.rs:51 | the insertion point lies within the ranges |
| Y2023Day05.CountBelowMeaning | 2023/src/bin/day05.rs:51 | every range before the insertion point starts below the key, and the one at it does not |
| Y2023Day05.BinarySearch | 2023/src/bin/day05.rs:49-52 | a hit is an index of a range and a miss an insertion point within the ranges |
| Y2023Day05.BinarySearchMeaning | 2023/src/bin/day05.rs:49-52 | a hit is a range starting at the key; on a miss every range before the insertion point starts below the key and, over sorted ranges, every one from it on starts above |
| Y2023Day05.Pick | 2023/src/bin/day05.rs:49-52 | the range tried, the hit or the one before the insertion point (saturating at 0), is an index of the map's ranges |
| Y2023Day05.DisjointSorted | 2023/src/bin/day05.rs:48-55 | non-empty ranges that do not overlap, listed in order, are sorted by source start |
| Y2023Day05.PickCovering | 2023/src/bin/day05.rs:49-54 | over ordered non-overlapping ranges the range picked is the one that covers the number |
| Y2023Day05.MapMeaning | 2023/src/bin/day05.rs:48-55 | over ordered non-overlapping ranges `Map::map` sends a covered number through the covering range and leaves any other number unchanged |
| Y2023Day05.MapCovered | 2023/src/bin/day05.rs:48-55 | a number a range covers goes to that range's destination at the same offset |
| Y2023Day05.MapUncovered | 2023/src/bin/day05.rs:54 | a number no range covers stays, whatever the order of the ranges |
| Y2023Day05.MapIsFirstCover | 2023/src/bin/day05.rs:48-55 | the binary search agrees with a plain scan for the covering range |
| Y2023Day05.FirstCoverMeaning | 2023/src/bin/day05.rs:48-55 | the scan gives a covering range's destination when one covers the number, and the number itself otherwise |
| Y2023Day05.ThroughAppend | 2023/src/bin/day05.rs:92-96 | sending a number through two lists of maps, one after the other, is sending it through both joined |
| Y2023Day05.Location | 2023/src/bin/day05.rs:89-99 | the loop over the maps, which asserts that each takes the type the one before gave, starting from `seed`, returns the seed sent through every map in order |
| Y2023Day05.Through | 2023/src/bin/day05.rs:89-99 | passing a value through the maps is passing it through the first map and then through the rest |
| Y2023Day05.ThroughSnoc | 2023/src/bin/day05.rs:94 | one more map applies to the value the earlier maps give |
| Y2023Day05.ThroughSteps | 2023/src/bin/day05.rs:92-96 | a chain of values that each map sends to the next ends at the last value |
| Y2023Day05.ExampleChained | 2023/src/bin/day05.rs:150-193 | the test almanac's maps chain from `seed` to `location` |
| Y2023Day05.SeedToSoilValues | 2023/src/bin/day05.rs:191-198 | the first map's second range, after sorting, is (50, 98, 2), and the map sends 79, 14, 55 and 13 to 81, 14, 57 and 13 |
| Y2023Day05.SoilToFertilizerValues | 2023/src/bin/day05.rs:205 | the second map sends 14 to 53, among the values the test seeds reach |
| Y2023Day05.FertilizerToWaterValues | 2023/src/bin/day05.rs:206 | the third map sends 53 to 49, among the values the test seeds reach |
| Y2023Day05.WaterToLightValues | 2023/src/bin/day05.rs:207 | the fourth map sends 49 to 42, among the values the test seeds reach |
| Y2023Day05.LightToTemperatureValues | 2023/src/bin/day05.rs:208 | the fifth map sends 42 to 42, among the values the test seeds reach |
| Y2023Day05.TemperatureToHumidityValues | 2023/src/bin/day05.rs:209 | the sixth map sends 42 to 43, among the values the test seeds reach |
| Y2023Day05.HumidityToLocationValues | 2023/src/bin/day05.rs:210 | the seventh map sends 43 to 43, among the values the test seeds reach |
| Y2023Day05.SevenSteps | 2023/src/bin/day05.rs:92-96 | seven maps that send each value to the next send the first to the last |
| Y2023Day05.ExampleLocation79 | 2023/src/bin/day05.rs:202 | seed 79 reaches location 82 |
| Y2023Day05.ExampleLocation14 | 2023/src/bin/day05.rs:204-210 | seed 14 reaches location 43 |
| Y2023Day05.ExampleLocation55 | 2023/src/bin/day05.rs:212 | seed 55 reaches location 86 |
| Y2023Day05.ExampleLocation13 | 2023/src/bin/day05.rs:213 | seed 13 reaches location 35 |
| Y2023Day05.ExampleLocations | 2023/src/bin/day05.rs:202-213 | the four test seeds reach locations 82, 43, 86 and 35 |
| Y2023Day05.SeedRanges | 2023/src/bin/day05.rs:101-104 | with an even number of seeds, each pair becomes the range from its first number to the first plus the second |
| Y2023Day05.SeedRangesCover | 2023/src/bin/day05.rs:101-104 | a number lies in one of the seed ranges exactly when some pair starts at or below it and reaches beyond it |
| Y2023Day05.MinLocation | 2023/src/bin/day05.rs:130-134 | `.min()` over the seeds' locations: the location of one of the seeds, and no seed's location is less |
| Y2023Day05.Part1 | 2023/src/bin/day05.rs:129-135 | part 1 is the location of some seed, and no seed has a smaller location; no seeds is excluded because `unwrap` panics |
| Y2023Day05.Part1Least | 2023/src/bin/day05.rs:129-135 | part 1 is the location of any seed whose location no other seed undercuts |
| Y2023Day05.Part1OfFour | 2023/src/bin/day05.rs:129-135 | with four seeds, part 1 is the last one's location when no other is smaller |
| Y2023Day05.ExampleUsable | 2023/src/bin/day05.rs:150-193 | every map of the test almanac has a range |
| Y2023Day05.ExamplePart1 | 2023/src/bin/day05.rs:129-135 | on the test seeds 79, 14, 55 and 13 part 1 is 35, the answer the puzzle text gives; the tests assert only the four locations |
| Y2023Day05.Span | 2023/src/bin/day05.rs:103 | the range `lo..hi`: its numbers in order, none when it is empty |
| Y2023Day05.Flatten | 2023/src/bin/day05.rs:139 | `.flatten()` holds exactly the numbers lying in one of the ranges |
| Y2023Day05.Part2 | 2023/src/bin/day05.rs:137-143 | part 2 is the location of some seed in the seed ranges, and no seed in any range has a smaller location |
| Y2023Day06.Travel | 2023/src/bin/day06.rs:17-20 | adding `hold` once for each millisecond left gives `hold` times the time left |
| Y2023Day06.MinHold | 2023/src/bin/day06.rs:13-28 | the upward search returns the least hold in 0 to `time` that beats the record, or None exactly when no hold does |
| Y2023Day06.MaxHold | 2023/src/bin/day06.rs:30-45 | the downward search returns the greatest hold in 0 to `time` that beats the record, or None exactly when no hold does |
| Y2023Day06.MulNonNegative | 2023/src/bin/day06.rs:15-20 | a product of two non-negative numbers is non-negative, which the distance needs |
| Y2023Day06.WinsBetween | 2023/src/bin/day06.rs:47-52 | every hold between two winning holds also wins, so the winning holds are one interval |
| Y2023Day06.CountWins | 2023/src/bin/day06.rs:47-52 | the count of holds below k is the size of the set of holds below k that beat the record |
| Y2023Day06.WinsMirror | 2023/src/bin/day06.rs:15-20 | holding for `hold` or for `time - hold` goes the same distance |
| Y2023Day06.LeastGreatestSum | 2023/src/bin/day06.rs:13-45 | the least and the greatest winning holds add up to the race's time |
| Y2023Day06.CountWinsInterval | 2023/src/bin/day06.rs:47-52 | the number of winning holds below `k` grows by one for each `k` inside the interval and not outside it |
| Y2023Day06.WinCountInterval | 2023/src/bin/day06.rs:47-52 | the count of winning holds is the greatest minus the least plus one |
| Y2023Day06.EdgesOfWins | 2023/src/bin/day06.rs:13-45 | a winning hold whose neighbour below loses is the least, and one whose neighbour above loses is the greatest |
| Y2023Day06.NumHolds | 2023/src/bin/day06.rs:47-52 | `num_holds` counts exactly the winning holds; it is only called on a race some hold wins, because the `unwrap`s panic otherwise |
| Y2023Day06.P1 | 2023/src/bin/day06.rs:58-60 | part 1 is the product of every race's count of winning holds |
| Y2023Day06.HoldsProductZero | 2023/src/bin/day06.rs:58-60 | the product is zero exactly when some race has no winning hold |
| Y2023Day06.MulNonZero | 2023/src/bin/day06.rs:59 | a product of two positive numbers is positive |
| Y2023Day06.Times | 2023/src/bin/day06.rs:63-66 | the races' times, one per race in order |
| Y2023Day06.Dists | 2023/src/bin/day06.rs:71-74 | the races' records, one per race in order |
| Y2023Day06.Numerals | 2023/src/bin/day06.rs:66-68 | the numbers written one after the other are all digits, and not empty when there is a number |
| Y2023Day06.NumeralsValue | 2023/src/bin/day06.rs:63-68 | the written numbers read back as the concatenated number, each earlier number shifted left by the digits of those after it |
| Y2023Day06.ParseNumerals | 2023/src/bin/day06.rs:68-69 | parsing the written numbers as a `u64` gives the concatenated number when it fits, and the too-large error otherwise |
| Y2023Day06.IntoP2 | 2023/src/bin/day06.rs:62-81 | the part 2 race has the concatenated times as its time and the concatenated records as its record; it panics on no races or a number too large for `u64` |
| Y2023Day06.U64s | 2023/src/bin/day06.rs:92-94 | every word is parsed as a `u64`, in order |
| Y2023Day06.InputOf | 2023/src/bin/day06.rs:105-111 | the input parses exactly when both lists do, with the times' error first; the races pair times and records by position, as many as the shorter list |
| Y2023Day06.InputFromStr | 2023/src/bin/day06.rs:84-113 | the input parses exactly when it has two lines and both read as labelled `u64` lists; the races pair times and records by position, as many as the shorter list |
| Y2023Day06.NumeralWords | 2023/src/bin/day06.rs:92-94 | each number written as one word, in order |
| Y2023Day06.NumbersAfterLabelRoundTrip | 2023/src/bin/day06.rs:89-95 | a label followed by written `u64`s reads back as the numbers |
| Y2023Day06.CollectOks | 2023/src/bin/day06.rs:95 | collecting only successes gives the list of their values |
| Y2023Day06.RenderLineRoundTrip | 2023/src/bin/day06.rs:88-102 | a line made of a one-word label and the numbers reads back as the numbers |
| Y2023Day06.InputRoundTrip | 2023/src/bin/day06.rs:84-113 | the two lines written from an input's times and records parse back as the same input |
| Y2023Day06.InputOfLines | 2023/src/bin/day06.rs:88-111 | with two lines, `Input::from_str` reads the times from the first and the records from the second |
| Y2023Day06.ZipTimesDists | 2023/src/bin/day06.rs:105-109 | pairing the races' times with their records gives the races back |
| Y2023Day06.ExampleFirstRace | 2023/src/bin/day06.rs:146-148 | in the first test race the least winning hold is 2, the greatest 5, and 4 holds win |
| Y2023Day06.ExampleSecondRace | 2023/src/bin/day06.rs:149 | the second example race has 8 winning holds |
| Y2023Day06.ExampleThirdRace | 2023/src/bin/day06.rs:150 | the third example race has 9 winning holds |
| Y2023Day06.ExampleP1 | 2023/src/bin/day06.rs:149-151 | the other test races have 8 and 9 winning holds, and part 1 is 288 |
| Y2023Day06.ConcatenatedThree | 2023/src/bin/day06.rs:63-68 | three numbers written one after the other, as a number |
| Y2023Day06.ExampleColumns | 2023/src/bin/day06.rs:63-74 | the test races' times are 7, 15 and 30 and their records 9, 40 and 200 |
| Y2023Day06.ExampleP2 | 2023/src/bin/day06.rs:62-81 | the test races written together make the race of time 71530 and record 940200 |
| Y2023Day06.ExampleParse | 2023/src/bin/day06.rs:130-145 | the words of the test lines parse as three races, the last of time 30 and record 200 |
| Y2023Day06.ExampleZip | 2023/src/bin/day06.rs:105-109 | pairing the test times with the test records gives the three test races |
| Y2023Day06.ExampleTimes | 2023/src/bin/day06.rs:131 | the words of the `Time:` line read as 7, 15 and 30 |
| Y2023Day06.ExampleDists | 2023/src/bin/day06.rs:132 | the words of the `Distance:` line read as 9, 40 and 200 |
| Y2023Day06.ThreeNumbers | 2023/src/bin/day06.rs:89-95 | a label and three numerals read as the three numbers |
| Y2023Day06.Numeral | 2023/src/bin/day06.rs:94 | a numeral that fits a `u64` reads as its value |

## Left out

- Every `main`: reading the input file, printing, the JSON dump of the monkeys in day 11 and its `dbg!` output. This is I/O only, except in 2023 day 5, whose `main` computes both answers as minima over locations; those are modelled as Y2023Day05.Part1 and Y2023Day05.Part2.
- Fixed-width arithmetic: sums, products and counts are unbounded integers. Not modelled are the `u32` sums of 2023 day 2, the `u64` worry levels of day 11, the `u32` `dst_start + offset` and `ch[0] + ch[1]` of 2023 day 5, the `u64` distance loop and product of 2023 day 6, the `i64` register of day 10, the `i32`/`i16` positions of the Infi puzzle, and the `usize` totals. The parsers, by contrast, do reject every number too large for its type, with `usize` taken as 64-bit.
- Text is a sequence of characters, one per byte. Whitespace is ASCII whitespace, where Rust uses Unicode's. Debug formatting (`{:?}`) in error messages is plain quoting, without escapes.
- Text.ParseNat: the distinct error Rust gives for an empty number is not told apart from an invalid digit.
- The regular expression that cuts a crate row into cells and the `scan_fmt!` move parser of day 5 are library code. The model takes them as parameters (`crates`, `parseMove`). The emoji-crate test goes with them.
- `RefCell` borrow tracking in day 11 is not modelled. The panic it guards against is the precondition that every throw target is another, existing monkey.
- The `ndarray` axis views and parallel loops of 2022 day 8 are modelled as four sequential sweeps over a sequence of rows.
- The A* searches of 2022 day 12 (`part1`, `part2`) are a foreign library call. Only `parse_input` and `neighbours` are modelled; their duality lemma is what the backward search relies on.
- The picture drawn by the Infi puzzle's `part2` is left out: it is presentation only. The model keeps the set of positions visited, which is what the picture shows.
- The order in which a `HashMap` or `BTreeSet` is walked is not modelled. Day 7 sums over the keys in any order, and a lemma shows the order does not matter.
- Y2023Day05.SortBySrc: `sort_by_key` is stable. The model proves only that the result is sorted by source start and a permutation, not that ranges with equal starts keep their order. When several ranges share a start, the one a lookup picks may therefore differ from the source's. Non-empty ranges that do not overlap, which Y2023Day05.MapMeaning assumes, never share a start.
- SrcDay11.MonkeyBlock: it parses with the corrected intro check of the Findings table, so it rejects first lines such as `Monkey 0` and `Elephant:` that the source accepts. The check as written is SrcDay11.MonkeyFromStrAsWritten.
- SrcDay11.ParseInput: it parses every block through SrcDay11.MonkeyBlock and so rejects the same intros the source accepts. SrcDay11.IntroChecksDiffer shows a block the two checks disagree on.
- Y2022Day12.ParseInput: it rejects lines of unequal width, such as `S`, `aE` and an empty line, which the source re-wraps into a map. The parse as written is Y2022Day12.ParseAsWritten.
- Y2022Day12.Finish: its `sameWidth` test is the corrected shape check; the source's `from_shape_vec` compares only the cell count with height times the first line's width.
- Y2022Day03.Part1: the error text leaves out the ": {diff:?}" suffix. That suffix is the `Debug` list of a `HashSet`, whose order is unspecified.
- Y2022Day03.SumBadges: the error text leaves out the ": {item:?}" suffix, for the same reason.
- Y2023Day05.BinarySearch: Rust's `binary_search_by_key` may return any matching index when several ranges share a start. The model returns the first.
- Y2023Day05.MapMeaning: it holds only for ranges that are not empty and do not overlap. The source assumes this of its almanac but does not check it.
- SrcDay11.Descending: `sort_by_key` on the counts is modelled as a sorted permutation. Which of two equal counts comes first is not stated.
- SrcDay01.Part2: `sort_unstable` is modelled as a sorted permutation.
- The large computations are not evaluated: the 10000 rounds of day 11 part 2, the flattened seed ranges of 2023 day 5 part 2, and the concatenated race of 2023 day 6 part 2.
- Examples the verifier cannot evaluate at reasonable cost are left out:
  - the part 2 answer of day 1 (45000), which needs the totals sorted;
  - the example streams of day 6 after the first;
  - the directory sizes of day 7 (95437 and 24933642);
  - the visited cells of day 9 (13, 1 and 36);
  - the signal strength and picture of day 10's large program (13140);
  - the item lists, counts and answers of day 11 after whole rounds (10605 and 2713310158);
  - the full answers of 2022 day 3 and its bitmask twin (157 and 70);
  - the A* answers of 2022 day 12 (31 and 29);
  - the sums over all lines of 2023 day 1 (142 and 281).

  Smaller pieces of some of these examples are checked instead: the five totals of day 1, the first stream of day 6, the three-instruction program of day 10, the first inspection of day 11, the first rucksack of 2022 day 3 (its halves and the shared `p`), and single lines of 2023 day 1. Day 7, day 9, 2022 day 12 and the bitmask solution of 2022 day 3 have no example lemma.
- The parse of 2023 day 5's example text into maps (`Input::from_str`) is not modelled. The example maps are given as values, and their first map's sorted second range is checked.
- 2023 day 6: the example is parsed from its words, not from the raw text, and the labels `Time:` and `Distance:` are not checked, just as the source skips them.

## Findings

| source | as written | input that shows it | evidently intended | confidence | as-written member | corrected member |
|---|---|---|---|---|---|---|
| src/bin/day11.rs:65-67 | the first line of a monkey is accepted when it starts with `Monkey ` or ends with `:` | a first line `Monkey 0` or `Elephant:` | the line must start with `Monkey ` and end with `:` | not executed | SrcDay11.IntroAsWrittenTooLoose | SrcDay11.IntroMeaning |
| 2022/src/bin/day12.rs:58 | `from_shape_vec` checks only that the cell count is height times the first line's width, so lines of unequal length are re-wrapped and the start or end can land in a different cell | the lines `S`, `aE` and an empty line: three cells, read as three rows of one, with the end at column 1 of a row of width 1 | lines of unequal length are rejected | not executed | Y2022Day12.RaggedAccepted | Y2022Day12.ParseAccepts |
