# Advent of Code 2023 solutions, modelled in Dafny

This project models the puzzle solvers of an Advent of Code 2023 repository
(one Rust crate per day, plus a Python solver for day 23). Each day's
`solve` reads the puzzle text and returns the answers of part 1 and part 2.
The model gives each core source file its own Dafny module. A module
parses the text the same way the solver does and computes the same answers.
Loops that update state in place become methods with loop invariants,
and each such method is proved against a specification function.
Iterator pipelines and recursion become functions. Lemmas state the
properties the puzzles and the code rely on.

Conventions used throughout:

- A panic of the original program (`unwrap` on `None`, an explicit `panic!`,
  an index out of bounds) is an `Err` of `Util.Result`; the computation stops there.
- Integers are unbounded. Where the source's fixed width could matter, a member
  does one of three things, and "## Left out" says which: it writes out the
  wrap-around of a release build (`% 2^32`, `% 2^64`), it stops with a panic
  where a debug build's overflow check fires, or it leaves the value unbounded
  where puzzle-sized input stays far below the limit. Conversions with `as` and
  the `wrapping_*` operations wrap in every build and are written out.
- The puzzle input, which the source embeds with `include_str!`, is a parameter.
- Rust's `str::lines`, `split`, `split_once`, `trim` and `parse` are modelled in `Util`.
  Text is a sequence of characters rather than bytes. Most days compare bytes only
  against ASCII, so the two views agree on any input; where a day measures or converts
  every byte (day 15's hash, day 17's widths and digits), they agree on ASCII input,
  which is all a puzzle input holds.

## Model

| member | source | states |
|---|---|---|
| Day01.FirstDigitIndex | day01/src/lib.rs:12-13 | the first digit of a line is at the returned index, with no digit before it; none means the line has no digit |
| Day01.LastDigitIndex | day01/src/lib.rs:12-14 | the last digit is at the returned index, with no digit after it; none means the line has no digit |
| Day01.LineValue1Spec | day01/src/lib.rs:11-16 | a line fails exactly when it has no digit; otherwise its value is ten times its first digit plus its last digit |
| Day01.SingleDigitUsedTwice | day01/src/lib.rs:12-15 | a line with one digit d has value 11·d, because that digit is both first and last |
| Day01.Part1 | day01/src/lib.rs:9-17 | part 1 succeeds exactly when every line has a digit |
| Day01.WordIndex | day01/src/lib.rs:28 | the index of the first spelled word that starts the rest of the line; none when no word does |
| Day01.DigitAt | day01/src/lib.rs:26-32 | a digit byte gives its value; otherwise a value 1..9 comes exactly when a spelled word starts there |
| Day01.LineValue2 | day01/src/lib.rs:21-38 | the scan's result equals the first and last recognised digit of the line, or fails when there is none |
| Day01.OverlappingWords | day01/src/lib.rs:25-36 | in "oneight" the scan finds both 1 and 8, so the value is 18 |
| Day01.FoundEmpty | day01/src/lib.rs:25-36 | on a line without spelled words the scan finds nothing exactly when the line has no digit byte |
| Day01.FoundFirst | day01/src/lib.rs:25-36 | on a line without spelled words the first digit found is the first digit byte |
| Day01.FoundLast | day01/src/lib.rs:25-36 | on a line without spelled words the last digit found is the last digit byte |
| Day01.ScanStep | day01/src/lib.rs:33-34 | keeping the first digit seen and overwriting the last one tracks the first and last of the digits found so far |
| Day01.Part2AgreesWithPart1 | day01/src/lib.rs:21-38 | on a line with no spelled digit, part 2's value equals part 1's |
| Day01.Part2 | day01/src/lib.rs:19-40 | the loop over lines sums the part 2 values; the first failing line is the result |
| Day02.ParseColour | day02/src/lib.rs:18-22 | a name is parsed as the colour it spells; any other name is rejected |
| Day02.ParseItem | day02/src/lib.rs:16-23 | a parsed item has a count below 256 |
| Day02.ParseItemShape | day02/src/lib.rs:16-23 | an item parses only if it is a u8 count, a space and a colour name |
| Day02.ParseItemWellFormed | day02/src/lib.rs:16-22 | "n colour" with a space-free n parses exactly when n is a u8, to that count and colour |
| Day02.LastCountIsLastMention | day02/src/lib.rs:12-25 | a colour that is never mentioned counts 0; otherwise its last mention sets its count |
| Day02.LastCountSnoc | day02/src/lib.rs:18-21 | a new item overwrites its own colour's count and leaves the others unchanged |
| Day02.TallyItems | day02/src/lib.rs:12-25 | the item loop fails exactly when some item is malformed; otherwise each colour holds its last count |
| Day02.ItemsValueIs | day02/src/lib.rs:12-25 | a handful succeeds exactly when every item parses, and then each colour holds the count of its last mention |
| Day02.GameFields | day02/src/lib.rs:7-10 | the id text follows the first space of the header, a word without spaces, and the handfuls text follows the first ": "; both exist exactly when the line has a ": " whose header holds a space |
| Day02.ParseGame | day02/src/lib.rs:7-11 | a line parses exactly when its fields exist, its id text is a u32 and every ';'-separated handful parses; the game then holds that id and those handfuls |
| Day02.MaxFoldIsLeast | day02/src/lib.rs:37-39 | the component-wise max holds every handful, and any bag that holds every handful holds the max |
| Day02.PossibleIffMaxWithin | day02/src/lib.rs:32-39 | a game is possible exactly when its least bag fits in (12, 13, 14) |
| Day02.HandfulCountsAreBytes | day02/src/lib.rs:12-25 | every count of a parsed handful is below 256 |
| Day02.GameCountsAreBytes | day02/src/lib.rs:10-26 | every handful of a parsed game has counts below 256 |
| Day02.PowerFitsU32 | day02/src/lib.rs:40 | with u8 counts the power r·g·b is below 2^24, so the u32 product cannot overflow |
| Day02.ImpossibleGamesAddNothing | day02/src/lib.rs:32-33 | an impossible game adds nothing to part 1 |
| Day02.Solve | day02/src/lib.rs:30-44 | both answers are u32 values |
| Day02.SolveFailsOnlyOnBadLines | day02/src/lib.rs:6-28 | the solver fails exactly when some line is not a well-formed game |
| Day03.MarkSymbols | day03/src/lib.rs:7-22 | the first pass fails exactly when a symbol's flat index `y * width + x` is past the `width * height` vectors; otherwise it returns fresh vectors holding the marks of the specification fold |
| Day03.MarksOfGrid | day03/src/lib.rs:10-22 | on a rectangular grid the first pass succeeds, and each cell is marked a symbol exactly when it is neither a digit nor '.', and an empty gear exactly when it is '*' |
| Day03.GridAnswers | day03/src/lib.rs:7-22 | on a non-empty rectangular grid the solver does not panic |
| Day03.FlatIndexInjective | day03/src/lib.rs:15-18 | distinct cells of a row-major grid have distinct flat indices |
| Day03.SurroundingsFindSymbols | day03/src/lib.rs:35-46 | the nine lookups set the flag exactly when some neighbour is a symbol, and remember only cells inside the grid |
| Day03.NeighbourIsAdjacent | day03/src/lib.rs:37-38 | the corrected lookup reaches only cells of the grid, at most one row and one column away |
| Day03.LastColumnSeesNextRow | day03/src/lib.rs:37-38 | as written, on "..1" over "*.." the '1' looks at flat index 3, which is the '*' two columns away in the next row |
| Day03.GearLifecycle | day03/src/lib.rs:54-58 | a gear ends holding two numbers exactly when it was credited twice, and then adds their product; a third number disqualifies it |
| Day03.SortDedupSpec | day03/src/lib.rs:51-52 | sorting and removing duplicates gives a strictly increasing list of exactly the remembered positions |
| Day03.CreditAllOnce | day03/src/lib.rs:53-59 | after the drain, each listed gear is credited exactly once and every other cell is unchanged |
| Day03.ZeroIsNeverCredited | day03/src/lib.rs:48-61 | a number 0 credits no gear and keeps the remembered positions for the next number |
| Day03.AccumulatedIsDecimal | day03/src/lib.rs:33 | reading digits as n = n * 10 + d with wrap-around gives the decimal value modulo 2^64 |
| Day03.DigitRunNumber | day03/src/lib.rs:29-33 | along a run of digits the number held is the run's decimal value modulo 2^64 |
| Day03.DigitRunFound | day03/src/lib.rs:28-46 | along a run of digits the flag is set exactly when some digit of the run has a symbol among its neighbours |
| Day03.Look | day03/src/lib.rs:37-44 | one lookup sets the flag on a symbol and remembers the cell when it is a gear, as the specification step does |
| Day03.LookAround | day03/src/lib.rs:35-46 | the nested loops over dx and dy perform the nine lookups in order |
| Day03.CreditGears | day03/src/lib.rs:53-59 | the drain loop credits the gears in place as the specification fold does |
| Day03.FinishNumber | day03/src/lib.rs:48-61 | the end of a number adds it to part 1 when a symbol was near and credits the gears when it is not 0, keeping every remembered position inside the grid |
| Day03.ReadDigit | day03/src/lib.rs:32-46 | a digit extends the number and performs the lookups, as one step of the row scan |
| Day03.ScanLine | day03/src/lib.rs:28-65 | the loop over a row's bytes leaves the state of the row scan |
| Day03.ScanNumbers | day03/src/lib.rs:24-83 | the loop over the rows, including the last number of each row, leaves part 1 and the gears of the specification fold |
| Day03.Solve | day03/src/lib.rs:4-94 | the solver returns the answers of the specification: part 1 and the sum of two-number gear products, both wrapped to 64 bits |
| Util.WordsOfJoin | day04/src/lib.rs:11 | splitting at ASCII whitespace gives back the words that were joined with spaces |
| Day04.CountMatchesSpec | day04/src/lib.rs:24-26 | the match count is the number of candidate positions whose number is among the winners; it is 0 exactly when none is, and the candidate count exactly when all are |
| Day04.ParseCard | day04/src/lib.rs:21-33 | a parsed card has id `index + 1`, one copy held and one copy to process |
| Day04.ParsedCardsAreFresh | day04/src/lib.rs:18-34 | after parsing, card i has id i + 1 and one copy held and pending |
| Day04.ScoreDoubles | day04/src/lib.rs:38-44 | the score is 0 exactly without matches, 1 for one match, and doubles with each further match |
| Day04.AddCopiesSpec | day04/src/lib.rs:57-60 | the inner loop panics exactly when a non-empty range ends past the last card; otherwise it bumps exactly the cards in the range, once each |
| Day04.ProcessEffect | day04/src/lib.rs:47-60 | processing a card zeroes its pending count, adds it to both counters of the next `matching` cards, and changes no other card, none before it in particular |
| Day04.ProcessCards | day04/src/lib.rs:47-61 | the in-place cascade panics exactly when the specification does, and otherwise leaves its cards |
| Day04.CascadeKeepsState | day04/src/lib.rs:30-31 | while cascading, processed cards have nothing pending, unprocessed cards have pending exactly the copies they hold, and each card holds 1 plus the copies won from processed cards |
| Day04.CopiesRecurrence | day04/src/lib.rs:47-63 | in the end each card holds 1 plus the copies held by every earlier card whose match range covers it, and nothing is pending |
| Day04.CascadeOkIff | day04/src/lib.rs:57-58 | the cascade panics exactly when some card with matches has a range past the last card |
| Day04.Solve | day04/src/lib.rs:15-66 | the solver returns the total score and the total number of cards held after the cascade |
| Util.DecimalTextIsWord | day05/src/lib.rs:26 | a number written in decimal is one whitespace-free word and parses back to itself |
| Day05.ParseMapLineText | day05/src/lib.rs:26-29 | a map line "dest src len" of `usize` numbers parses back to the same three numbers |
| Day05.ImagePermutes | day05/src/lib.rs:40 | mapping every element of two rearrangements of one list gives two rearrangements of one list |
| Day05.Retain1Maps | day05/src/lib.rs:31-38 | one line moves exactly the seeds its source range covers, translated by `dest - src`, and leaves the others for the following lines |
| Day05.ApplyLines1Spec | day05/src/lib.rs:21-40 | after a whole map the vector holds each seed mapped by the first line that covers it (unchanged if none does), in some order |
| Day05.RunMaps1Spec | day05/src/lib.rs:19-41 | after all maps the vector holds exactly the locations of the seeds, as a multiset |
| Day05.Part1IsLowestLocation | day05/src/lib.rs:43 | part 1 fails exactly when there is no seed, and is otherwise the location of some seed and at most the location of every seed |
| Day05.RetainSeeds | day05/src/lib.rs:31-38 | the `retain` loop keeps and moves the seeds as the one-line specification does |
| Day05.ApplyMap1 | day05/src/lib.rs:21-40 | the per-map loop computes the whole-map specification |
| Day05.Part1 | day05/src/lib.rs:3-44 | part 1 returns the smallest seed after all maps, as specified |
| Day05.IntersectionSpec | day05/src/lib.rs:55-82 | ranges that do not touch leave `self` whole; otherwise the three pieces are adjacent, their lengths add up to the range's, and the middle lies inside both ranges |
| Day05.IntersectionPoints | day05/src/lib.rs:55-82 | the middle piece holds exactly the points shared with the needle, the outer pieces exactly the others |
| Day05.RetainOneSpec | day05/src/lib.rs:133-147 | for one range, the shift never goes below zero, the pieces keep the length, the kept and queued pieces hold the points the line does not cover, and the moved piece holds exactly the covered points shifted |
| Day05.Retain2NeverFails | day05/src/lib.rs:141 | the `checked_add_signed(..).unwrap()` never panics, because the common piece starts at or after `src` |
| Day05.Retain2KeepsLength | day05/src/lib.rs:133-148 | splitting by one line keeps the total length of the ranges |
| Day05.Retain2Points | day05/src/lib.rs:133-148 | after one line the kept and queued ranges cover exactly the uncovered points, and the moved ranges exactly the covered points shifted to `dest` |
| Day05.Retain2NonEmpty | day05/src/lib.rs:135-146 | no empty range is kept, queued or moved |
| Day05.RetainRanges | day05/src/lib.rs:133-147 | the `retain_mut` loop computes the one-line specification, including its panic |
| Day05.ApplyLines2Length | day05/src/lib.rs:116-150 | a map on ranges never panics and keeps the total length |
| Day05.ApplyLines2Forward | day05/src/lib.rs:116-150 | every point of every range ends at its image under the first covering line, as in part 1 |
| Day05.ApplyLines2Backward | day05/src/lib.rs:116-150 | every point after a map is the image of a point before it |
| Day05.ApplyLines2NonEmpty | day05/src/lib.rs:116-150 | after a map with at least one line there is no empty range |
| Day05.RunMaps2Spec | day05/src/lib.rs:114-151 | after all maps the total length is kept, and every seed of every range lies in some final range at its location |
| Day05.RunMaps2NonEmpty | day05/src/lib.rs:114-151 | when every map has a line, no final range is empty |
| Day05.RunMaps2Backward | day05/src/lib.rs:114-151 | every point of the final ranges is the location of a seed in the initial ranges |
| Day05.Part2IsLowestLocation | day05/src/lib.rs:153 | part 2 exists when the ranges hold a seed, is at most the location of every seed in the ranges, and, when every map has a line, is the location of one of them |
| Day05.ApplyMap2 | day05/src/lib.rs:116-150 | the per-map loop computes the whole-map specification |
| Day05.Part2 | day05/src/lib.rs:91-154 | part 2 returns the smallest range start after all maps, as specified |
| Day05.Solve | day05/src/lib.rs:157-159 | the solver returns both parts |
| Day07Part1.CardIndex | day07/src/part1.rs:4-6 | a label is read exactly when it is in the table, as the index that holds it; an unknown label is an error |
| Day07Part1.NewHandSpec | day07/src/part1.rs:19-27 | `Hand::new` fails exactly when one of the first five characters is not a card, and otherwise stores each character's index, slots past the end of a short string keeping 0 |
| Day07Part1.NewHandOfText | day07/src/part1.rs:19-27 | with distinct labels, a hand written out as labels is read back as the same hand |
| Day07Part1.CardIndexOfLabel | day07/src/part1.rs:25 | with distinct labels, `position` finds a label at its own index |
| Day07Part1.CardsDistinct | day07/src/part1.rs:4-6 | the thirteen labels of part 1 are pairwise distinct |
| Day07Part1.TopTwoSpec | day07/src/part1.rs:35-44 | after the scan `most` is the largest count and `second_most` the largest count at any other index, ties allowed |
| Day07Part1.TopTwoAt | day07/src/part1.rs:35-44 | the two counts the scan keeps sit at two distinct indices |
| Day07Part1.CountsSum | day07/src/part1.rs:30-33 | the counts of a hand add up to its number of cards |
| Day07Part1.ClassifyCounts | day07/src/part1.rs:46-65 | on counts adding up to five, the table applied to the largest count and the largest count elsewhere never reaches `unreachable!()` and gives the type the counts' shape defines |
| Day07Part1.TypeIsShape | day07/src/part1.rs:29-66 | every hand's type is the one its shape defines (five, four, three with or without a pair, two pairs, one pair, none) |
| Day07Part1.HandTypeOf | day07/src/part1.rs:29-66 | the counting loop and the scan compute the specified type |
| Day07Part1.CompareIsKey | day07/src/part1.rs:69-90 | comparing two hands, type first in declaration order and then card indices reversed, is comparing one number per hand, so the order is total |
| Day07Part1.CompareEqualIff | day07/src/part1.rs:86-90 | two hands compare equal exactly when they are the same hand |
| Day07Part1.CompareAntisymmetric | day07/src/part1.rs:86-90 | swapping the hands reverses the comparison |
| Day07Part1.LexEqual | day07/src/part1.rs:89 | slices of equal length that compare equal are equal |
| Day07Part1.RankingIsUnique | day07/src/part1.rs:104-109 | when equal hands carry equal bids, every sorted order of the entries is the same and so earns the same winnings |
| Day07Part1.Solve | day07/src/part1.rs:93-110 | `solve` fails exactly when a line does not parse, and otherwise returns the winnings of a sorted rearrangement of the entries |
| Day07Part1.TotalWinnings | day07/src/part1.rs:105-109 | the enumerate-map-sum adds (1 + position) × bid over the sorted vector |
| Util.SortInPlace | day07/src/part1.rs:104 | the in-place sort leaves a rearrangement of the elements sorted by the key |
| Util.SortedUnique | day07/src/part1.rs:104 | when equal keys mean equal elements, the sorted rearrangement is unique |
| Util.LexComplement | day07/src/part1.rs:89 | the reversed comparison of card indices is the comparison of the strengths 12 − index |
| Util.LexIsPositional | day07/src/part1.rs:89 | comparing equal-length digit sequences lexicographically is comparing their values in the base |
| Day07Part2.CardsDistinct | day07/src/part2.rs:4-7 | the thirteen labels of part 2, the joker last, are pairwise distinct |
| Day07Part2.DescendingSpec | day07/src/part2.rs:42-43 | sorting and reversing leaves the counts rearranged from largest to smallest |
| Day07Part2.DescendingTopTwo | day07/src/part2.rs:42-44 | the first two counts after the sort are the largest count and the largest count elsewhere |
| Day07Part2.CountsAddUp | day07/src/part2.rs:31-40 | the joker-free counts and the jokers add up to five |
| Day07Part2.TableOnSorted | day07/src/part2.rs:44-64 | on descending counts, `remaining_jollies` is 0, so `find` looks for a second count of 2, which only the second count can be; the table is part 1's on the largest count plus the jokers |
| Day07Part2.Type2IsTopTwo | day07/src/part2.rs:30-66 | the type is part 1's table on the largest joker-free count plus the jokers, and the largest count elsewhere |
| Day07Part2.Type2IsTable | day07/src/part2.rs:44-64 | the sum `counts[0] + jollies` always lies in 1..5, so the `unreachable!()` arm is never taken, and the table gives the type read off part 1's scan |
| Day07Part2.TopPlusJokers | day07/src/part2.rs:44 | on counts adding up to five with the jokers, the largest count plus the jokers lies in 1..5 |
| Day07Part2.Type2FromCounts | day07/src/part2.rs:42-44 | however ties between equal counts are broken, the type is the same |
| Day07Part2.Type2IsAchieved | day07/src/part2.rs:30-66 | the type is that of the hand with every joker turned into the most common other card |
| Day07Part2.Type2IsBest | day07/src/part2.rs:30-66 | no way of turning the jokers into other cards gives a stronger type |
| Day07Part2.SpreadIsNoBetter | day07/src/part2.rs:44 | over five cards in all, spreading extra cards over several counts never beats adding them all to the largest |
| Day07Part2.ClassifyMonotone | day07/src/part2.rs:44-64 | a smaller or equal largest count, with a smaller or equal sum of the two largest, never gives a stronger type |
| Day07Part2.Example82JT2 | day07/src/part2.rs:128-131 | the test hand "82JT2" is three of a kind |
| Day07Part2.Parse82JT2 | day07/src/part2.rs:19-28 | "82JT2" is read as the indices 5, 11, 12, 3, 11 |
| Day07Part2.ExampleQ8833 | day07/src/part2.rs:128-131 | the test hand "Q8833" is two pair |
| Day07Part2.ParseQ8833 | day07/src/part2.rs:19-28 | "Q8833" is read as the indices 2, 5, 5, 10, 10 |
| Day07Part2.HandType2Of | day07/src/part2.rs:30-66 | the counting loop, the in-place sort and reversal, and the table compute the specified type |
| Day07Part2.FoldIsLexicographic | day07/src/part2.rs:86-94 | the `then` fold over the zipped cards is the reversed lexicographic comparison after the type comparison |
| Day07Part2.CompareIsKey | day07/src/part2.rs:86-94 | comparing hands is comparing one number per hand: type first, then card by card with the joker weakest |
| Day07Part2.CompareEqualIff | day07/src/part2.rs:86-94 | two hands compare equal exactly when they are the same hand |
| Day07Part2.RankingIsUnique | day07/src/part2.rs:108-113 | when equal hands carry equal bids, every sorted order of the entries is the same and so earns the same winnings |
| Day07Part2.Solve | day07/src/part2.rs:97-113 | the solver fails exactly when a line does not parse, and otherwise returns the winnings of a rearrangement sorted by part 2's order |
| Day08.TrimParensAround | day08/src/lib.rs:116 | `trim_matches` removes the parentheses around a branch pair and nothing else |
| Day08.ParseNodeText | day08/src/lib.rs:115-116 | a line "node = (left, right)" of letter-and-digit names reads back as that node and branch |
| Day08.InsertionsLast | day08/src/lib.rs:114-118 | building the map by inserting every line in order keeps, for each node, the branches of its last line |
| Day08.StepsToGoal | day08/src/lib.rs:30-45 | the step loop returns the number of steps to the first goal node; on a panic, the walk panicked before reaching a goal; out of fuel, no goal was reached in the first `fuel + 1` positions |
| Day08.WalkErrStays | day08/src/lib.rs:37-41 | once a walk has panicked it stays panicked |
| Day08.NoArrival | day08/src/lib.rs:83-91 | a walk reported as panicked or out of fuel has no first arrival within the fuel |
| Day08.WalkRounds | day08/src/lib.rs:112 | after whole rounds of the repeated instruction line, the walk continues as a fresh walk from where it is |
| Day08.CycleRepeats | day08/src/lib.rs:73-79 | a walk that reaches `z` after whole rounds, from a `z` that returns to itself after as many steps, is at `z` after every multiple of that count |
| Day08.WalksMeet | day08/src/lib.rs:73-79 | under that cycle reading, every common multiple of a start's arrival count finds the walk on its `Z` node |
| Day08.GcdDivides | day08/src/lib.rs:47-53 | `gcd` divides both arguments |
| Day08.GcdGreatest | day08/src/lib.rs:47-53 | every common divisor divides `gcd` |
| Day08.GcdZero | day08/src/lib.rs:47-53 | `gcd` is 0 exactly when both arguments are 0 |
| Day08.LcmCommonMultiple | day08/src/lib.rs:55-61 | `lcm` divides by zero exactly when both arguments are 0, and is otherwise a common multiple equal to a·b / gcd(a, b) |
| Day08.LcmOne | day08/src/lib.rs:96 | 1, the identity of the fold, leaves the other argument unchanged on either side |
| Day08.DividesTransitive | day08/src/lib.rs:96 | divisibility carries through the running `lcm` |
| Day08.GcdScale | day08/src/lib.rs:47-53 | multiplying both arguments by k multiplies `gcd` by k |
| Day08.LcmLeast | day08/src/lib.rs:55-61 | every common multiple of the two arguments is a multiple of `lcm`, so it is the least common multiple |
| Day08.ArrivesFirstUnique | day08/src/lib.rs:67-79 | a walk has at most one first arrival, so each start has one arrival count |
| Day08.FoldStep | day08/src/lib.rs:96 | folding one more arrival count with `lcm` keeps the accumulator the least common multiple of the counts folded so far |
| Day08.Part1 | day08/src/lib.rs:30-45 | part 1 returns the number of steps from `AAA` to the first `ZZZ`, or reports why it stopped |
| Day08.Part2 | day08/src/lib.rs:63-97 | part 2 succeeds only with a first arrival at a `Z` node for every start ending in `A`; the answer is then positive, a multiple of every arrival count, and divides every other common multiple of them, so it is their least common multiple; on failure some start has no arrival within the fuel |
| Day08.Solve | day08/src/lib.rs:99-124 | the solver fails when parsing fails, and otherwise returns part 1's arrival count and the least common multiple of part 2's arrival counts |
| Day09.Diff | day09/src/lib.rs:3-10 | the in-place `diff` leaves one value fewer, each the difference of two consecutive readings |
| Day09.DifferencesIntegrate | day09/src/lib.rs:3-10 | the first reading plus a prefix sum of the differences gives back every reading: `diff` loses only the first value |
| Day09.ExtrapolateHistory | day09/src/lib.rs:18-28 | the loop over difference rows, with `p1`, `p2` and the alternating `negated`, computes the forward and backward extrapolation, and panics exactly when a non-zero row of one value is reached |
| Day09.ExtrapolationZero | day09/src/lib.rs:18-21 | an all-zero history extrapolates to 0 on both sides without entering the loop |
| Day09.ExtrapolationSingle | day09/src/lib.rs:21-23 | a single non-zero reading panics: its difference row is empty |
| Day09.ExtrapolationNegated | day09/src/lib.rs:18-28 | negating every reading negates both extrapolations and keeps the panic |
| Day09.DifferencesReversed | day09/src/lib.rs:3-10 | the differences of the reversed history are the reversed differences, negated |
| Day09.BackwardIsReversedForward | day09/src/lib.rs:19-26 | the backward extrapolation of part 2, with its alternating signs, is the forward extrapolation of the reversed history, and the panics agree |
| Day09.ExtendingKeepsPrevious | day09/src/lib.rs:18-26 | appending the extrapolated next value to the history leaves the extrapolated previous value unchanged |
| Day09.ExampleArithmetic | day09/src/lib.rs:18-28 | the history 0 3 6 9 12 15 extrapolates to 18 forward and -3 backward |
| Day09.AnswerLine | day09/src/lib.rs:16-29 | one line is parsed as space-separated `i64` values and extrapolated, and a bad number panics |
| Day09.TotalsSpec | day09/src/lib.rs:30 | adding up the lines fails exactly when some line fails, and then with the first failing line's reason |
| Day09.SumLines | day09/src/lib.rs:14-30 | the loop over the lines adds up both answers of every line, stopping at the first failure |
| Day09.Solve | day09/src/lib.rs:13-32 | the solver panics on an input with no line, and otherwise returns the sums of both extrapolations over the lines |
| Day10.TileSpec | day10/src/lib.rs:39-51 | every pipe character reads as its own pipe, `S` as the replacement pipe, `.` as no pipe, and every other character panics |
| Day10.LinksSpec | day10/src/lib.rs:68-75 | each pipe joins two different orthogonal neighbours of its cell, and the pair it joins determines the pipe |
| Day10.LastStart | day10/src/lib.rs:32-55 | the recorded start is an `S` of the input and no `S` follows it in reading order; none is recorded exactly when there is no `S` |
| Day10.Search | day10/src/lib.rs:57-77 | the depth-first search either panics or yields a map of the grid's shape with the start at 0 in which a cell has a distance exactly when a pipe walk from the start reaches it, and the distance is the length of the shortest such walk |
| Day10.SearchSkips | day10/src/lib.rs:60-64 | popping an entry whose cell already holds a smaller distance keeps the search's invariant |
| Day10.SearchExpands | day10/src/lib.rs:65-76 | recording a distance and pushing the two joined cells one step further keeps the search's invariant |
| Day10.RelaxedIsShortest | day10/src/lib.rs:57-77 | once the stack is empty, every recorded distance is backed by a walk and no walk from the start is shorter than the distance it ends at |
| Day10.WalkNoShorter | day10/src/lib.rs:60-77 | along any pipe walk from the start, the i-th cell is reached at distance at most i |
| Day10.Part1 | day10/src/lib.rs:80-86 | the answer is a recorded distance, is at least every recorded distance, and exists exactly when some cell was reached |
| Day10.CountRow | day10/src/lib.rs:94-110 | the scan of a row with its `inside` toggle counts the off-loop cells that have an odd number of loop pipes with a downward end (vertical, `F` and `7`) to their left, over the shorter of the two rows |
| Day10.NoLoopNoneEnclosed | day10/src/lib.rs:94-110 | a row without loop cells encloses nothing |
| Day10.EnclosedBound | day10/src/lib.rs:94-110 | loop cells are never counted: the enclosed cells and the loop cells of a row together are at most its length |
| Day10.Part2 | day10/src/lib.rs:91-111 | part 2 adds up the enclosed counts of all rows |
| Day10.Solve | day10/src/lib.rs:29-114 | the solver panics on a bad character or a missing start, and otherwise answers the largest shortest-walk distance and the enclosed-cell total of the shortest-distance map, which has one entry per cell of the grid |
| Day11.EmptyRows | day11/src/lib.rs:10-15 | the collected rows are exactly the rows with no `#`, in increasing order |
| Day11.ColumnEmptyFrom | day11/src/lib.rs:17 | the column scan says empty exactly when every row reaches the column with no galaxy there, and panics exactly when a row too short to index comes before any galaxy in that column |
| Day11.EmptyCols | day11/src/lib.rs:16-18 | the collected columns, taken below the first row's width, are exactly the empty ones in increasing order, and the collection panics exactly when some column scan panics |
| Day11.ShiftGap | day11/src/lib.rs:24-32 | between two coordinates the expanded gap is the original gap plus the padding for each empty line in between, so expansion keeps the order of coordinates |
| Day11.ExpandedDist | day11/src/lib.rs:24-40 | after expansion two galaxies are their original Manhattan distance apart plus the padding for every empty row and column between them |
| Day11.GalaxiesSpec | day11/src/lib.rs:23-34 | the galaxies are listed once each, exactly the `#` cells, in reading order |
| Day11.Expand | day11/src/lib.rs:22-34 | the vertex loop lists every galaxy in reading order, moved right by the padding per empty column at or before it and down by the padding per empty row at or before it |
| Day11.RowsArePairs | day11/src/lib.rs:37-42 | adding up from each vertex to the ones after it visits every unordered pair exactly once |
| Day11.SumPairs | day11/src/lib.rs:37-42 | the pairwise loop sums the Manhattan distance of every unordered pair of vertices |
| Day11.PairsExpanded | day11/src/lib.rs:20-42 | the answer is linear in the padding: the unexpanded pair sum plus the padding times the empty lines crossed by all pairs |
| Day11.DoSolve | day11/src/lib.rs:2-44 | `do_solve` panics exactly on an empty image or a column scan that panics, and otherwise returns the pairwise distance sum of the expanded galaxies |
| Day11.Solve | day11/src/lib.rs:46-49 | part 1 pads each empty line by 1 and part 2 by 999 999, so the two answers are the same pair sum plus 1 and 999 999 times the crossed empty lines |
| Day12.Unfold | day12/src/lib.rs:27-40 | the unfolded line is five copies of the springs joined by `?`, a space, and five copies of the groups joined by `,`; a line without a space panics |
| Day12.UnfoldSplits | day12/src/lib.rs:27-40 | splitting an unfolded line at its first space gives back exactly the five-fold springs and the five-fold groups, because the springs hold no space |
| Day12.Successors | day12/src/lib.rs:53-87 | from a safe state every spring leads only to safe states, so the unchecked `groups[group_idx]` read on `.` is always in bounds |
| Day12.AddAllSpec | day12/src/lib.rs:58-82 | adding a count to each successor entry grows the map by those keys and raises each key by the count once per time it is listed |
| Day12.SpreadAny | day12/src/lib.rs:53-87 | the drained map does not depend on the order in which the hash map yields its entries |
| Day12.Step | day12/src/lib.rs:53-87 | one drain adds every state's count to each of its successors under the spring, and nothing else |
| Day12.SpreadPotential | day12/src/lib.rs:52-87 | reading a spring keeps the number of complete arrangements the states carry: counts times ways to finish |
| Day12.Retain | day12/src/lib.rs:89-96 | the kept states are exactly those whose run fits past the last group or whose remaining springs can still supply every `#` still needed |
| Day12.PrunedStaysPruned | day12/src/lib.rs:89-96 | every successor of a pruned state would be pruned one spring later |
| Day12.DroppedHasNoWays | day12/src/lib.rs:89-96 | a pruned state has no way to finish, so pruning never loses an arrangement |
| Day12.RetainPotential | day12/src/lib.rs:89-96 | pruning keeps the number of complete arrangements the states carry |
| Day12.KnownAtMostOne | day12/src/lib.rs:53-70 | a row with no `?` has at most one arrangement |
| Day12.SumValues | day12/src/lib.rs:99 | the final sum adds the count of every surviving state once |
| Day12.ReadSprings | day12/src/lib.rs:52-97 | over the whole row the states stay safe, carry every arrangement and are the states the reference run reaches; the loop panics exactly when it meets a character other than `#`, `.` and `?` while some state is left, and succeeds otherwise |
| Day12.ReadSpring | day12/src/lib.rs:53-96 | one spring of the loop: an unknown character with states left panics; otherwise the states after the spring are the reference run's, still safe and carrying every arrangement |
| Day12.PanicsIff | day12/src/lib.rs:52-97 | the row panics from spring `i` on exactly when some later spring is an unknown character met while states are left |
| Day12.CompletionsSpec | day12/src/lib.rs:71-85 | the completions of a row are exactly the rows of the same length that keep each known spring and put `#` or `.` at each `?` |
| Day12.CountDamaged | day12/src/lib.rs:55-61 | a `#` in front of every row extends the run in progress by one |
| Day12.CountOperational | day12/src/lib.rs:62-70 | a `.` in front of every row keeps an empty run, turns a run equal to the next group into that group, and leaves no matching row otherwise |
| Day12.RunsFromHead | day12/src/lib.rs:55-61 | a run in progress becomes the first run of the row, at least as long as it already is |
| Day12.CountOverlong | day12/src/lib.rs:55-61 | no row matches once the run in progress is longer than its group or no group is left for it |
| Day12.KeepAtEnd | day12/src/lib.rs:89-99 | at the end of the row the final `retain` accepts a state exactly when the groups are complete |
| Day12.WaysCountMatches | day12/src/lib.rs:52-99 | from state (g, run) at spring i, the state machine's count of ways equals the number of completions of the rest whose runs, after the run in progress, are the groups from g on |
| Day12.ArrangementsAreMatches | day12/src/lib.rs:48-99 | with positive groups the reference count equals the number of ways to fill in the `?` so that the runs of `#` are exactly the groups |
| Day12.ExpectedMatches | day12/src/lib.rs:42-100 | a line with springs and positive groups yields the number of fillings of its `?` whose runs of `#` are its groups |
| Day12.CountArrangements | day12/src/lib.rs:48-99 | the line panics exactly when the loop meets an unknown character with states left, and otherwise returns the reference count; that count is the number of ways to fill in the `?` so that the runs of `#` are the groups (for positive groups and at least one spring), and with no springs it is 1 whatever the groups |
| Day12.CreatePermutations | day12/src/lib.rs:42-100 | the result is the line's outcome: a line that does not split or whose groups are not numbers panics, a line whose springs panic panics, and any other line yields its number of arrangements |
| Day12.CountLine | day12/src/lib.rs:17-25 | the result is the line's outcome; a part-2 line without a space panics, and any other part-2 line has the outcome of its five-fold unfolding |
| Day12.Part | day12/src/lib.rs:8-25 | the part is the sum of the per-line outcomes when every line succeeds, and otherwise the first failing line's panic |
| Day12.AddLine | day12/src/lib.rs:17-25 | adding line `k` to a running total of the earlier lines gives the total of the lines up to `k`, or, when line `k` fails, the whole sum's failure |
| Day12.Solve | day12/src/lib.rs:102-105 | the run succeeds exactly when both parts succeed, and then its answers are part 1 and part 2 over the same input |
| Day13.CountDiffsZero | day13/src/lib.rs:3-5 | two texts have no difference exactly when they agree at every position of the shorter one |
| Day13.CountDiffsOne | day13/src/lib.rs:3-5 | two texts have one difference exactly when they disagree at one position of the shorter one and agree at all others |
| Day13.Trim | day13/src/lib.rs:11-17 | both sides of a candidate line are cut to the shorter length, the longer side keeping the part next to the line |
| Day13.TrimKeepsSum | day13/src/lib.rs:11-22 | cutting the longer side first changes no mirrored sum, since the zip stops at the shorter side anyway |
| Day13.RowsDiffZero | day13/src/lib.rs:11-24 | with rows of one width, a horizontal line has no difference exactly when every mirrored pair of rows up to the nearer edge is equal |
| Day13.RowsDiffOne | day13/src/lib.rs:11-24 | a horizontal line has one difference exactly when one cell of one mirrored pair of rows is off and every other mirrored pair is equal |
| Day13.SmudgedLineIsNotPerfect | day13/src/lib.rs:10-28 | the line part 2 picks with one smudge is never a perfect reflection |
| Day13.RowMirrorZero | day13/src/lib.rs:35-42 | one row has no difference across a vertical line exactly when it reads the same both ways around it up to its nearer end |
| Day13.FindRow | day13/src/lib.rs:10-28 | the search returns the first horizontal line with exactly the wanted number of differences, and none when no line has it |
| Day13.FindColumn | day13/src/lib.rs:32-49 | the search returns the first vertical line with exactly the wanted number of differences; a row too short for an earlier column panics |
| Day13.FindRowFirst | day13/src/lib.rs:10-28 | a qualifying line with no qualifying line before it is the one the search finds |
| Day13.FindColumnFirst | day13/src/lib.rs:32-49 | a qualifying column with no qualifying or panicking column before it is the one the search finds |
| Day13.ProcessMapRow | day13/src/lib.rs:10-27 | when a horizontal line qualifies, the pattern scores 100 times the rows above the first such line |
| Day13.ProcessMapColumn | day13/src/lib.rs:30-51 | with no horizontal line, the pattern scores the columns left of the first vertical line, and panics exactly when there is none |
| Day13.FirstColumnIsFound | day13/src/lib.rs:31-49 | the first qualifying vertical line is found when the search starts at column 1 and stops at the first row's width |
| Day13.PartScores | day13/src/lib.rs:56-60 | a part is defined exactly when every blank-line separated pattern scores |
| Day13.Solve | day13/src/lib.rs:54-67 | part 1 allows no smudge, part 2 exactly one, over the same patterns |
| Day14.LoadBound | day14/src/lib.rs:40-46 | the load of any platform of 100 `u128` rows is at most 100 * 128 * 100, so the `u32` products and sum never overflow |
| Day14.MoveWeights | day14/src/lib.rs:52-57 | moving the free rollers of one row into another changes any row-weighted count by their number times the difference of the two rows' weights |
| Day14.MoveChanges | day14/src/lib.rs:52-58 | a row-to-row move changes the platform exactly when some roller is free to move |
| Day14.MoveKeeps | day14/src/lib.rs:52-57 | a row-to-row move never puts a roller on a block and never moves one past column 99 |
| Day14.Map.MoveFree | day14/src/lib.rs:52-58 | one step of the inner loop reports whether a roller was free and moves the free rollers of row `from` into row `to`, leaving the blocks alone |
| Day14.NorthPassFacts | day14/src/lib.rs:50-59 | one north pass keeps the number of rollers, never raises the sum of their row numbers and lowers it whenever anything moved, and keeps rollers off blocks |
| Day14.NorthPassStill | day14/src/lib.rs:50-62 | a pass moves nothing exactly when no row has a free roller |
| Day14.NorthStuckMeans | day14/src/lib.rs:52-54 | no roller of a row is free exactly when every roller has a roller or a block directly north of it |
| Day14.NorthMoveLowers | day14/src/lib.rs:54-57 | a north move of at least one roller lowers the sum of the rollers' row numbers, so the loop ends |
| Day14.NorthSettledStill | day14/src/lib.rs:49-63 | the platform is settled north exactly when a full pass moves nothing, which is when the loop breaks |
| Day14.Map.NorthSweep | day14/src/lib.rs:50-59 | one pass over rows 99 down to 1 leaves the rollers as the north pass gives them, and `moved` holds exactly when they changed |
| Day14.NorthTiltFacts | day14/src/lib.rs:48-64 | after a north tilt every roller rests on a roller, a block or the north edge; the number of rollers is kept and none lands on a block |
| Day14.NorthTiltIdempotent | day14/src/lib.rs:48-64 | a settled platform is left as it is by a north tilt, so tilting north twice is tilting once |
| Day14.Map.TiltNorth | day14/src/lib.rs:48-64 | the rollers end as the north tilt of the rollers at the start |
| Day14.SouthPassFacts | day14/src/lib.rs:68-77 | one south pass keeps the number of rollers, never raises the load and lowers it whenever anything moved, and keeps rollers off blocks |
| Day14.SouthPassStill | day14/src/lib.rs:68-80 | a pass moves nothing exactly when no row has a roller free to move south |
| Day14.SouthStuckMeans | day14/src/lib.rs:70-72 | no roller of a row is free exactly when every roller has a roller or a block directly south of it |
| Day14.SouthMoveLowers | day14/src/lib.rs:72-75 | a south move of at least one roller lowers the load, so the loop ends |
| Day14.SouthSettledStill | day14/src/lib.rs:67-81 | the platform is settled south exactly when a full pass moves nothing |
| Day14.Map.SouthSweep | day14/src/lib.rs:68-77 | one pass over rows 0 up to 98 leaves the rollers as the south pass gives them, and `moved` holds exactly when they changed |
| Day14.SouthTiltFacts | day14/src/lib.rs:66-82 | after a south tilt every roller rests on a roller, a block or the south edge; the number of rollers is kept and none lands on a block |
| Day14.SouthTiltIdempotent | day14/src/lib.rs:66-82 | a settled platform is left as it is by a south tilt, so tilting south twice is tilting once |
| Day14.Map.TiltSouth | day14/src/lib.rs:66-82 | the rollers end as the south tilt of the rollers at the start |
| Day14.WestMoveFacts | day14/src/lib.rs:89-93 | one round of the row loop keeps every roller, lowers the sum of their columns by one per roller moved, and keeps rollers off blocks and short of column 100 |
| Day14.WestStill | day14/src/lib.rs:89-91 | no roller of a row is free exactly when every roller rests against a roller, a block or the west edge |
| Day14.WestRowFacts | day14/src/lib.rs:88-97 | the row loop ends with every roller resting west, the same number of rollers, and none on a block |
| Day14.WestTiltFacts | day14/src/lib.rs:86-99 | after a west tilt every roller rests against a roller, a block or the west edge; rollers are kept and none lands on a block |
| Day14.WestTiltIdempotent | day14/src/lib.rs:86-99 | a platform settled west is left as it is, so tilting west twice is tilting once |
| Day14.Map.TiltWest | day14/src/lib.rs:86-99 | each row in turn is run to rest, and the rollers end as the west tilt of the rollers at the start |
| Day14.EastMoveFacts | day14/src/lib.rs:101-108 | one round never adds a roller, keeps all of them when none lies past column 99, lowers the sum of their east distances by one per roller moved, and keeps rollers off blocks |
| Day14.EastStill | day14/src/lib.rs:104-106 | no roller of a row is free exactly when every roller short of column 99 rests against a roller or a block |
| Day14.EastRowFacts | day14/src/lib.rs:103-112 | the row loop ends with every roller short of column 99 resting east, none added, none on a block, and none lost when the row is narrow |
| Day14.EastTiltFacts | day14/src/lib.rs:101-114 | after an east tilt every roller short of column 99 rests against a roller or a block, none lands on a block, and a narrow platform keeps its rollers |
| Day14.EastTiltIdempotent | day14/src/lib.rs:101-114 | a platform settled east is left as it is, so tilting east twice is tilting once |
| Day14.Map.TiltEast | day14/src/lib.rs:101-114 | the rollers end as the east tilt of the rollers at the start |
| Day14.SpinFacts | day14/src/lib.rs:116-121 | a spin leaves the platform settled east, keeps rollers off blocks, and keeps the rollers of a narrow platform |
| Day14.Map.SpinCycle | day14/src/lib.rs:116-121 | the rollers end as north, west, south and east tilts in that order give them |
| Day14.IterateAdd | day14/src/lib.rs:160-163 | `a + b` steps are `a` steps followed by `b` more |
| Day14.IteratePeriodic | day14/src/lib.rs:160-163 | once a state recurs after `len` steps, any whole number of periods returns to it |
| Day14.SpinsShape | day14/src/lib.rs:151-163 | the platform after any number of spins keeps its shape, and one more spin is one more spin cycle |
| Day14.CycleShortcut | day14/src/lib.rs:160-165 | when the platforms after `m` and `n` spins are equal, the platform after the total number of spins is the one after `n` plus the remainder of the remaining spins modulo `n - m` |
| Day14.SkipExact | day14/src/lib.rs:149-165 | when the first repeated key is a true repeat of the platform, the load found by skipping ahead is the load after a billion spins |
| Day14.SkipFrom | day14/src/lib.rs:160 | the skip target in terms of the spin count and cycle length the search returns |
| Day14.SkipReached | day14/src/lib.rs:160-163 | spinning the remainder from the state after `n` spins reaches the state after the skip target |
| Day14.FirstRepeatUnique | day14/src/lib.rs:151-158 | the first repeated key and its earlier spin are unique |
| Day14.TracedIterate | day14/src/lib.rs:151-153 | a recorded trace of spins holds at index `k` the platform after `k` spins |
| Day14.TracedNext | day14/src/lib.rs:152-153 | one more spin extends the recorded trace |
| Day14.RecordedFound | day14/src/lib.rs:155-157 | when `insert` finds the key of spin `n` already in the map, `n` is the first repeat and the stored spin is its earlier occurrence |
| Day14.RecordedNext | day14/src/lib.rs:155-157 | inserting a new key keeps the map holding exactly the keys of the spins so far, each with its spin number |
| Day14.BoxShrinks | day14/src/lib.rs:151-158 | inserting a new key of bounded loads takes one pair out of the finite set still unseen, so the search ends |
| Day14.FindCycle | day14/src/lib.rs:149-159 | the search stops at the first spin whose pair of loads was seen before, returns it with its distance to that earlier spin, and leaves the platform after that many spins |
| Day14.Part2 | day14/src/lib.rs:149-165 | the answer is the load after the skipped-to number of spins, and it panics exactly when the first repeat comes after a billion spins |
| Day14.ReadRow | day14/src/lib.rs:134-140 | a row reads exactly when every byte is `.`, or `O` or `#` before column 128; bit `i` of the blocks and of the rollers is set for each `#` and `O` |
| Day14.GridDisjoint | day14/src/lib.rs:134-140 | a parsed platform never has a roller and a block in one cell |
| Day14.Map.Read | day14/src/lib.rs:131-141 | lines are zipped with the 100 rows, extra lines ignored; reading succeeds exactly when every read row is well formed, and fills the two grids from it |
| Day14.Map.Copy | day14/src/lib.rs:143-145 | part 1 works on a copy: fresh arrays holding the same rows |
| Day14.Map.Of | day14/src/lib.rs:126-129 | a map holding the given rows |
| Day14.Solve | day14/src/lib.rs:125-168 | malformed input panics; otherwise part 1 is the load after one north tilt and part 2 the load after the skipped-to number of spins, panicking exactly when the first repeat comes after a billion spins |
| Day15.Hash | day15/src/lib.rs:6-8 | the hash always fits a byte |
| Day15.HashFromSplit | day15/src/lib.rs:6-8 | folding over two pieces is folding over the second from where the first left off |
| Day15.HashIsFold | day15/src/lib.rs:6-8 | the hash is the fold of add-then-multiply-by-17 modulo 256, from 0, over the whole string |
| Day15.HashAppend | day15/src/lib.rs:6-8 | the hash of a concatenation continues from the hash of its first part |
| Day15.Part1Bound | day15/src/lib.rs:14-17 | each step adds at most 255 to the `u64` sum |
| Day15.FindOp | day15/src/lib.rs:21 | the search returns the first `=` or `-`, and nothing when there is none |
| Day15.ParseStep | day15/src/lib.rs:21-26 | a parsed label holds no `=` or `-`, and a parsed focal length fits a `u8` |
| Day15.ParseNoOp | day15/src/lib.rs:21 | a step with no `=` and no `-` panics |
| Day15.ParsePut | day15/src/lib.rs:21-27 | `label=text` puts a lens of focal length `text` exactly when `text` parses as a `u8`, and panics otherwise |
| Day15.ParseTake | day15/src/lib.rs:21-32 | `label-rest` takes the lens out whatever follows the `-` |
| Day15.ParseRender | day15/src/lib.rs:21-32 | every well-formed step reads back from its text |
| Day15.Find | day15/src/lib.rs:27-31 | the lookup returns the first slot holding the label, and nothing when no slot does |
| Day15.FindAt | day15/src/lib.rs:27-31 | the first slot holding a label is the one the lookup returns |
| Day15.InsertLookup | day15/src/lib.rs:25-28 | an insert maps the label to the new focal length, leaves every other label's entry alone, and keeps labels distinct |
| Day15.InsertLabels | day15/src/lib.rs:25-28 | a present label keeps its slot; a new label goes last |
| Day15.InsertMembers | day15/src/lib.rs:25-28 | every lens after an insert is the new one or one that was there |
| Day15.RemoveLookup | day15/src/lib.rs:30-32 | a remove unmaps the label, leaves every other label's entry alone, and keeps labels distinct |
| Day15.RemoveIsFilter | day15/src/lib.rs:30-32 | with distinct labels a remove keeps the other lenses in their order, and an absent label changes nothing |
| Day15.RemoveMembers | day15/src/lib.rs:30-32 | every lens after a remove was there before |
| Day15.WithoutAbsent | day15/src/lib.rs:30-32 | filtering out a label no lens has changes nothing |
| Day15.ApplyLookup | day15/src/lib.rs:20-36 | one step keeps every box a map of lenses hashing to it, and changes only its own label's entry |
| Day15.ArrangedLookup | day15/src/lib.rs:19-36 | after any steps each label's lens sits in box `HASH(label)` with the focal length of its last `=` step, unless a `-` step came after it |
| Day15.Arrange | day15/src/lib.rs:19-36 | the loop over the 256 boxes succeeds exactly when every step parses, and leaves the boxes the steps give from empty boxes |
| Day15.BoxPowerUpdate | day15/src/lib.rs:41-47 | changing the focal length in one slot changes the box's power by the difference times the 1-based slot |
| Day15.InsertPowerFound | day15/src/lib.rs:25-28 | an insert of a present label changes the power through its slot alone |
| Day15.InsertPowerNew | day15/src/lib.rs:25-28 | an insert of a new label adds its focal length times the new last slot |
| Day15.AsWrittenAgrees | day15/src/lib.rs:41-47 | when no focal length times slot reaches 256, the wrapping `u8` product gives the intended power |
| Day15.HashesCollide | day15/src/lib.rs:23 | `rn` and `cm` both hash to box 0 |
| Day15.BothInBoxZero | day15/src/lib.rs:19-36 | `rn=1,cm=200` leaves box 0 holding `rn` then `cm` |
| Day15.PowerOverflows | day15/src/lib.rs:41-47 | that box's power is 145 with the `u8` product as written, and 401 as intended |
| Day15.AllParse | day15/src/lib.rs:20-26 | the steps run exactly when every one of them parses |
| Day15.Solve | day15/src/lib.rs:10-52 | the text is trimmed and split at commas; the answer is defined exactly when every step parses, part 1 is the sum of the steps' hashes and part 2 the focusing power of the arranged boxes |
| Day16.OutgoingGeometry | day16/src/lib.rs:19-55 | an empty cell passes a beam on; the forward mirror turns `(dx, dy)` into `(-dy, -dx)` and the back mirror into `(dy, dx)`; a splitter passes a beam along its axis and splits one hitting its flat side into both directions along it |
| Day16.OutgoingCount | day16/src/lib.rs:19-55 | a cell emits one or two beams for every beam it receives |
| Day16.Emitted | day16/src/lib.rs:19-55 | the beams a cell inserts are exactly those at its position in the outgoing directions |
| Day16.Move | day16/src/lib.rs:67-76 | a step moves one cell by the direction's delta, and fails exactly when going up from row 0 or left from column 0 |
| Day16.RoundAdd | day16/src/lib.rs:94-101 | a round over one more beam adds exactly that beam's successors, so the drain order does not matter |
| Day16.ExploreTrace | day16/src/lib.rs:93-103 | the loop records each round as the round of the one before, starting from the entry beams, and stops when the next round is one already recorded |
| Day16.ClosedTrace | day16/src/lib.rs:93-103 | after the loop stops, every later round is one of the recorded ones |
| Day16.TraceHoldsRounds | day16/src/lib.rs:93-105 | every cell lit by any round, however late, is among the recorded lit cells |
| Day16.TraceFromRounds | day16/src/lib.rs:93-105 | every recorded lit cell is lit by some round |
| Day16.EnergizedCountsReached | day16/src/lib.rs:85-106 | the count `do_solve` returns is the number of cells any beam ever reaches, no more and no less |
| Day16.RectangularExplores | day16/src/lib.rs:88-95 | on a map whose rows all have the first row's length, marking a cell never panics |
| Day16.MarkOne | day16/src/lib.rs:95 | marking a cell adds exactly that cell to the marked set |
| Day16.MarksNone | day16/src/lib.rs:88 | the fresh `visited` grid marks nothing |
| Day16.CountMarks | day16/src/lib.rs:78-83 | `count_visited` counts each marked cell of the grid once |
| Day16.Drain | day16/src/lib.rs:94-101 | draining a beam set fails exactly when a beam is outside `visited`; otherwise it yields the next round and marks the cells of every drained beam |
| Day16.DrainStep | day16/src/lib.rs:95-100 | one drained beam extends the next round by its successors and the marks by its cell |
| Day16.Visit | day16/src/lib.rs:95-100 | one beam's cell is marked and its successors are collected when its next cell is on the map |
| Day16.ExploreStep | day16/src/lib.rs:93-103 | a round that stays inside `visited` keeps the loop state: the recorded rounds, the marks and the remaining exploration |
| Day16.ExplorePanics | day16/src/lib.rs:94-95 | a round with a beam outside `visited` makes the whole run panic |
| Day16.ExploreDone | day16/src/lib.rs:93-105 | when the beam set repeats, the count of the marks is the count of the specification |
| Day16.DoSolve | day16/src/lib.rs:85-106 | `do_solve` returns exactly the specified count, panicking on an empty map, an entry off the map or a beam outside `visited` |
| Day16.EdgeStarts | day16/src/lib.rs:128-141 | there are two entry points per column and two per row |
| Day16.EdgeStartsCover | day16/src/lib.rs:128-141 | every edge cell is an entry point with its inward direction |
| Day16.EdgeCountsAt | day16/src/lib.rs:130-141 | each entry point's count is the one `do_solve` gives for it |
| Day16.BestStep | day16/src/lib.rs:130-141 | taking the larger count at each entry point keeps the largest so far and where it was reached |
| Day16.Part2 | day16/src/lib.rs:128-141 | part 2 is defined exactly when the first row has cells and no entry point panics, and then it is the largest count, reached by some entry point |
| Day16.ParseGlyph | day16/src/lib.rs:112-124 | each cell's character parses back to that cell, and a character parses to a cell only if it is that cell's character |
| Day16.Solve | day16/src/lib.rs:109-144 | the answer is defined exactly when the map parses and no run panics; part 1 enters at the top-left heading right and part 2 is the best edge entry |
| Day17.HeatLoss | day17/src/lib.rs:23 | a digit's heat loss is its value, and every character's loss is below 256, the `u8` subtraction wrapping |
| Day17.NewGrid | day17/src/lib.rs:19-26 | the grid is well formed: the width of the first line is at most the number of cells |
| Day17.NewGridRectangular | day17/src/lib.rs:19-26 | lines of one non-zero width give a rectangular grid of that width with one cell per character |
| Day17.StepUp | day17/src/lib.rs:31 | up never panics and moves one row back in the same column; it is refused on the first row and also from the first cell of the second row |
| Day17.StepDown | day17/src/lib.rs:33 | down never panics and moves one row on in the same column; it is refused exactly on the last row |
| Day17.StepLeft | day17/src/lib.rs:34 | left never panics and moves one column back in the same row; it is refused exactly in the first column |
| Day17.StepRight | day17/src/lib.rs:32 | right never panics and moves one column on in the same row; it is refused exactly in the last column |
| Day17.StepStays | day17/src/lib.rs:28-37 | on a rectangular grid a step never panics, and every cell it returns is a cell of the grid |
| Day17.TurnsPerpendicular | day17/src/lib.rs:70-71 | the two turns are exactly the directions across the previous axis, and both leave the crucible on axis `prev ^ 1` |
| Day17.QueuedExact | day17/src/lib.rs:78-103 | with at least one required step, the run lengths after which states are queued are exactly `min..=max` |
| Day17.QueuedFromZero | day17/src/lib.rs:78-103 | with no required step, the queued run lengths are `1..=max + 1` |
| Day17.RunOfFour | day17/src/lib.rs:113 | on the grid `11111` the call `(0, 3)` admits a single run of four blocks from start to goal, which `(1, 3)` does not |
| Day17.MinCost | day17/src/lib.rs:55 | the priority taken is the least cost in the queue and some entry has it |
| Day17.LastAt | day17/src/lib.rs:57 | the entry popped has that cost and no entry queued after it has |
| Day17.Slot | day17/src/lib.rs:98 | the slot `(pos << 1) + dir` determines the cell and the axis, and lies below twice the cell index plus two |
| Day17.Advance | day17/src/lib.rs:79-84 | a step that the grid allows and whose cell exists is the step of `Grid::step`; on a rectangular grid it never panics |
| Day17.WalkForced | day17/src/lib.rs:78-84 | the forced steps end on the cell `min - 1` steps away in the turn's direction, with the heat lost on the way; on a rectangular grid they never panic |
| Day17.PushRun | day17/src/lib.rs:88-102 | a run of a queued length in a turn direction from a reached state reaches the state where it ends, with the cost summed along the run |
| Day17.Offer | day17/src/lib.rs:97-102 | a state is pushed only when its cost is below its cache slot, the slot is lowered to it, and every queued state keeps a path that reaches it |
| Day17.Turn | day17/src/lib.rs:73-104 | a turn only lowers the cache, pushes only states on the new axis that beat their cached cost, gives each a path, and never panics on a rectangular grid |
| Day17.BeatsChain | day17/src/lib.rs:98-102 | the pushes of the second turn, which beat the cache after the first turn, also beat the cache before both |
| Day17.Expand | day17/src/lib.rs:70-104 | both turns together only lower the cache and push only reached states on the new axis that beat the cache they started from |
| Day17.MarkStep | day17/src/lib.rs:65-68 | setting the clear bit of a popped state records it as expanded once more, keeps each state expanded at most once, and leaves one clear bit fewer |
| Day17.PopStep | day17/src/lib.rs:57 | the popped entry has a path reaching it, and the remaining entries keep theirs |
| Day17.VisitStep | day17/src/lib.rs:65-104 | expanding a state whose bit was clear keeps the search invariant and leaves one clear bit fewer |
| Day17.Visit | day17/src/lib.rs:65-104 | a popped state is skipped when its bit is set and is otherwise marked and expanded; either one bit fewer is clear or nothing changes |
| Day17.DoSolve | day17/src/lib.rs:40-108 | the search panics on an empty grid and never on a rectangular one; the cost returned is that of a path of allowed runs from the top-left to the bottom-right cell; each state is expanded at most once |
| Day17.Solve | day17/src/lib.rs:110-114 | each part's answer is the cost of some path of its allowed runs to the goal; an empty grid panics |
| Day18.Move | day18/src/lib.rs:25-30 | an instruction moves along one axis only, by its length, forward for up and right and backward for down and left |
| Day18.Vertices | day18/src/lib.rs:19-32 | the corners start at the origin and hold one more point per instruction, each the previous one moved by that instruction |
| Day18.Lengths | day18/src/lib.rs:23-33 | the perimeter adds exactly the length of every instruction, in order |
| Day18.WalkStep | day18/src/lib.rs:24-34 | one more instruction appends its end point to the corners and adds its length to the perimeter |
| Day18.DoSolve | day18/src/lib.rs:18-52 | the walk collects exactly the corners and the perimeter of the plan; the answer is the lagoon's size with the area taken without its sign (see Findings) |
| Day18.AsWrittenAgrees | day18/src/lib.rs:44-49 | the program's `2 - interior` equals the lagoon's size if and only if the halved shoelace sum is not positive; for a counter-clockwise trench it is smaller |
| Day18.CounterClockwiseSquare | day18/src/lib.rs:36-49 | the square trench right 1, up 1, left 1, down 1 encloses 4 cubes, and the program reports 2 |
| Day18.MirrorKeepsLagoon | day18/src/lib.rs:36-46 | reflecting the plan top to bottom negates the shoelace sum and keeps the lagoon's size |
| Day18.MirroredSquare | day18/src/lib.rs:44-49 | the program's answer is not invariant under reflection: the mirrored square gives 4 where the square gives 2 |
| Day18.RotateKeepsAnswer | day18/src/lib.rs:36-49 | turning the plan a quarter keeps the shoelace sum, the lagoon's size and the program's answer |
| Day18.ParseLetter | day18/src/lib.rs:60-66 | the first field is accepted exactly when it is one of U, D, L and R; anything else panics |
| Day18.ParseCode | day18/src/lib.rs:72-78 | the direction code is accepted exactly when it is one of 0 to 3; anything else panics |
| Day18.ParseHex | day18/src/lib.rs:71 | a parsed hexadecimal length lies below the `u32` bound |
| Day18.ParseColour | day18/src/lib.rs:69-85 | a colour token shorter than eight characters panics; a decoded hidden length is a `u32` |
| Day18.HexTextValue | day18/src/lib.rs:69-71 | five hexadecimal digits printed from a length below 16^5 read back as that length |
| Day18.ParseColourText | day18/src/lib.rs:69-85 | the colour token printed from a hidden instruction decodes to that instruction |
| Day18.ParseDecimalLength | day18/src/lib.rs:67 | a printed part 1 length has no space and parses back as the same `i64` |
| Day18.LineFields | day18/src/lib.rs:59 | a printed line splits at its spaces into the letter, the length and the colour |
| Day18.ParseLineText | day18/src/lib.rs:58-86 | a printed plan line parses back into both of its instructions |
| Day18.Plans | day18/src/lib.rs:80-88 | the unzipped plans hold the visible and the hidden instruction of each line, in line order |
| Day18.Solve | day18/src/lib.rs:55-91 | the answers exist exactly when every line parses, and are the lagoon sizes of the visible and the hidden plan |
| Day19.RouteFallback | day19/src/lib.rs:116-119 | a part that no rule of the workflow matches goes to the fallback |
| Day19.RouteFirst | day19/src/lib.rs:116-118 | otherwise it goes to the destination of the first rule whose rating is strictly below (`<`) or above (`>`) the threshold |
| Day19.UniformRulesRoute | day19/src/lib.rs:99-101 | dropping the rules when every one of them sends to the fallback routes every part to the same place |
| Day19.FollowFuel | day19/src/lib.rs:115-126 | once a route ends at `A`, at `R` or in a panic, a larger step budget ends it the same way |
| Day19.AcceptedFuel | day19/src/lib.rs:113-127 | the outcome from workflow `in` does not depend on the budget once it is reached |
| Day19.IsAccepted | day19/src/lib.rs:113-127 | the loop starts at `in` (a panic when missing), follows the first matching rule or the fallback, returns true at `A`, false at `R`, and panics at an unknown name |
| Day19.Cut | day19/src/lib.rs:150-191 | both halves of a cut box are boxes with each lower bound at most its upper bound |
| Day19.CutExact | day19/src/lib.rs:153-191 | with the remainder only narrowed, the matched box holds exactly the parts of the box the rule matches and the remainder exactly the others, for `<` and `>` |
| Day19.CutMatching | day19/src/lib.rs:156-184 | the matched box, `[min, t-1]` for `<` and `[t+1, max]` for `>`, holds exactly the parts of the box the rule matches |
| Day19.CutRemainder | day19/src/lib.rs:162-191 | the remainder holds exactly the parts of the box the rule does not match |
| Day19.Pieces | day19/src/lib.rs:150-206 | every box the workflow recurses on is a box |
| Day19.PiecesPartition | day19/src/lib.rs:150-206 | with both fixes, each part of the box lies in exactly one piece, whose destination is where `is_accepted` routes it, and a part outside the box lies in none |
| Day19.DoPart2 | day19/src/lib.rs:135-209 | the count is the product of `max - min + 1` at `A`, 0 at `R`, a panic at an unknown name, and otherwise the sum over the workflow's pieces |
| Day19.RunRules | day19/src/lib.rs:148-208 | the rule loop adds the answer of each matched box and of the last remainder at the fallback, stopping when a rule leaves no remainder |
| Day19.FallbackAfterBreak | day19/src/lib.rs:173-206 | for `in{x<5000:R,A}` the rule consumes every part, yet the fallback still receives the whole box: the program counts 4000^4 combinations where none is accepted |
| Day19.WideningPieces | day19/src/lib.rs:164 | for `in{x<2000:R,x<1000:R,A}` the second rule resets the remainder's lower bound from 2000 to 1000 |
| Day19.WideningRemainder | day19/src/lib.rs:162-167 | the part with x = 1500 is routed to `R`, yet as written it lies in two pieces, one sent to `R` and one to `A` |
| Day19.WideningCount | day19/src/lib.rs:153-206 | the program counts 3001 · 4000^3 accepted combinations for that workflow, where 2001 · 4000^3 are accepted |
| Day19.ParseRating | day19/src/lib.rs:33 | a rating is the text after the first `=`, parsed as a `u64` |
| Day19.ParsePart | day19/src/lib.rs:25-35 | a part needs the braces (a panic otherwise) and always has four ratings |
| Day19.ParsePartFields | day19/src/lib.rs:31-33 | the first four fields give x, m, a and s in order; ratings with no field stay 0 |
| Day19.ParseRule | day19/src/lib.rs:75-96 | a parsed threshold is a `u64` |
| Day19.AllSendTo | day19/src/lib.rs:99 | true exactly when every rule sends to the given destination |
| Day19.ParseWorkflow | day19/src/lib.rs:69-110 | a parsed workflow has no rules or has a rule that leads elsewhere than its fallback |
| Util.Collect | day19/src/lib.rs:214 | collecting name-value pairs into a map keeps exactly the names given |
| Util.CollectLastWins | day19/src/lib.rs:214 | a name given more than once keeps its last value |
| Day19.ParseRuleText | day19/src/lib.rs:75-96 | a printed rule parses back to itself |
| Day19.ParseRatingText | day19/src/lib.rs:33 | a printed `name=value` field parses back to its value |
| Day19.RatingFields | day19/src/lib.rs:31 | the four printed ratings split back at their commas |
| Day19.ParsePartText | day19/src/lib.rs:25-35 | a printed part parses back to itself |
| Day19.ParseInput | day19/src/lib.rs:213-214 | the input parses only when it holds a blank line |
| Day19.Part1Fails | day19/src/lib.rs:216-221 | the first part line that cannot be read or routed decides part 1 |
| Day20.ParseModule | day20/src/lib.rs:22-37 | a parsed line names a module as parsing leaves it (a flip-flop off, a NAND gate remembering no input), whose destinations are the text after ` -> ` split at `, ` |
| Day20.ParseFlipFlop | day20/src/lib.rs:28-36 | `%name -> rhs` is the flip-flop `name`, off, sending to the destinations of `rhs` |
| Day20.ParseNand | day20/src/lib.rs:28-36 | `&name -> rhs` is the NAND gate `name`, remembering nothing yet |
| Day20.ParseBroadcaster | day20/src/lib.rs:25-26 | the left side `broadcaster` is the broadcaster of that name |
| Day20.ParseUnknown | day20/src/lib.rs:28-32 | any other left side panics |
| Day20.WireNands | day20/src/lib.rs:148-164 | wiring keeps every name, every destination list and every module that is not a gate; each gate also remembers a low pulse from every module that lists it |
| Day20.Send | day20/src/lib.rs:79-97 | a module sends one pulse of the same level to each destination, in order |
| Day20.DrainCounts | day20/src/lib.rs:68-73 | every pulse taken from the queue is counted, even one to a name that is no module |
| Day20.PressCounts | day20/src/lib.rs:65-73 | a press counts at least the button's low pulse |
| Day20.PressesFail | day20/src/lib.rs:64-101 | once a press fails, every later number of presses fails the same way |
| Day20.SameInputs | day20/src/lib.rs:150-156 | modules with the same wiring have the same inputs |
| Day20.CollectFresh | day20/src/lib.rs:143-146 | collecting parsed lines keeps each module as parsing left it |
| Day20.WiredRemembers | day20/src/lib.rs:143-164 | once wired, every gate remembers exactly the modules that send to it |
| Day20.DeliverKeeps | day20/src/lib.rs:74-98 | delivering a pulse from an input keeps the wiring and each gate's memory keyed by its inputs, and every pulse sent comes from an input |
| Day20.DrainRemembers | day20/src/lib.rs:68-100 | draining a queue of pulses from inputs keeps each gate's memory keyed by exactly its inputs |
| Day20.PressesRemember | day20/src/lib.rs:64-101 | any number of presses keeps that, unless the broadcaster's name belongs to a gate |
| Day20.DrainKeepsKinds | day20/src/lib.rs:64-101 | presses keep every name, destination list and kind of module |
| Day20.DrainWiring | day20/src/lib.rs:68-100 | draining the queue keeps every name, destination list and kind of module |
| Day20.DrainTakes | day20/src/lib.rs:68-99 | popping the front pulse, counting it and pushing what it sends to the back leaves the rest of the drain unchanged |
| Day20.PressButton | day20/src/lib.rs:65-100 | the queue loop of one press gives the specified drain of the button's pulse |
| Day20.SolvePart1 | day20/src/lib.rs:61-104 | the loop gives the product of the high and the low pulses of 1000 presses |
| Day20.MsbIsReversedValue | day20/src/lib.rs:134-136 | bits read most significant first are the reversed bits read least significant first |
| Day20.ChainBits | day20/src/lib.rs:118-132 | the register after a chain holds the chain's bits reversed, padded with zeros |
| Day20.ChainReverseBits | day20/src/lib.rs:136 | `reverse_bits` of a chain's register is its value read least significant first, shifted up by the unused bits |
| Day20.ChainLeadingZeros | day20/src/lib.rs:136 | a chain whose first flip-flop counts has as many leading zeros as unused bits |
| Day20.ReversedChain | day20/src/lib.rs:136 | so the shifted, reversed register is the chain read least significant first |
| Day20.MsbFits | day20/src/lib.rs:114-132 | a chain of at most 64 flip-flops fits the `u64` register |
| Day20.RegisterCount | day20/src/lib.rs:121-124 | setting the low bit when a child is a gate appends a 1 for a flip-flop that feeds the gate, and a 0 otherwise |
| Day20.RegisterShift | day20/src/lib.rs:126-127 | `period <<= 1` appends a zero bit, wrapping at 64 bits |
| Day20.ContinueStep | day20/src/lib.rs:118-131 | one more flip-flop of the chain moves one bit into the register |
| Day20.WalkBranch | day20/src/lib.rs:113-137 | the loop of one branch gives the period the chain specifies |
| Day20.PeriodOfChain | day20/src/lib.rs:113-137 | a chain of at most 64 flip-flops whose first one feeds the gate has the chain read least significant first as its period |
| Day20.ProductFails | day20/src/lib.rs:110-138 | the first branch that fails decides part 2 |
| Day20.SolvePart2 | day20/src/lib.rs:109-139 | the branch walks multiplied from the first, wrapping at 64 bits, give the specified product |
| Day20.ReadModules | day20/src/lib.rs:143-164 | the parsed and wired modules remember exactly their inputs |
| Day21.Concat | day21/src/lib.rs:10-12 | the cells of all lines in order, at least as many as the first line has |
| Day21.LastStart | day21/src/lib.rs:14-18 | the index of the last `S`, with no `S` after it; none exactly when there is no `S` |
| Day21.ReadCells | day21/src/lib.rs:10-24 | reading the cells fails exactly when a byte is not `S`, `#` or `.` (or an `S` meets a zero side); otherwise it gives the rock indices and the last `S` as (row, column) |
| Day21.CellStep | day21/src/lib.rs:14-22 | one more cell adds its index to the rocks exactly when it is `#`, and moves the start to it exactly when it is `S` |
| Day21.LoadInput | day21/src/lib.rs:7-26 | loading succeeds exactly when the first line is not empty, every byte is known and there is an `S`; the side is the first line's length, the rocks are the `#` indices and the start is the last `S` |
| Day21.StartIsNoWall | day21/src/lib.rs:14-20 | the start is a plot, not a rock |
| Day21Part1.KeepOpen | day21/src/part1.rs:36-38 | the filters keep exactly the candidates inside the square and not on a rock |
| Day21Part1.NeighboursExact | day21/src/part1.rs:28-39 | a position's successors are exactly the open positions next to it |
| Day21Part1.WalkPrefix | day21/src/part1.rs:28-39 | a walk without its last step is a walk, and that step is to an open neighbour |
| Day21Part1.WalkSnoc | day21/src/part1.rs:28-39 | a walk with one more step to an open neighbour is a walk |
| Day21Part1.StepParity | day21/src/part1.rs:28-33 | every step changes the parity of `x + y` |
| Day21Part1.WalkParity | day21/src/part1.rs:15-20 | a walk's length has the parity of the change of `x + y`, so steps left decide which plots count |
| Day21Part1.WalkInUniverse | day21/src/part1.rs:37 | every walk ends at the start or inside the square |
| Day21Part1.MaxPriority | day21/src/part1.rs:13 | `max_priority` is the most steps left of any entry and is attained |
| Day21Part1.LastAt | day21/src/part1.rs:14 | `pop` takes an entry of that priority |
| Day21Part1.Pushes | day21/src/part1.rs:39 | each open neighbour is pushed with one step fewer left |
| Day21Part1.SkipKeeps | day21/src/part1.rs:16-18 | popping an already visited position keeps the search invariant |
| Day21Part1.HandleKeeps | day21/src/part1.rs:16-39 | handling a new position records its steps left and queues its neighbours, keeping the search invariant |
| Day21Part1.HandleAll | day21/src/part1.rs:16-39 | the same, with the pushes appended to the queue |
| Day21Part1.HandleQueueSound | day21/src/part1.rs:34-39 | every queued entry still has a walk from the start of the steps taken |
| Day21Part1.HandleOrdered | day21/src/part1.rs:13-39 | no entry has more steps left than a position already handled |
| Day21Part1.HandleClosed | day21/src/part1.rs:24-39 | every neighbour of a handled position with steps left is handled or queued |
| Day21Part1.EvenStep | day21/src/part1.rs:15-22 | counting a new position with an even number of steps left adds one |
| Day21Part1.Starting | day21/src/part1.rs:8-11 | the search starts with only the start queued, with every step left |
| Day21Part1.Covered | day21/src/part1.rs:13-40 | at the end, a walk of at most `total` steps ends at a handled position with at least the steps left that the walk leaves |
| Day21Part1.Finished | day21/src/part1.rs:13-42 | at the end, the counted positions are exactly the plots reachable in at most `total` steps by a walk of the parity of `total` |
| Day21Part1.EvenReaches | day21/src/part1.rs:15-22 | a counted position is reachable in at most `total` steps by a walk of the parity of `total` |
| Day21Part1.ReachesEven | day21/src/part1.rs:15-22 | a position reachable in at most `total` steps by a walk of the parity of `total` is counted |
| Day21Part1.Solve | day21/src/part1.rs:7-43 | the count is the number of plots reachable in at most `total` steps by a walk of the parity of `total` |
| Day21Part1.Part1 | day21/src/lib.rs:28-33 | part 1 fails exactly when loading fails; otherwise it counts the plots reachable in 64 steps from the `S`, with the start's row and column in the order the search expects |
| Day21Part1.TransposedStart | day21/src/lib.rs:16-33 | for the garden `.S` over `#.`, the (row, column) pair read as (x, y) starts the search on a rock |
| Day21Part2.New | day21/src/part2.rs:14-20 | the side is the number of columns of the square grid |
| Day21Part2.OriginalCoords | day21/src/part2.rs:22-24 | every position repeats a cell of the garden |
| Day21Part2.MetatileIsFloor | day21/src/part2.rs:27-31 | the correction for negative coordinates makes the truncating division a floor division |
| Day21Part2.Decompose | day21/src/part2.rs:22-31 | a position is its metatile's origin plus its original cell |
| Day21Part2.IndexPeriodic | day21/src/part2.rs:37-39 | moving by whole metatiles lands on a cell of the same kind |
| Day21Part2.Around | day21/src/part2.rs:68 | the four candidates are exactly the positions next to `p` |
| Day21Part2.WalkParity | day21/src/part2.rs:60 | a walk's length has the parity of the change of `x + y` |
| Day21Part2.WalkBounded | day21/src/part2.rs:68 | a walk stays within its length of the start along each axis |
| Day21Part2.WalkInBox | day21/src/part2.rs:68 | so a walk of at most `total` steps ends in the square around the start |
| Day21Part2.MinPriority | day21/src/part2.rs:56 | `min_priority` is the fewest steps of any entry and is attained |
| Day21Part2.LastAt | day21/src/part2.rs:57 | `pop` takes an entry of that priority |
| Day21Part2.PopKeeps | day21/src/part2.rs:56-62 | popping the entry of fewest steps visits a new position at its distance, marking it when its parity is that of `total` |
| Day21Part2.PopQueue | day21/src/part2.rs:56-58 | the queue still holds each unvisited position at its distance, once |
| Day21Part2.RelaxKeeps | day21/src/part2.rs:71-78 | trying a neighbour queues it exactly when it is open, unvisited and new, and otherwise leaves it at most one step further |
| Day21Part2.PushSound | day21/src/part2.rs:74-77 | a queued neighbour has a walk of its distance |
| Day21Part2.RelaxNeighbours | day21/src/part2.rs:68-79 | after the four neighbours the popped position is closed and the search invariant holds |
| Day21Part2.Starting | day21/src/part2.rs:48-54 | the search starts with the start at distance 0 |
| Day21Part2.NothingToClose | day21/src/part2.rs:64-66 | a position popped at `total` steps is closed as it is |
| Day21Part2.Covered | day21/src/part2.rs:56-80 | at the end, every walk of at most `total` steps ends at a visited position no further than the walk |
| Day21Part2.Finished | day21/src/part2.rs:56-80 | at the end, the marks are exactly the positions reachable in at most `total` steps by a walk of the parity of `total` |
| Day21Part2.Dijkstra | day21/src/part2.rs:42-81 | each position is marked once, and the marks are exactly the positions reachable in at most `total` steps by a walk of the parity of `total` |
| Day21Part2.TallyMetatiles | day21/src/part2.rs:88-92 | each metatile gets the number of marks it holds |
| Day21Part2.Frequencies | day21/src/part2.rs:94-97 | each count gets the number of metatiles that have it |
| Day21Part2.GroupAdd | day21/src/part2.rs:91 | one more mark adds one to its metatile's count |
| Day21Part2.Weight | day21/src/part2.rs:103-110 | the weight of a multiplicity: 1, 3 and 9 always have one, 2 and 4 only when `n > 0` (else the `usize` subtraction panics, as in a debug build), any other panics |
| Day21Part2.Combine | day21/src/part2.rs:101-112 | two terms add up, and a panic in either panics |
| Day21Part2.CombineSwap | day21/src/part2.rs:101-112 | terms can be added in either order |
| Day21Part2.TotalAny | day21/src/part2.rs:101-112 | the sum over the frequency table does not depend on the order of the hash map |
| Day21Part2.SumTerms | day21/src/part2.rs:101-112 | the loop gives that order-free sum |
| Day21Part2.MarksAreReached | day21/src/part2.rs:89-92 | the marks are the positions reachable in at most the searched number of steps, at its parity |
| Day21Part2.AnswerOfFreq | day21/src/part2.rs:94-112 | the sum over the frequency table is the weighted sum of the metatile counts |
| Day21Part2.Solve | day21/src/part2.rs:83-113 | the answer is the weighted sum over the metatile counts of the positions reachable in `3 * side + total % side` steps, with `n = total / side` |
| Day22.ParsePos | day22/src/lib.rs:32-39 | a parsed corner has `u16` coordinates |
| Day22.ParseBrick | day22/src/lib.rs:56-66 | a parsed brick has the given id and `u16` corners |
| Day22.ParsePosText | day22/src/lib.rs:32-39 | a printed corner parses back to itself |
| Day22.ParseBrickTextFields | day22/src/lib.rs:57-59 | a printed brick splits at its `~` into its two printed corners |
| Day22.ParseBrickText | day22/src/lib.rs:56-66 | a brick printed with its corners in order parses back to itself |
| Day22.ParseBrickTextSwapped | day22/src/lib.rs:60-64 | a brick printed with its corners the other way round parses to the same brick |
| Day22.ParseBrickOrders | day22/src/lib.rs:60-64 | when the corners are in order along two axes, the swap puts them in order along all three |
| Day22.MaxColumnBounds | day22/src/lib.rs:130-133 | the maximum over a column range is at least each of its entries |
| Day22.MaxColumnAttained | day22/src/lib.rs:130-133 | the maximum over a column range is one of its entries |
| Day22.MaxRectBounds | day22/src/lib.rs:130-133 | the maximum over the brick's rectangle is at least each entry |
| Day22.MaxRectAttained | day22/src/lib.rs:130-133 | the maximum over the brick's rectangle is one of its entries |
| Day22.CoversOnMap | day22/src/lib.rs:131 | every entry under a brick on the map is inside the map |
| Day22.FallToIsMax | day22/src/lib.rs:130-133 | `fall_to` is the highest entry under the brick, attained by one of them |
| Day22.RaiseHeights | day22/src/lib.rs:138-139 | raising the map over a landed brick gives the map of the pile with it |
| Day22.SettledErrGrows | day22/src/lib.rs:129-140 | a brick that cannot land makes the whole settling fail |
| Day22.SettledStep | day22/src/lib.rs:129-140 | each brick lands on the pile of the bricks before it, and a brick that cannot land makes the pile up to it fail |
| Day22.Settle | day22/src/lib.rs:127-140 | the loop succeeds exactly when every brick lands, and leaves the array holding the settled pile |
| Day22.SettledPrefix | day22/src/lib.rs:129-140 | the first bricks of a settled pile are the pile they make alone |
| Day22.SettledLands | day22/src/lib.rs:130-136 | each settled brick is its input brick landed on the settled bricks before it |
| Day22.SettledShape | day22/src/lib.rs:135-136 | settling moves a brick along z only, keeping its id, its x and y ranges and its height |
| Day22.TopAtAbove | day22/src/lib.rs:138-139 | the height map over a column is above every brick of the pile there |
| Day22.TopAtAttained | day22/src/lib.rs:138-139 | a non-zero entry is one above the top of some brick over that column |
| Day22.SettledApart | day22/src/lib.rs:129-140 | a later brick over a column of an earlier one starts above its top, so settled bricks do not overlap |
| Day22.SettledRests | day22/src/lib.rs:130-136 | every settled brick not on the ground rests directly on an earlier brick |
| Day22.ZKeyIsLexicographic | day22/src/lib.rs:125 | the sort key orders by `start.z`, then by `end.z` |
| Day22.SimulateUntilSettled | day22/src/lib.rs:124-141 | the bricks are sorted by `(start.z, end.z)` as a permutation and then settled in that order |
| Day22.CellUnique | day22/src/lib.rs:131 | on the map, an entry of the height map names one column only |
| Day22.SharedIntersects | day22/src/lib.rs:143-145 | bricks sharing a column intersect in x and y |
| Day22.IntersectsIffShared | day22/src/lib.rs:143-145 | for bricks on the map, intersecting in x and y is sharing a column, and is symmetric |
| Day22.SupportsMembers | day22/src/lib.rs:158-164 | the filter keeps exactly the earlier bricks with their top one below and intersecting in x and y |
| Day22.SupportersMembers | day22/src/lib.rs:149-165 | a brick's supporters are exactly the earlier bricks whose top is just below its bottom and that share a column with it; a brick on the ground has none |
| Day22.SupportsNoDup | day22/src/lib.rs:158-164 | distinct bricks give distinct supporters |
| Day22.TreeStep | day22/src/lib.rs:149-165 | one brick's entry keeps the tree in shape and ranked below its supportees |
| Day22.GetSupportTree | day22/src/lib.rs:147-167 | the tree fails exactly when a brick has more than three supporters; otherwise entry `id` lists that brick's supporters, without repeats, all ranked below it |
| Day22.Sole | day22/src/lib.rs:82-87 | sole supporters are ids of bricks |
| Day22.SoleSupporters | day22/src/lib.rs:82-87 | the loop collects exactly the bricks that are the only supporter of some brick |
| Day22.OnlyOne | day22/src/lib.rs:84 | a list without repeats all of whose entries are `b` is `[b]` |
| Day22.Part1Counts | day22/src/lib.rs:82-88 | part 1 counts exactly the bricks every supportee of which has another supporter |
| Day22.OccMembers | day22/src/lib.rs:92-94 | a supporter's list gets the supportee once per occurrence of the supporter |
| Day22.ChildrenMembers | day22/src/lib.rs:90-95 | `c` is recorded under `s` exactly when `s` supports the brick with id `c` |
| Day22.ChildrenGrow | day22/src/lib.rs:90-95 | the supportee lists only grow |
| Day22.PushSupportee | day22/src/lib.rs:92-94 | the inner loop fails exactly when a list outgrows its four slots, and otherwise records the entry's supportee |
| Day22.Supportees | day22/src/lib.rs:90-95 | the table fails exactly when a list outgrows its four slots, and otherwise lists each brick's supportees |
| Day22.InverseFromChildren | day22/src/lib.rs:90-95 | the supportee table is the inverse of the support tree |
| Day22.FallenLeast | day22/src/lib.rs:100-117 | the bricks that fall are the least set closed under falling that holds the removed brick |
| Day22.LayeredFromRanked | day22/src/lib.rs:90-95 | every supportee ranks above its supporter |
| Day22.ReleaseStart | day22/src/lib.rs:104-106 | popping a brick starts the scan of its supportees |
| Day22.ReleaseChild | day22/src/lib.rs:107-113 | a supportee falls and is queued exactly when all its supporters have fallen |
| Day22.Release | day22/src/lib.rs:105-114 | scanning the supportees keeps the search sound and decreases the queue's weight |
| Day22.ChainReaction | day22/src/lib.rs:99-118 | the count is the number of other bricks that fall when `b` is removed |
| Day22.ChainSumAny | day22/src/lib.rs:97-119 | the sum of chain counts does not depend on the order of the sole supporters |
| Day22.SumChains | day22/src/lib.rs:97-119 | part 2 is the sum, over the sole supporters, of the bricks that fall with each |
| Day22.IdsPermutation | day22/src/lib.rs:80 | rearranging bricks rearranges their ids |
| Day22.IdsFromNumbers | day22/src/lib.rs:71-75 | ids that are a rearrangement of `0..n` are below `n` and distinct |
| Day22.SortedById | day22/src/lib.rs:80 | after the sort by id, the brick at index `i` has id `i` |
| Day22.SettledIds | day22/src/lib.rs:129-140 | settling leaves the ids in place |
| Day22.ParseLines | day22/src/lib.rs:71-75 | the input parses exactly when every line does; line `i` is the brick with id `i` |
| Day22.Answer | day22/src/lib.rs:78-121 | the answers exist exactly when no brick has more than three supporters and no brick holds up more than four others; when the supporters fit, the tree is the pile's support tree; part 1 is the number of bricks that can be taken away and part 2 the summed chain reactions of the sole supporters |
| Day22.Solve | day22/src/lib.rs:69-122 | the run succeeds exactly when every line parses, the sorted bricks settle within `u16`, no brick has more than three supporters and none holds up more than four; the bricks are sorted as a permutation, the pile is the settled one, and the answers are those of its support tree |
| Day23Part1.Place | day23/src/part1.rs:29-34 | row `y`, column `x` is at flat index `y * width + x`, and that index gives back the row and column |
| Day23Part1.NonBlank | day23/src/part1.rs:29 | the bytes kept hold no ASCII whitespace |
| Day23Part1.ReadGrid | day23/src/part1.rs:27-29 | reading fails exactly when there is no line or the bytes do not fill whole rows of the first line's width; the height is the number of lines |
| Day23Part1.ArcsRule | day23/src/part1.rs:33-87 | an arc is laid exactly when some cell may step to an open cell |
| Day23Part1.ArcSource | day23/src/part1.rs:33-87 | every arc comes from a cell and a step to an open cell |
| Day23Part1.ArcLaid | day23/src/part1.rs:81-87 | every step from a cell to an open cell lays its arc |
| Day23Part1.LastDot | day23/src/part1.rs:47-51 | the last `.` of a row, with no `.` of that row after it; none when the row has none |
| Day23Part1.AddArcs | day23/src/part1.rs:81-87 | one cell adds an arc to each of its steps that is open |
| Day23Part1.LayCell | day23/src/part1.rs:38-87 | a cell fails exactly when its byte is unknown; otherwise it lays its arcs and marks the start or goal |
| Day23Part1.LayRow | day23/src/part1.rs:34-88 | one row of the grid loop lays the arcs and marks of its cells, or fails on an unknown byte |
| Day23Part1.LayArcs | day23/src/part1.rs:33-89 | the grid loop fails exactly when some byte is unknown; otherwise it lays every arc the rule allows, with the last `.` of the top row as start and of the bottom row as goal |
| Day23Part1.IntoGraph | day23/src/part1.rs:93 | `into_graph::<u16>` panics exactly when the labels or the edges of the graph map number more than 65535, the edges being the arcs for a directed map and the unordered pairs of ends for an undirected one; otherwise the graph has a node per label an arc touches and a hop of weight 1 per arc, and every hop leads to a node |
| Day23Part1.AddHops | day23/src/part1.rs:93 | the `add_edge` loop gives a node per label and a hop of weight 1 per arc, each hop leading to a node |
| Day23Part1.LinksHalve | day23/src/part2.rs:61-68 | arcs that come in reverse pairs and hold no loop make exactly half as many undirected edges |
| Day23Part1.LinksSplit | day23/src/part2.rs:61 | an arc and its reverse together make exactly one undirected edge, which no other arc makes |
| Day23Part1.SameLink | day23/src/part2.rs:61 | two arcs with the same ends, not a loop, are the same arc or each other's reverse |
| Day23Part1.ArcsLoopFree | day23/src/part1.rs:38-86 | no arc laid from the grid is a loop |
| Day23Part1.LaysMoves | day23/src/part1.rs:81-86 | the arc of a step joins two different labels |
| Day23Part1.StepMoves | day23/src/part1.rs:38-74 | every step moves to a cell with another `(u8, u8)` label |
| Day23Part1.Apart | day23/src/part1.rs:86 | neighbouring coordinates differ after `as u8` |
| Day23Part1.HopsCover | day23/src/part1.rs:16-21 | the maximum over the hops is at least the search along each unvisited hop |
| Day23Part1.SearchCoversWalks | day23/src/part1.rs:5-22 | no walk to the goal is longer than what the search finds |
| Day23Part1.HopsAttained | day23/src/part1.rs:16-21 | the maximum over the hops is 0 or the search along one of them |
| Day23Part1.SearchAttained | day23/src/part1.rs:5-22 | a non-zero result is the length of some walk to the goal |
| Day23Part1.LongestWalk | day23/src/part1.rs:5-22 | the search from the start finds the longest walk to the goal, or 0 when there is none |
| Day23Part1.Drop | day23/src/part1.rs:109 | the hops kept are exactly those not leading to the removed node |
| Day23Part1.Without | day23/src/part1.rs:109 | removing a node removes it and every hop into it |
| Day23Part1.Contract | day23/src/part1.rs:97-110 | contracting a node with two out-hops fails when one hop is a loop or the summed weight overflows `u16`, and in no other modelled case; otherwise the node is gone and the graph stays closed |
| Day23Part1.ContractHops | day23/src/part1.rs:104-109 | after a contraction each remaining node keeps its hops except into the removed node, and the two far ends gain hops to each other of the summed weight |
| Day23Part1.ContractIsRule | day23/src/part1.rs:95-114 | the contraction is defined at every node with two out-hops and keeps the graph closed |
| Day23Part1.ReachesStep | day23/src/part1.rs:95-111 | one more contraction extends the sequence of contractions |
| Day23Part1.ConsolidatesShrinks | day23/src/part1.rs:95-114 | the loop removes one node per round and ends with a closed graph where no node has two out-hops |
| Day23Part1.Consolidate | day23/src/part1.rs:95-114 | the loop contracts nodes with two out-hops until none is left, or fails with the first failing contraction |
| Day23Part1.ConsolidatesPanics | day23/src/part1.rs:95-114 | a failed consolidation fails with the panic of a failing contraction |
| Day23Part1.Finish | day23/src/part1.rs:95-119 | after the consolidation, the search runs from the start to the goal when both remain and the mask has a bit per node, and panics otherwise |
| Day23Part1.Solve | day23/src/part1.rs:24-120 | part 1 fails on a bad grid, an unknown byte or a missing start or goal, and panics when `into_graph::<u16>` finds more than 65535 labels or arcs; otherwise the graph is that of the laid arcs, the consolidation either fails (and so does the run) or ends in a graph where no node has two out-hops, and the answer is the search from the start to the goal when both remain and the mask has a bit per node, a panic otherwise |
| Day23Part2.StepBack | day23/src/part2.rs:43-48 | a path's neighbour sees the path as its neighbour |
| Day23Part2.ArcsSymmetric | day23/src/part2.rs:33-64 | on a map of paths and forest, every arc is laid in both directions |
| Day23Part2.PathArc | day23/src/part2.rs:43-61 | the step from a path cell to an open neighbour can be taken back |
| Day23Part2.BackOpen | day23/src/part2.rs:59 | a path cell is open |
| Day23Part2.OpenPlace | day23/src/part2.rs:59 | an open cell of a map of paths and forest is a path |
| Day23Part2.GridLinks | day23/src/part2.rs:56-68 | on a map of paths and forest the undirected edges `into_graph` indexes are exactly half the arcs laid |
| Day23Part2.GraphUndirected | day23/src/part2.rs:61-68 | the graph of symmetric arcs is undirected: each edge is a hop at both ends |
| Day23Part2.DropCount | day23/src/part2.rs:84 | removing a node drops every hop into it and keeps the count of the others |
| Day23Part2.Link | day23/src/part2.rs:83 | adding an edge keeps the nodes and keeps the graph closed |
| Day23Part2.Contract2 | day23/src/part2.rs:72-86 | contracting a node with two edges fails when one is a loop or the summed weight overflows `u16`, and in no other modelled case; otherwise the node is gone and the graph stays closed |
| Day23Part2.Bypass | day23/src/part2.rs:80-84 | replacing a node by one edge between its neighbours removes exactly that node |
| Day23Part2.Contract2IsRule | day23/src/part2.rs:70-91 | the contraction is defined at every node with two edges and keeps the graph closed |
| Day23Part2.LinkCount | day23/src/part2.rs:83 | adding an edge adds one hop at each end, and one only for a loop |
| Day23Part2.LinkUndirected | day23/src/part2.rs:83 | adding an edge keeps the graph undirected |
| Day23Part2.WithoutUndirected | day23/src/part2.rs:84 | removing a node keeps the graph undirected |
| Day23Part2.BypassUndirected | day23/src/part2.rs:80-84 | bypassing a node keeps the graph undirected |
| Day23Part2.Relinked | day23/src/part2.rs:83-84 | adding an edge and then removing a node keeps the graph undirected |
| Day23Part2.Contract2Undirected | day23/src/part2.rs:74-85 | one contraction keeps the graph undirected |
| Day23Part2.ConsolidatesUndirected | day23/src/part2.rs:70-91 | the whole consolidation loop keeps the graph undirected |
| Day23Part2.Consolidates2Panics | day23/src/part2.rs:70-91 | a failed consolidation fails with the panic of a failing contraction |
| Day23Part2.Finish2 | day23/src/part2.rs:70-96 | after the consolidation the graph is still undirected, and the search runs from the start to the goal when both remain and the mask has a bit per node, and panics otherwise |
| Day23Part2.Solve | day23/src/part2.rs:24-97 | part 2 fails on a bad grid, a byte other than `.` and `#`, or a missing start or goal, and panics when `into_graph::<u16>` finds more than 65535 labels or undirected edges; otherwise the graph is the undirected graph of the laid arcs, the consolidation either fails (and so does the run) or ends in an undirected graph where no node has two edges, and the answer is the search from the start to the goal when both remain and the mask has a bit per node, a panic otherwise |
| Day23Frontier.Solver.constructor | day23/23.py:13-16 | the solver starts with only the empty pairing, of length 0 |
| Day23Frontier.Solver.AddVertex | day23/23.py:18-22 | every state gains the pair `(v, v)`; for a new vertex each keeps its value and the states stay well paired |
| Day23Frontier.AddFresh | day23/23.py:21 | adding `(v, v)` for a new vertex keeps a state well paired |
| Day23Frontier.AddInjective | day23/23.py:21 | for a new vertex, different states stay different |
| Day23Frontier.FindPair | day23/23.py:30-37 | the scan finds the pair holding `v`, or none |
| Day23Frontier.RetireState | day23/23.py:30-41 | a state without `v` is kept, one with `(v, v)` loses it, and one where `v` ends a longer piece is dropped |
| Day23Frontier.RetireWellPaired | day23/23.py:30-41 | retiring keeps a state well paired and leaves no pair holding `v` |
| Day23Frontier.Store | day23/23.py:67-69 | a key gets the offered value only when it beats the stored one, 0 when none is stored |
| Day23Frontier.Solver.RemoveVertex | day23/23.py:24-42 | the start and end stay; otherwise every state is retired, each new key keeps the largest value offered, no pair holds `v`, and the states stay well paired |
| Day23Frontier.RetiredUnique | day23/23.py:28-42 | the retired table does not depend on the order the states are visited in |
| Day23Frontier.FindPairs | day23/23.py:52-56 | one scan finds the pairs holding `u` and `v` |
| Day23Frontier.MergeState | day23/23.py:57-64 | when `u` and `v` end two different pieces, the two pairs become one pair of their far ends, smaller first |
| Day23Frontier.MergeWellPaired | day23/23.py:57-64 | joining keeps a state well paired and removes one pair |
| Day23Frontier.Solver.AddEdge | day23/23.py:44-69 | every old state stays; each joinable old state offers its value plus the weight to the joined state, which keeps the best; the states stay well paired |
| Day23Frontier.ImprovedUnique | day23/23.py:47-69 | the improved table does not depend on the order the old states are visited in |
| Day23Frontier.ReadInput | day23/23.py:73-76 | reading fails exactly when the first stripped line is empty; the width is its length and there is at least one whole row |
| Day23Frontier.Adjacency | day23/23.py:78-92 | there is one list per cell |
| Day23Frontier.NeighboursRule | day23/23.py:79-87 | a cell lists a position exactly when one direction leads to it and it is open |
| Day23Frontier.AdjacencyRule | day23/23.py:78-92 | a cell lists exactly the open cells beside it in its row or column, and forest lists nothing |
| Day23Frontier.AdjacencySymmetric | day23/23.py:78-92 | the adjacency is symmetric |
| Day23Frontier.LastOpen | day23/23.py:146-150 | the last open cell of a row, with none after it; none when the row has none |
| Day23Frontier.FindStartAndEnd | day23/23.py:144-153 | fails exactly when the top or the bottom row has no open cell; otherwise the last open cell of each |

## Left out

- Day01: the line values and their `usize` sums are unbounded; a line value is at most 99, and the sums stay far below 2^64 on puzzle-sized input.
- Day02.Solve: which of several bad lines produces the panic is not modelled. Part 1's `all` stops at the first impossible handful and the parts run one after the other, so the first panic can come from a later line. The model reports the first bad line, and it fails on exactly the same inputs.
- Day02.Solve: the two `.sum::<u32>()` totals wrap mod 2^32, as a release build computes them. A debug build panics when a sum overflows; that result is not modelled. Each power is below 2^24 (`PowerFitsU32`), so only the sums can overflow.
- Day03.Solve: the neighbour lookup follows the corrected definition (see Findings). The as-written lookup is kept as `Day03.NeighbourAsWritten`.
- Day03.SurroundingsFindSymbols: stated for the corrected lookup, which skips a column outside the row; the source's flat-index lookup also sees the next row's first cell from the last column (see Findings).
- Day03.DigitRunFound: the flag is stated through the corrected lookup, not the source's flat-index lookup.
- Day03.Look: performs one lookup through the corrected `Neighbour`, not through the source's unchecked column.
- Day03.LookAround: the nine lookups go through the corrected `Neighbour`.
- Day03.ReadDigit: the lookups after each digit go through the corrected `Neighbour`.
- Day03.ScanLine: the row scan uses the corrected lookup, so a number in the last column is not credited through the next row's first cell.
- Day03.ScanNumbers: the row loop uses the corrected lookup; the as-written double credit across rows is shown only for a single lookup (`LastColumnSeesNextRow`), not carried through a whole scan.
- Day03.Solve: the index product `y * width` is taken unbounded; it stays below the vector length for any grid that fits in memory. Each gear's product is also taken unbounded, and only the sum is wrapped. That gives the same value modulo 2^64 as wrapping each product.
- Day03.ReadDigit: `number_so_far * 10 + d` wraps mod 2^64, as a release build computes it; the specification functions `ScanByte` and `Accumulated` wrap the same way. A debug build panics once a number passes 2^64 - 1 (a run of twenty digits or more); that result is not modelled.
- Day03.FinishNumber: `part1 += number_so_far` wraps mod 2^64, as a release build computes it; the specification function `Ended` wraps the same way. A debug build panics on the overflow; that result is not modelled.
- Day03.Solve: the gear products `l? * r?` and their `.sum::<u64>()` wrap mod 2^64, as a release build computes them. A debug build panics when a product or the sum overflows; that result is not modelled.
- Day03.CreditAll: its index guard never fires. The methods prove that every remembered position is inside the vectors.
- Day04.Score: a card with more than 64 matches would overflow the `usize` shift. The model does not wrap the shift or the sums, because a card has far fewer numbers than that.
- Day05.Part2IsLowestLocation: an input range of length 0 is dropped at the first line of the first map. When a map has no line, such a range survives and its start can become the answer. The model keeps this behaviour, so the lemma claims the answer is the location of a seed only when every map has a line.
- Day05: the shift `dest_start as isize - src_start as isize` is an exact integer difference; for starts at or above 2^63 the casts would wrap. Puzzle values stay below 2^32.
- Day05: the sums `src + len` and `start + len` are unbounded. A `usize` overflow there would panic in a debug build and wrap in a release build; puzzle inputs stay far below 2^64.
- Day07Part1.NewHandSpec: `Hand::new` is modelled as a release build, where `debug_assert_eq!` on the length is compiled out. A short string leaves the remaining slots at card 0, and characters after the fifth are ignored.
- Day07Part1.Solve: the unstable sort can order equal hands with different bids either way. The model promises only some sorted rearrangement. `RankingIsUnique` shows the answer is determined when equal hands carry equal bids. The same holds for `Day07Part2.Solve`.
- Day07Part1.Winnings: the bids and the weighted sum are unbounded. A `usize` overflow would need bids near 2^64 / 1000.
- Day08: directions stay characters, decoded only when a step uses them, because the source decodes the cycled line lazily. A missing node, a bad instruction and an empty line all panic; the model gives them one reason.
- Day08.StepsToGoal: the unbounded `for n in 0..` and `while` loops get a step budget `fuel`; a walk that never reaches a goal is reported as out of fuel rather than looping forever.
- Day08.Part2: the walks run one after another and are folded from the left, in the hash map's order (an arbitrary pick from the set of starts). rayon's parallel `reduce` may combine them in another tree; the least-common-multiple promise holds for any order.
- Day08.Part2: the first arrival is taken as the cycle length, as the source does; `WalksMeet` states when that reading gives the step at which all walks stand on `Z` nodes. The `lcm` products are unbounded.
- Day08: the `Display` of a direction is not modelled; it is used only for visualisation.
- Day09: readings and sums are unbounded integers; `i64` arithmetic on them would wrap in a release build, which puzzle values never approach. The `i64` range is kept for parsing.
- Day09.Solve: the iterator `map`/`reduce` is folded from the first line; a panic in any line is the panic.
- Day10.Search: the stack loop carries a step budget `fuel` and fails when it runs out; the search itself always ends, because each cell's distance only falls, but that bound is not proved.
- Day10.Search: `usize` coordinates are integers, so a step off the top or left edge gives -1 where the source (in a release build) wraps to a huge index; both are out of range and panic at the next lookup. A debug build would panic at the subtraction itself.
- Day10.Search: the shortest-distance property covers walks shorter than `usize::MAX` steps.
- Day10: the enclosed counts and their `usize` sum are unbounded; they are at most the number of cells.
- Day10: the `Display` of a pipe draws box characters and only serves debugging; it is not modelled.
- Day11: coordinates and sums are unbounded; the source's `usize` arithmetic cannot overflow on a puzzle-sized image.
- Day12: the counts are unbounded; `usize` sums of arrangement counts stay below 2^64 on puzzle input.
- Day12.Part: rayon's parallel `sum` is folded from the first line; addition does not depend on the order, and a panic in any line is the panic.
- Day12.CountArrangements: the count equals the number of fillings whose runs of `#` are the groups only when every group is positive, as on every puzzle line. A group of 0 never closes in the state machine, so the source's count then differs from the fillings count; the model keeps the source's behaviour.
- Day13: the scores and their `usize` sums are unbounded; they stay far below 2^64 on puzzle-sized input.
- Day13: rows are sequences of characters; the source slices them by byte, which agrees on the ASCII puzzle input.
- Day13.Solve: the `debug_assert!` on the range of part 2 is a check on one particular input and is not modelled.
- Day14: a `u128` row is a sequence of 128 bits; the bitwise operations and shifts are written out on it, with bits shifted past either end dropped.
- Day14.ReadRow: `1 << i` for a byte at column 128 or beyond overflows the shift; the model treats it as a panic, as a debug build does. A release build would set the bit `i % 128` instead.
- Day14: the `u32` load arithmetic is unbounded; `LoadBound` shows it stays below 2^32.
- Day14.EastTiltFacts: `LAST_COL` stops rollers at column 99, but a roller at column 100 or beyond rolls on and drops off the top bit. The contract keeps the roller count only for narrow platforms, which every puzzle input is.
- Day14.Part2: the search keys on the pair of the last two loads, not on the platform, as the source does. The answer is the load after the skipped-to number of spins; `SkipExact` states when that is the load after a billion spins.
- Day14.Part2: the hash map is a Dafny `map`; the `TOTAL_CYCLES - cycles_before_loop` underflow panics, as in a debug build.
- Day14: the `Display` of a map is for debugging and is not modelled. The puzzle input, read with `include_str!`, is a parameter.
- Day15: characters are hashed by their code point modulo 256 rather than by their UTF-8 bytes; the two agree on ASCII, which is all the puzzle input holds.
- Day15: an `IndexMap` is a sequence of lenses in insertion order. `insert` and `shift_remove` give a new sequence rather than updating in place; the vector of 256 boxes is an array updated in place.
- Day15.Solve: part 2 uses the intended product of focal length and slot, not the wrapping `u8` product (see Findings). The sums are unbounded; `Part1Bound` shows part 1 stays far below 2^64.
- Day16: the `usize` count of energized cells is unbounded; it is at most the number of cells.
- Day16.DoSolve: the set of seen beam sets holds sets; the program stores each set as a vector in hash order, which this model takes to be the same set whenever the contents are.
- Day16.Part2: the entry points run one after another, not in parallel, and their maximum is taken over one list instead of two nested maxima, which gives the same value.
- Day17: the grid is read as characters. The source takes the width as the first line's byte length and subtracts `b'0'` from every byte, so on non-ASCII input its widths and cell counts differ from the model's; they agree on ASCII input.
- Day17: a heat-loss digit is `c - '0'` wrapped to a byte, as a release build computes it; a debug build would panic on a character below `'0'`.
- Day17: path costs are unbounded; the `usize` sums of heat losses stay far below 2^64 on puzzle-sized input.
- Day17.DoSolve: only that the returned cost is the cost of some allowed path is proved. That it is the least such cost (the Dijkstra argument over the bucket queue and the cache) is not, and neither is that `None` means no path exists.
- Day17.DoSolve: the `bucket_queue` crate is not part of this model. Its queue is a sequence; `min_priority` is the least cost in it and `pop` takes the entry of that cost queued last, as a `Vec` bucket does.
- Day17.Solve: part 1 calls the search with the intended lengths `(1, 3)`, not the `(0, 3)` of the source (see Findings). The two parts run one after another rather than under `rayon::join`.
- Day18: coordinates, cross products and sums are unbounded integers; the source's `i64` arithmetic would overflow only for lengths far beyond the puzzle's (part 2 lengths are below 2^20).
- Day18.DoSolve: the area is taken without its sign (see Findings). That |A| + B/2 + 1 counts the cubes inside and on the trench is Pick's theorem, which is not proved here; the lemmas prove that the answer does not depend on the orientation of the plan.
- Day18.DoSolve: the `windows(2)` sum is the recursive `Shoelace` over the collected corners rather than a second loop.
- Day18.ParseColour: the token is sliced by character rather than by byte; the two agree on ASCII text, where the source also cannot panic on a character boundary.
- Day19.IsAccepted: the unbounded `loop` gets a budget of `fuel` workflow changes; a part that cycles between workflows is reported as out of fuel rather than looping forever. `Part2` has the same budget on its recursion depth.
- Day19.DoPart2: follows the corrected box split and skips the fallback after a `break` (see Findings). The as-written version is `Part2(AsWritten, …)`.
- Day19.DoPart2: that the count equals the number of accepted combinations is proved one workflow at a time (`PiecesPartition`), not across the recursion.
- Day19: volumes and sums are unbounded; `u64` products of four ranges up to 4000 and their sums stay far below 2^64.
- Day19.ParsePart: `zip` with the four slots reads at most four fields and leaves missing ones at 0, as the model does; the property names are not checked.
- Day19.Solve: `HashMap` order does not matter; `collect` keeps the last workflow of a name, and the two parts run one after the other.
- Day20: the unbounded `while let` of a press and the `loop` of a branch get budgets `fuel`; running out is reported as out of fuel rather than looping forever.
- Day20: the pulse counts and their product are unbounded; 1000 presses of a puzzle network stay far below 2^64.
- Day20.SolvePart2: `.product::<u64>()` of the periods wraps mod 2^64, as a release build computes it. A debug build panics when the product overflows; that result is not modelled. `period <<= 1` drops the top bit in every build.
- Day20.Product: the specification of that product wraps mod 2^64 in the same way, as a release build does.
- Day20.Reversed: `>> leading_zeros()` of a zero period would shift by 64, which panics in a debug build; the model shifts by `64 % 64` as a release build does.
- Day20.PressesRemember: proved only when the broadcaster's name is not a gate's; a gate named `broadcaster` would collide with the broadcaster in the hash map.
- Day20: the `FxHashMap` is a Dafny `map`; `collect` keeps the last module of a name, and the wiring does not depend on the map's order.
- Day20: `is_nand` and `is_flipflop` are the datatype's `Nand?` and `FlipFlop?` tests.
- Day21: `load_input` works on bytes; the model reads characters, which agree on the ASCII puzzle input. The bit set is a set of indices, and the flat index is not cast to `u32`.
- Day21Part1.Part1: starts the search from the `S` with its row and column in the order the search expects (see Findings). The as-written order is shown by `TransposedStart`.
- Day21Part1.Solve: the answer counts plots at an even number of steps left, as the source does; for any `total` this is the plots reachable in at most `total` steps by a walk of the parity of `total`, which is what is proved.
- Day21Part2.Solve: `lib.rs` passes the bit set and the side to `InfiniteGrid::new`, which takes a `Grid<bool>`; the model starts from the grid contents and does not model that conversion.
- Day21Part2.Solve: that the weighted sum extrapolates the count after `TOTAL_STEPS` steps rests on the shape of the puzzle input (an open middle row and column); it is not proved. The model proves what is searched and how the counts are weighted.
- Day21Part2: coordinates, distances and products are unbounded; `isize` and `usize` stay far from overflow on puzzle input.
- Day21Part2.Weight: `n - 1` at `n = 0` is a panic, as in a debug build. A release build wraps it to `2^64 - 1` and takes the products and the sum mod 2^64; that result is not modelled. `n` is the number of whole garden widths in the step count, so the case does not arise on the puzzle's step count.
- Day21Part2.Dijkstra: the search has no step budget; it ends because positions lie within `total` of the start, which the model proves.
- Day22: coordinates are `u16` as parsed. The `u16` subtraction `end.z - start.z` and the sum `end.z + 1` panic in a debug build when they overflow; the model treats both as panics.
- Day22: the height map is read at the flat index `x + y * SIDE`, as the source does; a brick with x of 10 or more reads another row's column. Every puzzle brick lies inside the 10 by 10 map.
- Day22.SimulateUntilSettled: the unstable sort may order bricks with equal keys either way; the model returns the order it uses as a ghost value and promises only that it is sorted and a permutation.
- Day22.Solve: the rayon `into_par_iter().sum()` is a loop over the sole supporters; `ChainSumAny` shows the sum does not depend on the order. The bit set is a Dafny `set`.
- Day22.Solve: an `ArrayVec` that outgrows its capacity panics; the model reports that as a panic.
- Day22: the `Debug` impls only format values and are not modelled.
- Day23: `lib.rs` replaces the slopes by `.` before part 2; `Day23Part2.Solve` takes the text after that replacement, and the replacement itself is not modelled.
- Day23Part1.Solve: petgraph's node order is not modelled. The consolidation loop may contract the nodes with two out-hops in any order, and the search may take the hops of a node in any order; the model proves the answer for whatever order it uses.
- Day23Part1.Solve: more than 128 nodes after consolidation is reported as a panic before the search. The source shifts a `u128` by a node index. A debug build panics only once that index reaches 128, so the model fails on more inputs than a debug build. A release build masks the shift to its low 7 bits and searches on with one bit for two nodes; that result is not modelled. `Day23Part2.Solve` does the same at 64 nodes with a `u64` mask.
- Day23Part1.Solve: the `u16` sums of distances and weights are checked and overflow is a panic, as in a debug build. A release build wraps them mod 2^16; that result is not modelled.
- Day23Part1.LongestWalk: that consolidation keeps the longest path between the start and the goal is not proved; the lemma is about the search on the consolidated graph.
- Day23Part1.Consolidate: each round's `add_edge` calls need free `u16` edge indices too. Part 1 adds two edges before it removes the node, so a round panics when the graph holds 65534 or 65535 edges; part 2 adds one, so it panics at 65535. The model contracts on. A round removes at least the two edges it replaces, so only a graph that `into_graph` left at those counts can meet the limit.
- Day23Part1.Contract: the two `add_edge` calls of a round (day23/src/part1.rs:107-108) need free `u16` edge indices, so the source also panics when the graph holds 65534 or 65535 edges. The contract does not count edges and contracts on; its `r.Ok? <==>` covers only the loop and the `u16` weight sum.
- Day23Part2.Contract2: the `add_edge` call of a round (day23/src/part2.rs:83) needs a free `u16` edge index, so the source also panics when the graph holds 65535 edges. The contract does not count edges and contracts on; its `r.Ok? <==>` covers only the loop and the `u16` weight sum.
- Day23Part1.Solve: on a grid whose graph has 65534 or 65535 arcs and a node with two out-hops, the source panics in the first consolidation round; the contract gives the result of contracting on.
- Day23Part2.Solve: on a grid whose graph has 65535 undirected edges and a node with two edges, the source panics in the first consolidation round; the contract gives the result of contracting on.
- Day23Part1.Consolidate: the `debug_assert_ne!` checks on loops are modelled as a failing contraction, as in a debug build. A release build compiles them out and contracts the loop; that result is not modelled.
- Day23Part2.Contract2: as in a debug build, a loop caught by `debug_assert_ne!` and a `u16` weight sum that overflows both fail the contraction. A release build compiles the check out and wraps the sum mod 2^16, so it would contract on; that result is not modelled.
- Day23Part2.Solve: the `u16` sums of distances in the search overflow to a panic, as in a debug build; a release build wraps them mod 2^16, which is not modelled.
- Day23Frontier: `dfs`, `construct_edge_contracted_graph`, `main`, `is_start`, `is_end` and `create_1d_bitset` are not modelled; reading `src/input.txt` is replaced by its lines as a parameter, and printing is left out.
- Day23Frontier.ReadInput: Python's `strip` removes Unicode whitespace, which includes the separators `\x1c` to `\x1f`; the model strips Rust's whitespace, which does not. Puzzle input holds neither.
- Day23Frontier.Solver.RemoveVertex: requires every state to be well paired. On a state where `v` ends two pairs, the result would depend on the set's iteration order.
- Day23Frontier.Solver.AddEdge: requires every state to be well paired, for the same reason.
- Day23Frontier.Solver.AddVertex: when `v` is already in some state, two states can land on the same key; which value wins depends on the dictionary's order, and the model leaves that open.

## Findings

| source | as written | input that shows it | evidently intended | confidence | as-written member | corrected member |
|---|---|---|---|---|---|---|
| day03/src/lib.rs:36-37 | a neighbour is looked up at flat index `y * width + x` with no check that `x` is inside the row, so a digit in the last column sees the first cell of the next row | "..1" over "*..": the `1` is counted as a part number because of the `*` two columns away | only the eight adjacent cells of the grid count | not executed | Day03.LastColumnSeesNextRow | Day03.NeighbourIsAdjacent |
| day15/src/lib.rs:46 | `focal_length * slot` is computed in `u8` before widening, so it wraps (or panics in a debug build) once the product passes 255 | `rn=1,cm=200`: box 0 has power 145 instead of 401 | the product of focal length and slot, computed in `u64` | not executed | Day15.PowerOverflows | Day15.BoxPowerUpdate |
| day17/src/lib.rs:113 | part 1 calls `do_solve(input, 0, 3)`, and `0..=3` walks four steps, so runs of four blocks are queued | the one-row grid `11111`: a single run of four blocks reaches the goal, which the three-block limit forbids | `do_solve(input, 1, 3)`, whose queued run lengths are exactly one to three | not executed | Day17.RunOfFour | Day17.QueuedExact |
| day18/src/lib.rs:49 | the answer is `2 - interior`, which equals the lagoon's size only when the shoelace area is not positive, as for a trench that runs clockwise with up as +y | the counter-clockwise square `R 1`, `U 1`, `L 1`, `D 1`: the lagoon holds 4 cubes and the program reports 2 | the interior plus the trench, A + B/2 + 1 with the area A taken without its sign, whichever way the trench runs | not executed | Day18.CounterClockwiseSquare | Day18.MirrorKeepsLagoon |
| day19/src/lib.rs:162-191 | the remainder's bound is set to the threshold outright (`min = t` for `<`, `max = t` for `>`), which widens a box already narrower than that | `in{x<2000:R,x<1000:R,A}`: after the first rule the remainder starts at x = 2000, the second rule resets it to 1000, and the parts with x from 1000 to 1999 are counted as accepted | the remainder's bound only narrowed, `max(min, t)` and `min(max, t)` | not executed | Day19.WideningCount | Day19.CutExact |
| day19/src/lib.rs:173-206 | when a rule leaves no remainder the loop breaks, but the fallback is still called with the box the rule consumed | `in{x<5000:R,A}`: every part is rejected, and the program counts 4000^4 accepted combinations | the fallback skipped once no remainder is left | not executed | Day19.FallbackAfterBreak | Day19.PiecesPartition |
| day21/src/lib.rs:16-33 | `load_input` gives the start as (row, column), and `part1::solve` reads it as (x, y), so the search starts at the transposed cell | the garden `.S` over `#.`: the `S` is at row 0, column 1, and the search starts at x = 0, y = 1, which is a rock | the search started at the `S`, with x the column and y the row | not executed | Day21Part1.TransposedStart | Day21Part1.Part1 |
