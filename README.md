# Advent of Code 2024, days 1-5, in Dafny

A Dafny model of the five puzzle solvers of an Advent of Code 2024
repository. Each solver has a `part_1` and a `part_2` that take the puzzle
input as a list of text lines and return a number.

- **Day 1, "Historian Hysteria".** Each line holds two location ids. `part_1`
  sorts both columns and adds up the distances between paired ids.
  `part_2` adds up each left id times the number of times it occurs on the
  right.
- **Day 2, "Red-Nosed Reports".** A report is a list of levels. It is safe
  when it is monotone and every step is 1 to 3. `part_1` counts safe
  reports. `part_2` also counts a report that one deletion makes safe.
- **Day 3, "Mull It Over".** A scan for `mul(X,Y)`, `do()` and `don't()`.
  `part_1` sums every `X*Y`. `part_2` only sums while the last switch seen,
  on any earlier line, was not a `don't()`.
- **Day 4, "Ceres Search".** A word search that counts `XMAS` in eight
  directions and `MAS` crosses, using eight `search_*` helpers and
  `search_cross_mas`.
- **Day 5, "Print Queue".** Page-ordering rules `A|B` and comma-separated
  updates. `part_1` sums the middle pages of the updates whose adjacent
  pairs follow a rule. `part_2` repairs the other updates in place with a
  bounded bubble sort (`sort_invalid`) and sums their middle pages.

Layout: one module per source file (`Day01` … `Day05`, in `day01.dfy` …
`day05.dfy`). There are two shared modules: `Wrappers` (`Option`) and
`Strings` (`Split`/`Join` on one separator character, decimal numerals,
`ParseInt`).

How the source is modelled:

- **Imperative code becomes methods.** Each loop becomes a method with
  invariants. Each method is proved against a pure specification function,
  and the puzzle's properties are lemmas about those functions.
- **Day 5's in-place sort.** `sort_invalid` works on an `array`. In
  `part_2`, the updates are separate arrays. The collected invalid updates
  are the same arrays, so sorting them changes the entries of `updates`.
- **Python exceptions become `None`.** Where Python raises `ValueError`
  (`int()` of a middle page that is not a number), the model returns
  `None`.

Where the code and its docstring disagree, the model follows the code. The
docstring at day05/solution.py:9 says `sort_invalid` fixes the update to
match the page ordering rules. But the test at day05/solution.py:24-25 keeps
a pair `(x, y)` only when the rule `y|x` exists, and swaps every other pair,
including pairs with no rule either way. So the repair does not give rule
order, and in general not reverse rule order either:

- `Day05.RepairKeepsReverseOrder` shows that the repair leaves the invalid
  update `2,1` as it is and reverses the valid update `1,2`.
- `Day05.RepairSwapsUnrelatedPairs` shows that a pair with no rule between
  its pages is swapped anyway, so the result need not be in reverse rule
  order.
- What is proved instead is narrower. `Day05.BreakLeavesReverseOrder` states
  that when the loop breaks, every pair the last, swap-free pass compared is
  backed by the reverse rule.
- `Day05.ReverseOrderedIsReversedOrder` and `Day05.MiddleOfReverse` show
  that an odd-length update in reverse rule order, read backwards, is in rule
  order and has the same middle page.

## Model

| member | source | states |
|---|---|---|
| Strings.Split | day05/solution.py:55 | `str.split(sep)`: at least one field, no field holds the separator, and joining the fields back gives the line |
| Strings.SplitJoin | day05/solution.py:58 | round trip: splitting the join of separator-free fields gives the fields back |
| Strings.ParseIntShow | day05/solution.py:72 | `int()` reads back any printed integer, negative ones included; the empty string is rejected |
| Strings.DecimalValueShowNat | day05/solution.py:72 | the value of the printed numeral of `n` is `n` |
| Day05.Classify | day05/solution.py:53-59 | a line is a rule iff it holds `\|` (even when it also holds `,`); otherwise it is an update iff it holds `,`; an update has at least two pages |
| Day05.ClassifyRecoversLine | day05/solution.py:54-58 | a rule line is `before\|after` and an update line is its pages joined by `,`; no field holds its separator |
| Day05.Updates | day05/solution.py:57-59 | every collected update has at least two pages |
| Day05.ListRuleMapKnows | day05/solution.py:53-56 | the list-valued `page_map` holds `b` under `a` iff some line is the rule `a\|b` |
| Day05.SetRuleMapKnows | day05/solution.py:98-101 | the set-valued `page_map` holds `b` under `a` iff some line is the rule `a\|b` |
| Day05.ListAndSetMapsAgree | day05/solution.py:98-101 | list storage (line 56) and set storage (line 101) give the same answer to every membership question |
| Day05.ShortUpdatesOrdered | day05/solution.py:65-69 | updates of zero or one page are valid: there is no adjacent pair to check |
| Day05.Partition | day05/solution.py:108-119 | valid and invalid updates together are exactly the updates (multiset union); every valid one passes the adjacency check, every invalid one fails it |
| Day05.SumMiddlesNoneAbsorbs | day05/solution.py:72 | once one `int()` fails, the whole answer fails |
| Day05.Middle | day05/solution.py:72 | `update[len(update)//2]` is one of the update's pages; `Day05.MiddleOfReverse` says which one under reversal |
| Day05.MiddleValue | day05/solution.py:123 | `int(update[len(update)//2])`, `None` for an empty update or a page that is not a number; `Day05.SumMiddlesOfNumbers` and `Day05.SumMiddlesNoneAbsorbs` give the sum it feeds |
| Day05.SumMiddlesOfNumbers | day05/solution.py:72 | when `int()` of every middle page succeeds, the answer is the sum of those values |
| Day05.Keeps | day05/solution.py:24-25 | the pair `(x, y)` is left in place exactly when `y` is a key of `page_map` and `x` is in `page_map[y]`; `Day05.PassStep` and `Day05.PassNoSwap` build on it |
| Day05.SwapAt | day05/solution.py:26 | the tuple swap exchanges `update[j]` and `update[j+1]` and changes nothing else |
| Day05.Pass | day05/solution.py:21-27 | one inner pass over comparisons `j .. stop-1` keeps the length; `Day05.PassStep`, `Day05.PassNoSwap` and `Day05.PassPermutes` state its pages and flag |
| Day05.PassStep | day05/solution.py:24-27 | one comparison: a kept pair leaves the pass as it is one position on; any other pair is swapped and sets `swapped` |
| Day05.Passes | day05/solution.py:18-30 | the outer passes from `i` on keep the length, stopping after the first pass that swaps nothing; `Day05.PassesPermute` and `Day05.BreakLeavesReverseOrder` state the rest |
| Day05.Repair | day05/solution.py:8-32 | what `sort_invalid` leaves in the update, of the same length; `Day05.RepairPermutes` states that it is a permutation |
| Day05.SwapAtPermutes | day05/solution.py:26 | a swap keeps the multiset of pages |
| Day05.PassPermutes | day05/solution.py:21-27 | an inner pass permutes the pages |
| Day05.PassesPermute | day05/solution.py:18-30 | the outer passes permute the pages |
| Day05.RepairPermutes | day05/solution.py:8-32 | the repaired update is a permutation of the input with the same length |
| Day05.CompareAndSwap | day05/solution.py:24-27 | one comparison on the array: `swapped` is set exactly when the rule `y\|x` is missing, the array is then the old one with `j` and `j+1` exchanged and otherwise unchanged, and the rest of the pass gives the same pages and flag |
| Day05.BubblePass | day05/solution.py:19-27 | the inner loop leaves the array as one pass over the array before, and `swapped` is that pass's flag |
| Day05.SortInvalid | day05/solution.py:8-32 | the array afterwards is `Repair` of the array before, a permutation of it |
| Day05.ComparisonsAtMostPairs | day05/solution.py:18-21 | the comparisons from pass `i` on are at most the number of pairs among the last `n-i` positions |
| Day05.ComparisonsBound | day05/solution.py:18-21 | the sort always terminates: at most `n` passes, pass `i` makes `n-i-1` comparisons, so at most `n(n-1)/2` in all |
| Day05.PassNoSwap | day05/solution.py:21-27 | a pass makes no swap iff every pair it compares `(x, y)` has `x in page_map[y]`, and such a pass leaves the pages unchanged |
| Day05.BreakLeavesReverseOrder | day05/solution.py:24-30 | when a pass makes no swap the loop breaks with the pages unchanged, and every pair that pass compared is backed by the reverse rule |
| Day05.RepairFixesExactlyReverseOrdered | day05/solution.py:18-30 | the first pass swaps nothing iff every adjacent pair `(x, y)` is backed by the rule `y\|x`, and such input is left unchanged by the repair |
| Day05.RepairKeepsReverseOrder | day05/solution.py:24-26 | with the single rule `1\|2`, the repair leaves the invalid `2,1` as it is and turns `1,2` into `2,1` |
| Day05.RepairSwapsUnrelatedPairs | day05/solution.py:24-26 | a pair with no rule either way is swapped too: with the single rule `1\|2`, `1,3` becomes `3,1`, which is not in reverse rule order |
| Day05.MiddleOfReverse | day05/solution.py:123 | for odd length the middle page of the reversed list is the same page; for even length it is the page before it |
| Day05.ReverseOrderedIsReversedOrder | day05/solution.py:24-25 | reverse rule order of a list is the forward adjacency check on the reversed list |
| Day05.RepairAllAt | day05/solution.py:121-122 | entry `k` of the repaired list is the repair of invalid update `k` alone |
| Day05.ParseWithLists | day05/solution.py:53-59 | the parsing loop builds exactly the list-valued map and the updates |
| Day05.IsValidWithList | day05/solution.py:65-69 | the check with early `break` returns true iff every adjacent pair is a rule |
| Day05.IsValidWithSet | day05/solution.py:111-115 | the same check against the set-valued map decides the same predicate |
| Day05.Part1 | day05/solution.py:35-74 | `part_1` returns the sum of the middle pages of the valid updates, or fails where `int()` fails |
| Day05.ParseWithSets | day05/solution.py:98-104 | the parsing loop builds the set-valued map and one fresh, distinct list per update |
| Day05.NewUpdate | day05/solution.py:103-104 | each update is a new list holding the split pages |
| Day05.CollectInvalid | day05/solution.py:108-119 | the collected lists are the very objects of `updates` that fail the check, in order |
| Day05.RepairOne | day05/solution.py:121-123 | sorting one invalid list repairs it in place, leaves every other list as it was, and reads its middle page, `None` where `int()` fails |
| Day05.RepairAndSum | day05/solution.py:121-123 | sorting each invalid list in place and summing gives the sum of the repaired middle pages; each list is left repaired |
| Day05.ValidateAndRepair | day05/solution.py:108-123 | through aliasing, every invalid entry of `updates` ends up repaired and every valid entry is unchanged |
| Day05.Part2 | day05/solution.py:77-125 | `part_2` returns the sum of the middle pages of the repaired invalid updates |
| Day02.SafeIffGentle | day02/solution.py:24-33 | a report is safe iff it is strictly increasing or strictly decreasing with steps of at most 3 |
| Day02.ShortReportsSafe | day02/solution.py:24-36 | empty and one-level reports are safe |
| Day02.RemoveAt | day02/solution.py:58-59 | `pop(i)` on a copy: the levels before `i` stay, the later ones move down by one |
| Day02.EmptyNotTolerable | day02/solution.py:57 | `part_2` never counts an empty report: `range(0)` offers no deletion |
| Day02.SafeIsTolerable | day02/solution.py:57-77 | a non-empty safe report stays safe after deleting its first level |
| Day02.MonotoneCheck | day02/solution.py:24-26 | the two `sorted()` comparisons decide "non-decreasing or non-increasing" |
| Day02.IsSafe | day02/solution.py:20-36 | the check with `is_safe` and early `break` returns true iff the report is safe |
| Day02.CountSafe | day02/solution.py:35-36 | at most one count per report |
| Day02.CountTolerable | day02/solution.py:75-77 | at most one count per report |
| Day02.Part1 | day02/solution.py:8-38 | `part_1` counts the safe reports, at most the number of lines |
| Day02.CheckSteps | day02/solution.py:60-72 | `is_safe` stays true iff every step is non-zero and at most 3; `unsafe_count` is 1 exactly when `is_safe` is false, else 0 |
| Day02.IsTolerable | day02/solution.py:56-77 | the deletion search returns true iff some single deletion leaves a safe report |
| Day02.Part2 | day02/solution.py:41-79 | `part_2` counts the reports that one deletion makes safe, each once, at most the number of lines |
| Day02.Part2CountsSafeReports | day02/solution.py:53-77 | with no empty report, `part_2` counts at least every report `part_1` counts |
| Day01.Insert | day01/solution.py:26-27 | inserting into a sorted list keeps it sorted and adds one element |
| Day01.Sort | day01/solution.py:26-27 | `list.sort()`: the result is sorted and a permutation of the input |
| Day01.SortedUnique | day01/solution.py:26-27 | two sorted lists with the same elements are equal, so any correct sort gives the same lists |
| Day01.SortOfPermutation | day01/solution.py:26-27 | the sorted list depends only on the multiset of ids |
| Day01.DistanceZeroIff | day01/solution.py:28-29 | the summed distance is 0 iff the two lists are equal |
| Day01.DistanceSymmetric | day01/solution.py:28-29 | the summed distance does not change when the lists are exchanged |
| Day01.TotalDistanceZeroIff | day01/solution.py:26-29 | `part_1` is 0 iff the right column is a permutation of the left column |
| Day01.ColumnsReorderInvariant | day01/solution.py:26-29 | reordering either column does not change `part_1` |
| Day01.LinesReorderColumns | day01/solution.py:20-23 | reordering the lines permutes each column |
| Day01.LinesReorderInvariant | day01/solution.py:20-29 | reordering the input lines does not change `part_1` |
| Day01.SwapColumnsInvariant | day01/solution.py:20-29 | swapping the two columns does not change `part_1` |
| Day01.ParseColumns | day01/solution.py:20-23 | the parsing loop builds the left and right columns |
| Day01.SumDistances | day01/solution.py:28-29 | the `zip` loop adds `abs(right - left)` over the sorted pairs |
| Day01.Part1 | day01/solution.py:7-31 | `part_1` is the distance between the sorted left and sorted right columns |
| Day01.OccurrencesIsMultiplicity | day01/solution.py:54-56 | `Counter(right)[x]` is the number of times `x` occurs on the right, and 0 for an absent id |
| Day01.AbsentIdContributesNothing | day01/solution.py:55-56 | a left id absent from the right column adds nothing |
| Day01.SimilarityReorderRight | day01/solution.py:54-56 | reordering the right column does not change `part_2` |
| Day01.Part2 | day01/solution.py:34-58 | `part_2` is the sum of `id * count(right, id)` over the left ids |
| Day04.SearchForward | day04/solution.py:12-20 | returns 0 or 1 |
| Day04.SearchBackward | day04/solution.py:23-31 | returns 0 or 1 |
| Day04.SearchDown | day04/solution.py:34-43 | returns 0 or 1 |
| Day04.SearchUp | day04/solution.py:46-55 | returns 0 or 1 |
| Day04.SearchDiagonalDownRight | day04/solution.py:58-68 | returns 0 or 1 |
| Day04.SearchDiagonalUpRight | day04/solution.py:71-81 | returns 0 or 1 |
| Day04.SearchDiagonalDownLeft | day04/solution.py:84-94 | returns 0 or 1 |
| Day04.SearchDiagonalUpLeft | day04/solution.py:97-106 | returns 0 or 1 |
| Day04.SearchForwardReads | day04/solution.py:12-20 | with at least two rows, 1 iff the row spells `XMAS` rightwards from `(i, j)`, the cell itself included; 0 when the window leaves the grid |
| Day04.SearchBackwardReads | day04/solution.py:23-31 | 1 iff the row spells `XMAS` leftwards from `(i, j)`, the cell itself included, and 0 when the window leaves the grid |
| Day04.SearchOthersRead | day04/solution.py:34-106 | for a cell holding `X`, each of the other six searches is 1 iff `XMAS` is spelt from it in its direction, so 0 when its window leaves the grid |
| Day04.MaxColIndex | day04/solution.py:145-146 | `MAX_COL_INDEX`: the last column of row 0 when there are at least two rows, and 0 for a one-row grid; `Day04.OneRowForwardNeverMatches` and `Day04.OneRowExamples` show the effect |
| Day04.OneRowForwardNeverMatches | day04/solution.py:145-146 | in a one-row grid the column bound is 0 and `search_forward` always returns 0 |
| Day04.XmasAt | day04/solution.py:147-171 | each cell adds at most 8 |
| Day04.XmasAtCountsWords | day04/solution.py:147-171 | with at least two rows, each cell adds the number of directions in which `XMAS` starts there |
| Day04.Part1CountsWords | day04/solution.py:143-173 | with at least two rows, `part_1` is the number of `XMAS` words in the grid |
| Day04.Part1Bound | day04/solution.py:147-171 | `part_1` is at most 8 times the number of `X` cells |
| Day04.OneRowExamples | day04/solution.py:145-146 | `["SAMX"]` gives 1, but `["XMAS"]` gives 0 although `XMAS` is spelt from its first cell |
| Day04.Part1 | day04/solution.py:133-173 | `part_1` adds the eight searches at every `X` |
| Day04.SearchCrossMas | day04/solution.py:109-130 | returns 0 or 1 |
| Day04.SearchCrossMasReads | day04/solution.py:109-130 | 1 iff both diagonals through `(i, j)` end in an `M` and an `S`, in either order; 0 for border cells |
| Day04.CrossMasAtIff | day04/solution.py:191-196 | a cell adds 1 iff it holds `A` and is the centre of a cross |
| Day04.Part2Bound | day04/solution.py:191-196 | `part_2` is at most the number of `A` cells |
| Day04.Part2 | day04/solution.py:176-198 | `part_2` adds `search_cross_mas` at every `A` |
| Day03.MulAt | day03/solution.py:21 | a match at `p` is `mul(x,y)` with operands of 1-3 ASCII digits |
| Day03.MulAtComplete | day03/solution.py:21 | every `mul(x,y)` written at `p` is matched there, with exactly those operands |
| Day03.FindMuls | day03/solution.py:21 | the left-to-right, non-overlapping scan returns only `mul` tokens; `Day03.FindMulsComplete` gives the converse |
| Day03.SkipNoM | day03/solution.py:21 | no match starts at a position that does not hold `m` |
| Day03.MulInnerNoM | day03/solution.py:21 | past its first character a matched `mul` token holds no `m` |
| Day03.MatchEndsBefore | day03/solution.py:21 | a match that starts before a written `mul(x,y)` ends at or before its start |
| Day03.FindMulsComplete | day03/solution.py:9-21 | completeness: every `mul(x,y)` written at or after `p` is among the matches of the scan from `p` |
| Day03.OperandSplits | day03/solution.py:25-26 | the comma split of a token gives `mul(x` and `y)`, and the split of the head at `(` gives `mul` and `x` |
| Day03.Operands | day03/solution.py:25-26 | the slicing yields exactly the two digit runs of the token |
| Day03.MulShapeUnique | day03/solution.py:25-26 | a token has only one reading as `mul(x,y)` |
| Day03.ProductBound | day03/solution.py:25-28 | each operand is at most 999, so each product is at most 999·999 |
| Day03.AllMuls | day03/solution.py:20-21 | the matches of every line are `mul` tokens |
| Day03.AddProducts | day03/solution.py:24-28 | the inner loop adds the product of every token of a line |
| Day03.Part1 | day03/solution.py:8-30 | `part_1` is the sum of `x*y` over all matches of all lines |
| Day03.CommandAt | day03/solution.py:49-52 | a match of the three-way pattern is `do()`, `don't()` or a `mul` token |
| Day03.FindCommands | day03/solution.py:49-52 | the scan returns only `do()`, `don't()` and `mul` tokens; `Day03.FindCommandsComplete` gives the converse |
| Day03.CommandAtComplete | day03/solution.py:49-52 | a `do()`, a `don't()` or a `mul(x,y)` written at `q` is exactly what the pattern matches at `q` |
| Day03.CommandLetters | day03/solution.py:49-52 | a matched command starts with `d` or `m` and holds neither letter again |
| Day03.FindCommandsReaches | day03/solution.py:49-52 | every match at `q >= p` is among the commands of the scan from `p` |
| Day03.FindCommandsComplete | day03/solution.py:34-52 | completeness: every `do()`, `don't()` and `mul(x,y)` written at or after `p` is among the commands of the scan from `p` |
| Day03.AllCommands | day03/solution.py:47-52 | the commands of every line are of those three kinds |
| Day03.FindCommandsMuls | day03/solution.py:49-52 | the `mul` tokens among a line's commands are exactly the matches of `part_1` |
| Day03.AllCommandsMuls | day03/solution.py:47-52 | across the whole input, `part_2` sees the same `mul`s as `part_1` |
| Day03.Enabled | day03/solution.py:45-59 | the `enabled` flag after a list of commands, starting from `True`; `Day03.EnabledIff` characterises it |
| Day03.EnabledIff | day03/solution.py:55-59 | `enabled` is set iff every `don't()` so far was followed by a `do()`, i.e. the most recent switch is a `do()` or there is none |
| Day03.NoDontEnabled | day03/solution.py:45-59 | without a `don't()`, `enabled` stays true |
| Day03.EnabledSumBound | day03/solution.py:55-67 | the enabled sum is at most the sum over all `mul`s, and equal to it when there is no `don't()` command |
| Day03.Part2AtMostPart1 | day03/solution.py:33-69 | `part_2` never exceeds `part_1` |
| Day03.DontIsWritten | day03/solution.py:49-52 | a `don't()` command comes from a `don't()` written in the line |
| Day03.NoDontSameAnswer | day03/solution.py:45-67 | when no line contains `don't()`, `part_2` equals `part_1` |
| Day03.CommandStep | day03/solution.py:55-67 | one more command: `do()` and `don't()` only set the switch, a `mul` adds its product iff the switch is on |
| Day03.ApplyCommands | day03/solution.py:55-67 | the loop over one line's commands yields the enabled sum and the switch of all commands so far |
| Day03.Part2 | day03/solution.py:33-69 | `part_2` sums `x*y` over the `mul`s met while `enabled`, the flag carrying over between lines |

## Left out

- Every `main()`: argument parsing, `input()`, reading `input.txt`, `print` and the `FileNotFoundError` handling. This is I/O.
- Day 1 and day 2 parsing (`line.split()` on whitespace and `int()`): the lines are taken as already-parsed integers. Day 1 takes pairs of integers, so the "exactly two fields" requirement is part of the input type. Day 2 takes lists of integers.
- Day 1 `list.sort()` is modelled by a functional insertion sort. `Day01.SortedUnique` shows that every correct sort gives the same lists, so the algorithm does not matter. The in-place mutation of the lists is not modelled.
- Day 1 `Counter`: modelled as the multiset of the right column.
- Day 2 `sorted()` comparisons and `deepcopy`/`pop`: modelled by predicates on sequences. Deleting from a copy is a function on a value, so the report is the same for every candidate deletion by construction.
- Day 3 regular expressions: a hand-written scanner for the three fixed token shapes. It reads ASCII digits only, while Python's `\d` also matches other Unicode decimal digits.
- Day 3 `int(x)` on operands: the operands are ASCII digit strings (`Day03.Operands`), so their value is taken directly.
- `Strings.ParseInt`: Python's `int()` also accepts surrounding whitespace, underscores between digits and non-ASCII digits. The model accepts an optional sign followed by ASCII digits only; everything else is `None` (a `ValueError`).
- Day 4 ragged grids and empty input: empty input raises `IndexError`, some ragged grids raise `IndexError`, and others return a count that depends on the first row's length. All of them are excluded by the precondition `Rectangular` (at least one row, all rows as long as the first).
- Day 4 diagonal searches take optional letters `a`, `b`, `c`. The callers never pass them, so the model fixes them to `M`, `A`, `S`.
- Day 5 rule lines with more than one `|` make the unpacking raise. They are excluded by the precondition `WellFormed`.
- Day 5 `itertools.pairwise`: modelled by an index loop over adjacent pairs.
- Day05.ValidateAndRepair: the final state of `updates` is stated only when no `int()` fails. On failure Python raises part-way through, and which lists were already sorted is not stated.
- Day05.Part1, Day05.Part2: a `ValueError` from `int()` is modelled as the answer `None`, not as an exception.
