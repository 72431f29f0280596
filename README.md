# aoc23 puzzle solvers in Dafny

This project models the solvers of a set of Advent of Code 2023 puzzles
(the `aoc23` package, plus the day 3 solver at the repository root) and
proves properties of the models. Each solver is its own module, one file
per puzzle day, with a shared module `Common` for the small pieces of
Python the solvers lean on (`str.split`, `str.strip`, `int()`, negative
indexing, `max`/`min`, sums).

The model follows each solver's own form. Pure Python (comprehensions,
recursion, folds) becomes datatypes, functions and lemmas. Code that
mutates state becomes classes with fields and `modifies` clauses
(`Day14.Puzzle`, `Day15.HashMap`, `Day16.Track`, `Day20.Node` and
`Day20.EventBus`, `Day22.Tower`, `Day21.Plan`, `Day12.FloorPlan`,
`Day23.Explorer`), arrays where the source works on a fixed-size list in
place (`Day22.Condense`), and methods with loops and invariants where the
source loops. Most methods are proved against a specification function;
the searches and walks (`Day17.AStar`, `Day22.Condense`, `Day23.Bfs`, the
`Day23.Explorer` methods, `Day25.BfsFurthest` and the drivers built on
them) are specified instead by properties of what they return. The
properties the puzzles rely on are proved about the specification
functions:

- day 2: colour-wise maxima of the draws and the "possible game" test;
- day 3: the halo of a part number, the parts next to a symbol and the
  gears with exactly two parts;
- day 4: matches, scores and the cascade of won card copies;
- day 5: remapping seeds and half-open seed ranges through shifted ranges,
  with the image of a range proved to be exactly the mapped points;
- day 7: hand types, joker boosting and the ordering of hands;
- day 8: walking the L/R network and the cycle lengths of the ghosts;
- day 9: finite differences and extrapolation in both directions;
- day 10: the pipe tables, the loop walk and the row inside counter;
- day 11: galaxy expansion and Manhattan distances;
- day 12: the regex-like spring pattern, its matcher, the memo and the
  partition of unfolded counts;
- day 13: mirror lines, exact and with one smudge;
- day 14: tilting rocks in place, spin cycles with a repeat shortcut, and
  the load;
- day 15: the HASH function and the 256-box lens table;
- day 16: beam tracing with per-cell direction sets;
- day 17: the crucible search over runs of moves;
- day 18: the dig path, its corners and the raycast interior count;
- day 19: rule workflows on single parts and on ranges of parts;
- day 20: the pulse circuit, its FIFO bus and the wiring;
- day 21: stepping garden plots and counting by age;
- day 22: settling bricks, safe removals and chain reactions;
- day 23: slope-aware hiking paths and the junction graph;
- day 25: undirected graph utilities, components and constrained BFS.

Python generators (`matches`, `bfs`, `follow`, `step_outward`,
`dfs_connections`) are modelled as sequences. Loops the source runs
`while True` or until a queue empties on inputs that may not terminate are
given a `fuel` bound, and their results say whether they finished.
Python's `hash()` used as a row fingerprint (days 13 and 14) is modelled
as equality of the rows themselves.

Some behaviours of the code that are easy to misread are modelled as
written:

- day 17: `options` excludes the reverse of the previous direction as well
  as the previous direction itself, and there is no separate minimum-run
  check beyond the run lengths the moves are built from; a 1×1 plan
  starts with no options, so the search pops an empty heap and raises.
- day 19: `PartRange.split`'s boundary branches return `(None, self)` or
  `(self, self)`, so they do not partition the range; they are modelled as
  written and no partition claim is made for them.
- day 13: the smudged search's answer is the first smudged mirror only
  when that mirror lies in the first half of the pattern (see
  `Day13.FindSmudgedReflection` below).

## Model

| member | source | states |
|---|---|---|
| Day2.Power | aoc23/day2.py:11-12 | a game's power is zero exactly when one of its colour counts is zero |
| Day2.Upper | aoc23/day2.py:15-21 | `upper` bounds both arguments colour by colour and is the least such bound |
| Day2.UpperCommutes | aoc23/day2.py:15-21 | `upper` is commutative |
| Day2.UpperIdempotent | aoc23/day2.py:15-21 | `upper` is idempotent |
| Day2.UpperAssociates | aoc23/day2.py:15-21 | `upper` is associative, so the order of the `reduce` does not matter |
| Day2.Minimums | aoc23/day2.py:44 | the reduced minimums bound every draw and lie within any other bound of all draws |
| Day2.PossibleIffEveryDraw | aoc23/day2.py:51-56 | a game is possible exactly when every one of its draws fits within the candidate |
| Day2.ColourAt | aoc23/day2.py:24 | a colour is recognised only where a space and that colour's word (`blue`, `green` or `red`) are written, and the length returned is the word's |
| Day2.ColourAtNone | aoc23/day2.py:24 | no colour is recognised exactly when none of the three words follows the space |
| Day2.ColourWritten | aoc23/day2.py:24 | a colour word written after a space is recognised as that colour, whatever follows it |
| Day2.FindAll | aoc23/day2.py:24-28 | `findall` yields at most one match per character of the text |
| Day2.ItemFound | aoc23/day2.py:24-28 | a match written as `<count> <colour>` at the start of the text is found, and the scan resumes right after it |
| Day2.FindAllWritten | aoc23/day2.py:24-28 | a draw written as `<count> <colour>` items separated by `, ` is read back as exactly those items, in order |
| Day2.LastCount | aoc23/day2.py:29-31 | a colour with no match counts zero; otherwise the count comes from the last match of that colour, as the dict comprehension keeps the last |
| Day2.ToRgbDefaultsToZero | aoc23/day2.py:27-32 | a colour the draw does not mention is zero |
| Day2.ToRgbWritten | aoc23/day2.py:27-32 | `to_rgb` of a written draw, with or without a leading space, gives the last count written for each colour and 0 for a colour not written |
| Day2.ToRgbExample | aoc23/day2.py:27-32 | the draw " 3 blue, 4 red" reads as red 4, green 0, blue 3 |
| Day2.LineRest | aoc23/day2.py:35 | `(.*)` captures the rest of the line up to, and not including, the first newline, or to the end when there is none |
| Day2.ParseGame | aoc23/day2.py:35-46 | a parsed game starts with "Game ", has at least one draw, and its minimums are the least bound of its draws |
| Day2.ParseGameRejects | aoc23/day2.py:40-46 | a line that does not start with "G" is rejected (the `ValueError`) |
| Day2.ParseGameWritten | aoc23/day2.py:35-46 | a line written `Game <id>: ` followed by draws separated by `; ` parses back to that id, the counts of each draw in order, and their minimums |
| Day2.Day2A | aoc23/day2.py:70-75 | the sum exists exactly when every line parses, and is zero for no lines |
| Day2.Day2B | aoc23/day2.py:78-83 | the sum of powers exists exactly when every line parses, and is zero for no lines |
| Day2.SampleAnswers | aoc23/day2.py:59-83 | on the sample, games 1, 2 and 5 are possible and 3 and 4 are not, and the powers of the minimums add up to 2286 |
| Day3.RowCells | day3.py:29-30 | `range(a, b)` on one row gives the cells from a to b-1, in order |
| Day3.HaloAdjacent | day3.py:29-32 | a cell is in a part's halo exactly when it touches the part's digits, diagonals included, without lying on them |
| Day3.HaloCellsDistinct | day3.py:29-32 | the upper row, lower row and two sides of a halo share no cell |
| Day3.HaloSize | day3.py:29-32 | a halo has two rows of the run's length plus two, and two side cells |
| Day3.DigitRunsMaximal | day3.py:37-38 | each run `\d+` finds is a maximal block of digits inside the line |
| Day3.DigitRunsOrdered | day3.py:37-38 | runs come left to right without touching |
| Day3.DigitRunsCover | day3.py:37-38 | every digit lies in some run |
| Day3.PartOf | day3.py:25-28 | a part spans a non-empty run of digits on one row |
| Day3.ToParts | day3.py:37-38 | every part of a line is well formed and lies on that line's row |
| Day3.ToPartsCover | day3.py:37-38 | a column holds a digit exactly when some part spans it |
| Day3.ToPartsRuns | day3.py:25-38 | each part is a maximal run of digits and its value is those digits read in decimal |
| Day3.SpigotsFrom | day3.py:49-50 | the spigots of a line lie on its row |
| Day3.SpigotsFromExactly | day3.py:40-50 | a spigot is found exactly at each character of the line that is neither a digit nor '.', and carries that character |
| Day3.PartsOf | day3.py:55-56 | the parts gathered over the lines are well formed |
| Day3.Read | day3.py:53-58 | a schematic's parts are well formed |
| Day3.SpigotsOfExactly | day3.py:55-58 | the schematic's spigots are exactly the characters of `[^0-9.]` at their row and column |
| Day3.Candidates | day3.py:60-61 | the candidate parts are well formed |
| Day3.CandidatesExactly | day3.py:60-61 | a part is a candidate exactly when its halo meets a spigot position |
| Day3.Values | day3.py:77 | one value per part |
| Day3.SharesAt | day3.py:61 | a part's share is its value when its halo meets a spigot position and 0 otherwise |
| Day3.CandidatesSum | day3.py:60-61 | summing the values of the filtered candidates equals summing every part's share |
| Day3.Day3A | day3.py:72-77 | the answer is the sum over all parts of the schematic of each part's value if it touches a spigot and 0 otherwise |
| Day3.Stars | day3.py:64 | a spigot is kept exactly when it is a '*', and no more stars come out than spigots went in |
| Day3.PairsAreGears | day3.py:63-70 | a set of parts is returned exactly when it is the set of parts adjacent to some star and has two members |
| Day3.AdjacentExactly | day3.py:29-32 | part i is in a cell's adjacency set exactly when the cell touches part i without lying on it |
| Day3.IdentifyGearedPairs | day3.py:63-70 | the loop over parts and halos builds the defaultdict whose star entries of size two are the pairs specified |
| Day3.AdjacencyMap | day3.py:65-68 | after the loop over parts and their halos, every cell maps to exactly the parts whose halo holds it |
| Day3.AddHalo | day3.py:67-68 | the inner loop adds the part under every cell of its halo and nowhere else |
| Day3.AddTo | day3.py:68 | `adjacency_map[h].add(part)` adds the part at h and changes no other cell |
| Day3.IndicesIn | day3.py:84 | the members of a pair, listed in increasing order |
| Day3.IndicesInSet | day3.py:84 | that list holds exactly the set's members, once each |
| Day3.GearRatioOfPair | day3.py:84 | a star with exactly two adjacent parts contributes the product of their values, any other star nothing |
| Day3.SpigotRatiosAt | day3.py:64 | a spigot's share is its gear ratio when it is a '*' and 0 otherwise |
| Day3.StarsSum | day3.py:64 | summing the gear ratios of the filtered stars equals summing every spigot's share |
| Day3.Day3B | day3.py:79-84 | the answer is the sum over all spigots of the schematic of the gear ratio of each '*' and 0 for the others |
| Day4.Matches | aoc23/day4.py:13-14 | the match count is no larger than either the winning or the revealed set |
| Day4.CardinalityOfIntersection | aoc23/day4.py:13-14 | an intersection is no larger than either set |
| Day4.Points | aoc23/day4.py:16-21 | a card scores nothing exactly when it has no matches |
| Day4.PointsDouble | aoc23/day4.py:16-21 | each further match doubles the score |
| Day4.Score | aoc23/day4.py:16-21 | a card scores exactly when one of its winning numbers is revealed |
| Day4.Copies | aoc23/day4.py:50-56 | every card is held at least once |
| Day4.NoMatchesNoCopies | aoc23/day4.py:50-57 | with no matches anywhere, every card is held exactly once |
| Day4.NoContributions | aoc23/day4.py:53-56 | with no matches anywhere, no card wins a copy of another |
| Day4.CascadeCounts | aoc23/day4.py:50-57 | the in-place cascade over the counts array totals the copies that the recursive definition gives every card |
| Day4.LastIndexOf | aoc23/day4.py:3 | the greedy `(.*)` before the escaped bar splits at the last bar: the index holds a bar and no bar follows it |
| Day4.ParseCard | aoc23/day4.py:3-11 | a parsed card line starts with "Card" |
| Day4.ParseSides | aoc23/day4.py:3-11 | no '|' means no card; otherwise the winners are the set of the numbers before the last '|' and the revealed numbers the set of those after it, each side read as blank-separated integers |
| Day4.ParseSidesWritten | aoc23/day4.py:3-11 | the numbers written with single spaces on either side of a spaced bar are read back as the sets of those numbers |
| Day4.ParseCardWritten | aoc23/day4.py:3-11 | a line written `Card <id>:` followed by the winning numbers, a bar and the revealed numbers, all single-spaced, parses back to that id and the sets of the two lists |
| Day4.MatchCounts | aoc23/day4.py:42-52 | the match counts exist exactly when every line parses, one per line, each that card's match count |
| Day4.SumPoints | aoc23/day4.py:37-42 | the total score is zero exactly when no card has a match |
| Day4.Day4A | aoc23/day4.py:37-42 | the total exists exactly when every line parses, and is zero exactly when no card scores |
| Day4.Day4B | aoc23/day4.py:45-57 | the number of cards held is the total of copies over all cards, or nothing when a line is malformed |
| Day4.FirstSampleCard | aoc23/day4.py:28 | the first sample card has four matches |
| Day4.SampleAnswers | aoc23/day4.py:37-49 | the sample's match counts score 13 points and end with 30 cards |
| Day5.Len | aoc23/day5.py:43-44 | a range has positive length exactly when it is non-empty (its truth value) |
| Day5.Overlap | aoc23/day5.py:43-44 | `range_overlap` contains exactly the values in both ranges |
| Day5.Perturb | aoc23/day5.py:58-62 | a value in the perturbation's source range moves by `to - fr`; any other value stays |
| Day5.NonEmptyOnly | aoc23/day5.py:69-76 | dropping empty ranges keeps the covered values and the total length |
| Day5.RangeImpacts | aoc23/day5.py:67-80 | the unaffected pieces cover exactly the part of the range outside the source range, the perturbed piece exactly the shifted overlap, lengths add up, and a range that does not overlap is returned whole |
| Day5.RangeImpactsExample | aoc23/day5.py:49-52 | the doctest: range(2, 4) against (0, 70, 3) gives [range(3, 4)] and [range(72, 73)] |
| Day5.Pass | aoc23/day5.py:102-107 | after one perturbation's pass no untouched range still overlaps it |
| Day5.PassLength | aoc23/day5.py:101-107 | one pass keeps the total length of the ranges |
| Day5.PassStays | aoc23/day5.py:101-107 | after a pass the unaffected ranges cover exactly the values outside the perturbation's source |
| Day5.PassMoves | aoc23/day5.py:101-107 | a pass perturbs exactly the values inside the perturbation's source, shifted |
| Day5.Passes | aoc23/day5.py:98-108 | after the first i perturbations the unaffected ranges cover the values no earlier perturbation hit, the perturbed ones the values moved by the first that hit them, and lengths are kept |
| Day5.MovedByStep | aoc23/day5.py:101-107 | a value is moved within the first i + 1 perturbations exactly when it was within the first i or perturbation i moves it |
| Day5.CallUntouched | aoc23/day5.py:87-96 | a value no perturbation contains maps to itself |
| Day5.CallHit | aoc23/day5.py:87-96 | a value maps by the first perturbation that contains it |
| Day5.FirstHit | aoc23/day5.py:92-96 | either no perturbation contains a value or there is a first one that does |
| Day5.ApplyToRangeSpec | aoc23/day5.py:98-108 | `apply_to_range` returns ranges whose lengths add up to the input range's length |
| Day5.ApplyToRangeImage | aoc23/day5.py:87-108 | the ranges `apply_to_range` returns cover exactly the image of the range under the mapping's `__call__` |
| Day5.RemoveFirst | aoc23/day5.py:106 | `list.remove` takes out exactly one element |
| Day5.RemoveFirstAfter | aoc23/day5.py:102-107 | removing an element from the copy it was found in removes that occurrence |
| Day5.PassSnoc | aoc23/day5.py:102-107 | a pass over one more range either splits it into the new unaffected and perturbed pieces or leaves it unaffected |
| Day5.ApplyPerturbation | aoc23/day5.py:102-107 | the inner loop over a copy of the unaffected list produces exactly one pass |
| Day5.PerturbOne | aoc23/day5.py:103-107 | one range of the copy taken through `applies`, `range_impacts`, `remove` and `extend` moves the lists from the pass over the ranges before it to the pass that includes it |
| Day5.ApplyToRange | aoc23/day5.py:98-108 | the method returns the specified ranges, of the input range's total length |
| Day5.ImpactsNonEmpty | aoc23/day5.py:69-77 | `range_impacts` of a non-empty range yields only non-empty ranges |
| Day5.ApplyToRangeNonEmpty | aoc23/day5.py:98-108 | a non-empty range maps to non-empty ranges only |
| Day5.ApplyToRangesImage | aoc23/day5.py:110-111 | the mapped ranges cover exactly the image of the ranges |
| Day5.ApplyToRangesKeeps | aoc23/day5.py:110-111 | mapping keeps the total length and non-emptiness |
| Day5.ApplyToRanges | aoc23/day5.py:110-111 | the method concatenates the per-range results |
| Day5.LocationRangesImage | aoc23/day5.py:131-134 | the location ranges cover exactly the locations of the seeds in the seed ranges |
| Day5.LocationRangesKeep | aoc23/day5.py:131-134 | the location ranges have the seed ranges' total length, and stay non-empty |
| Day5.SeedLocationRanges | aoc23/day5.py:131-134 | the `reduce` over the mappings computes the location ranges |
| Day5.LocationLast | aoc23/day5.py:119-120 | the `reduce` applies the mappings in order: the last one acts on the location the others reach |
| Day5.LocationRanges | aoc23/day5.py:131-134 | the location ranges after all mappings are the last mapping applied to the ranges the others reach |
| Day5.MinStartIsLeast | aoc23/day5.py:211 | of non-empty ranges the least start is covered and below every covered value |
| Day5.ParseMapping | aoc23/day5.py:137-145 | the lines the block parser leaves are a suffix no longer than its input, so `parse_mappings` makes progress |
| Day5.MappingLineRead | aoc23/day5.py:140-142 | a written `dest source length` line is not blank and splits into exactly its three numbers |
| Day5.ParseMappingRead | aoc23/day5.py:137-145 | lines that read as perturbations, ended by a blank line or the end of the input, give exactly those perturbations in order, and the blank line is consumed |
| Day5.ParseMappingWritten | aoc23/day5.py:137-145 | a written block followed by nothing or by a blank line is read back as exactly its perturbations |
| Day5.ParseMappingsWritten | aoc23/day5.py:148-157 | titled blocks separated by blank lines are read back as exactly their mappings, in order, until the lines run out |
| Day5.ParseMappings | aoc23/day5.py:148-157 | no lines give no mappings; a non-empty text gives at least one mapping and never more mappings than lines, since each mapping consumes its title line |
| Day5.ParseSeeds | aoc23/day5.py:163-167 | a first line that does not start with `seeds: ` gives no seeds |
| Day5.ParseSeedsWritten | aoc23/day5.py:160-167 | a written `seeds:` line is read back as exactly its numbers |
| Day5.ParseBody | aoc23/day5.py:182-195 | parsing fails when the seeds line or the skipped line is missing (`next` raising StopIteration) |
| Day5.ParseAlmanacWritten | aoc23/day5.py:182-187 | a written almanac (seeds line, blank line, titled blocks) gives back exactly its seeds and its mappings |
| Day5.Pairs | aoc23/day5.py:170-177 | consecutive pairs `(start, length)` become `range(start, start + length)`; an odd count fails |
| Day5.Day5A | aoc23/day5.py:198-203 | the answer is the location of some seed and no seed's location is smaller |
| Day5.Day5B | aoc23/day5.py:206-211 | when the seed ranges are non-empty, the answer is the location of some seed in them and no such seed's location is smaller; None only for a malformed input (short, unparsable seeds or mappings, an odd number of seed numbers) or seed ranges that hold no value |
| Day5.SampleLocations | aoc23/day5.py:6-40 | on the sample, seed 79 maps to 81 through the first mapping; the seeds 79, 14, 55, 13 reach 82, 43, 86, 35, and the least is 35 |
| Day7.CardValue | aoc23/day7.py:6-7 | a card has a value exactly when it is in the order, and the value is its first index there |
| Day7.ValueAt | aoc23/day7.py:6-7 | a card's value is the index where it first occurs in the order |
| Day7.JokerWeakestInB | aoc23/day7.py:7 | in part two the joker is weaker than every other card |
| Day7.JokerBetweenTenAndQueenInA | aoc23/day7.py:6 | in part one the jack ranks between the ten and the queen |
| Day7.ValueB | aoc23/day7.py:7 | a part-two value indexes the card in the part-two order |
| Day7.TieBreak | aoc23/day7.py:31 | one tie-break value per card, each the card's index in the order |
| Day7.TieBreakInjective | aoc23/day7.py:31 | different hands have different tie-break lists |
| Day7.Kinds | aoc23/day7.py:11 | the distinct cards of a hand, each once |
| Day7.Counts | aoc23/day7.py:11 | one count per distinct card |
| Day7.InsertDesc | aoc23/day7.py:11 | insertion keeps the counts' multiset, sum and descending order |
| Day7.SortDesc | aoc23/day7.py:11 | `reversed(sorted(...))`: a descending permutation of the counts |
| Day7.TypeKeyA | aoc23/day7.py:10-11 | the type key is the hand's card counts in descending order |
| Day7.TypeKeySum | aoc23/day7.py:10-11 | the type key's counts add up to the number of cards |
| Day7.CountsSum | aoc23/day7.py:11 | the counts of the distinct cards add up to the hand's length |
| Day7.CoveringSum | aoc23/day7.py:11 | counts over any duplicate-free list covering the hand add up to its length |
| Day7.BestCard | aoc23/day7.py:16-18 | the chosen card is a most frequent card, and the strongest in the part-two order among the most frequent |
| Day7.Replace | aoc23/day7.py:19 | `str.replace` changes exactly the positions that held the old card |
| Day7.DropJokers | aoc23/day7.py:15 | removing the jokers keeps every other card with its multiplicity and removes all jokers |
| Day7.Boost | aoc23/day7.py:14-21 | a hand of jokers only is unchanged; otherwise every joker becomes a most frequent non-joker card, the strongest of those on a tie |
| Day7.TypeKeyB | aoc23/day7.py:24-25 | the part-two type key is a descending list of counts |
| Day7.LexLessIrreflexive | aoc23/day7.py:35-38 | Python's list `<` is irreflexive |
| Day7.LexLessTransitive | aoc23/day7.py:35-38 | Python's list `<` is transitive |
| Day7.LexLessTotal | aoc23/day7.py:35-38 | two different lists are ordered one way or the other |
| Day7.HandA | aoc23/day7.py:29-32 | a hand is built exactly when all its cards are in the part-one order (otherwise `val_map` raises) |
| Day7.HandB | aoc23/day7.py:41-42 | a part-two hand is built exactly when all its cards are in the part-two order |
| Day7.HandLessStrictOrder | aoc23/day7.py:34-38 | `__lt__` is a strict order under which hands with different keys are comparable |
| Day7.SameOrderDistinctHands | aoc23/day7.py:34-45 | part-one hands with different texts are always ordered one way or the other |
| Day7.InsertHand | aoc23/day7.py:70 | inserting a bid adds exactly that bid |
| Day7.InsertHandSorted | aoc23/day7.py:70 | insertion into a sorted list of bids keeps it sorted |
| Day7.SortHands | aoc23/day7.py:70-83 | `sorted(..., key=hand)` gives a sorted permutation of the bids |
| Day7.InsertHandStable | aoc23/day7.py:70 | inserting into a sorted list puts the new bid after every bid whose hand compares equal to it, and leaves the others' order alone |
| Day7.SortHandsStable | aoc23/day7.py:70-83 | `sorted` is stable: for any hand, the bids whose hands compare equal to it come out in their input order |
| Day7.ParseLines | aoc23/day7.py:54-59 | the bids exist exactly when every line parses, one per line |
| Day7.ParseLine | aoc23/day7.py:55 | a parsed line has exactly two words: the hand's cards are the first word and the bid is the number the second word spells |
| Day7.ParseLineWritten | aoc23/day7.py:55 | a hand of valid cards and a bid written `hand bid` parse back to that hand and bid |
| Day7.Day7 | aoc23/day7.py:62-85 | the winnings exist exactly when every line parses |
| Day8.Walk | aoc23/day8.py:47-55 | after no ticks the walk stands on its start |
| Day8.WalkFailureSticks | aoc23/day8.py:51-54 | once a node is missing from the graph the walk stays failed |
| Day8.WalkShift | aoc23/day8.py:49-54 | a walk that returns to its start after a whole number of routes repeats itself from there |
| Day8.FirstGoal | aoc23/day8.py:47-55 | stepping `follow` until the goal: a reached tick is the first at which the walk stands on a goal node, a missing node is reported at the tick it fails, and no goal within the fuel is reported as such |
| Day8.Day8A | aoc23/day8.py:78-87 | the answer is the first tick at which the walk from AAA stands on ZZZ; a missing node is reported at the first tick the walk fails, with no ZZZ before it, and running out of fuel means every tick within the fuel stands on a node other than ZZZ |
| Day8.MeasureCycle | aoc23/day8.py:69-75 | the two ticks are the first two at which the walk stands on a node ending in Z, both within the fuel; the walk is unmeasured exactly when fewer than two ticks within the fuel stand on such a node (a failed walk stands on none after it fails) |
| Day8.CycleLength | aoc23/day8.py:69-75 | when the walk reaches a Z node twice, the difference of the two ticks is a positive cycle of that start; there is a cycle exactly when two ticks within the fuel stand on a Z node |
| Day8.GhostStarts | aoc23/day8.py:66-67 | the ghost starts are exactly the graph's nodes ending in A |
| Day8.Filter | aoc23/day8.py:67 | the comprehension keeps exactly the names ending in A |
| Day8.Gcd | aoc23/day8.py:96 | the greatest common divisor of two numbers not both zero is positive |
| Day8.GcdDivides | aoc23/day8.py:96 | the gcd divides both numbers |
| Day8.LcmCommonMultiple | aoc23/day8.py:96 | `lcm` is a multiple of both arguments, positive for positive arguments |
| Day8.LcmAllCommonMultiple | aoc23/day8.py:96 | `lcm(*xs)` is a multiple of every argument, positive when all are |
| Day8.Day8B | aoc23/day8.py:90-96 | the answer is `lcm` of one measured cycle per ghost start, each positive, and every cycle divides it; there is an answer exactly when the walk of every ghost start stands on a Z node at two ticks within the fuel |
| Day8.ParseRoute | aoc23/day8.py:59 | the route parses exactly when every character is L or R (else the ValueError of `index`), into one turn per character, 0 exactly for L |
| Day8.ParseLink | aoc23/day8.py:39-62 | a matched link line names its node in its first three characters |
| Day8.ParseLinkWritten | aoc23/day8.py:39-62 | a written `AAA = (BBB, CCC)` line, whatever follows it, matches with AAA as node and (BBB, CCC) as its exits |
| Day8.ParseLinks | aoc23/day8.py:60-63 | the graph's keys are exactly the recorded node order |
| Day8.ParseLinksSome | aoc23/day8.py:60-63 | the link lines parse exactly when each one matches (else `.groups()` on None raises) |
| Day8.ParseLinksKeys | aoc23/day8.py:60-63 | the graph's nodes are exactly the names the link lines give |
| Day8.ParseLinksLast | aoc23/day8.py:60-63 | a node maps to the exits on the last line naming it, as later dictionary entries overwrite earlier ones |
| Day8.Parse | aoc23/day8.py:57-64 | a parsed puzzle has a route of L/R turns and a graph whose keys are its node order |
| Day8.ParseWritten | aoc23/day8.py:57-64 | a map written as a route of L/R, a blank line and link lines parses to that route, a node per named line and each node's (left, right) from the last line naming it |
| Day8.SampleA | aoc23/day8.py:6-16 | on the first sample the walk from AAA reaches ZZZ at tick 2 |
| Day8.SampleB | aoc23/day8.py:18-24 | on the second sample the walk from AAA first reaches ZZZ at tick 6 |
| Day9.Diffs | aoc23/day9.py:17 | the `pairwise` differences are one shorter than a non-empty sequence |
| Day9.ComputeNext | aoc23/day9.py:5-17 | an all-zero (or empty) sequence continues with 0, and a single value continues with itself |
| Day9.ArithmeticIsExact | aoc23/day9.py:5-17 | an arithmetic progression `a + d*i` of length at least two is continued exactly with `a + d*n` |
| Day9.NextOfNegate | aoc23/day9.py:5-17 | extrapolation is linear: negating the input negates the prediction |
| Day9.DiffsOfReverse | aoc23/day9.py:17 | the differences of the reversed sequence are the reversed differences, negated |
| Day9.NextOfReverseIsPrev | aoc23/day9.py:34 | extrapolating the reversed sequence forwards extrapolates the original backwards (first value minus the backward extrapolation of the differences) |
| Day9.ParseLine | aoc23/day9.py:26 | a line parses exactly when every whitespace-separated token is an integer, and then gives one number per token, in order |
| Day9.ParseLineWritten | aoc23/day9.py:26 | a history written with single spaces between its numbers parses back to itself |
| Day9.ParseAll | aoc23/day9.py:26-34 | the lines parse exactly when every token of every line is an integer, and each result is that line's integers |
| Day9.Day9A | aoc23/day9.py:21-26 | the sum exists exactly when every line parses |
| Day9.Day9B | aoc23/day9.py:29-34 | the sum exists exactly when every line parses |
| Day9.BackwardSum | aoc23/day9.py:34 | the sum over reversed lines equals the sum of backward extrapolations |
| Day9.Day9BIsBackward | aoc23/day9.py:29-34 | `day9b` is the sum of the backward extrapolations of the lines |
| Day9.DoctestNextLinear | aoc23/day9.py:8-9 | `compute_next([0, 3, 6, 9, 12, 15])` is 18 |
| Day9.DoctestNextQuadratic | aoc23/day9.py:10-11 | `compute_next([1, 3, 6, 10, 15, 21])` is 28 |
| Day9.ThirdSampleNext | aoc23/day9.py:3 | the third sample line continues with 68 |
| Day9.SampleA | aoc23/day9.py:22-24 | the sample lines' forward extrapolations add up to 114 |
| Day9.SampleB | aoc23/day9.py:30-32 | the sample lines' backward extrapolations add up to 2 |
| Day9.FirstSamplePrev | aoc23/day9.py:3 | the first sample line extrapolates backwards to -3 |
| Day9.SecondSamplePrev | aoc23/day9.py:3 | the second sample line extrapolates backwards to 0 |
| Day10.Move | aoc23/day10.py:73-78 | a move lands one unit step away |
| Day10.Reverse | aoc23/day10.py:105-122 | no direction is its own reverse |
| Day10.ReverseReverse | aoc23/day10.py:105-122 | reversing twice gives the direction back |
| Day10.Turn | aoc23/day10.py:105-121 | entering a tile succeeds exactly when the tile opens back the way the walker came, and the exit is its other opening |
| Day10.OpeningsOfPipes | aoc23/day10.py:107-120 | exactly the six pipe characters have openings, two each |
| Day10.TurnReversible | aoc23/day10.py:105-122 | a pipe passed one way can be passed back the other way |
| Day10.PyCell | aoc23/day10.py:88-89 | inside the grid, `self[pos]` reads the character at that row and column |
| Day10.Cell | aoc23/day10.py:88-89 | inside the grid the tile is the character there; off the grid it is a tile with no openings that is not the start |
| Day10.Enter | aoc23/day10.py:105-122 | `enter` succeeds exactly when the tile opens towards the walker, and moves on through the other opening |
| Day10.Select | aoc23/day10.py:98-103 | the filtered list holds exactly the chosen directions, each once |
| Day10.AvailableDirections | aoc23/day10.py:97-103 | the start's directions are exactly those whose neighbour can be entered from the start, at most four |
| Day10.AvailableAsWritten | aoc23/day10.py:97-103 | as written, a direction is offered only where Python indexing returns a character, negative indices included |
| Day10.WrapAroundGainsDirection | aoc23/day10.py:97-103 | as written, a start on the top row gains N by reading the bottom row through index -1 |
| Day10.BottomRowRaises | aoc23/day10.py:97-103 | as written, a start on the bottom row raises IndexError looking S |
| Day10.FindStart | aoc23/day10.py:91-95 | the start found is the first 'S' in reading order, and none means there is no 'S' |
| Day10.Parse | aoc23/day10.py:83-86 | the puzzle holds the stripped lines, the first 'S' and its available directions; none means there is no 'S' |
| Day10.StartSymbol | aoc23/day10.py:138-146 | the symbol is the pipe whose openings are exactly the start's directions, and there is none when no pipe has them |
| Day10.FollowFrom | aoc23/day10.py:124-130 | a fuel-limited `follow` yields its first destination first |
| Day10.FollowLinked | aoc23/day10.py:124-130 | consecutive positions of `follow` are linked through the pipes both ways |
| Day10.FollowPrefix | aoc23/day10.py:124-130 | with more fuel `follow` only extends its output |
| Day10.FollowEnded | aoc23/day10.py:128 | once `follow` stops on its own, more fuel changes nothing |
| Day10.Unequal | aoc23/day10.py:134-135 | `takewhile` counts the leading steps on which the two walkers stand apart |
| Day10.UnequalUnique | aoc23/day10.py:134-135 | that count is the first step on which the walkers meet |
| Day10.PartA | aoc23/day10.py:132-136 | the answer is one more than the number of steps before the two walkers first stand on the same tile, and needs exactly two start directions |
| Day10.PartANone | aoc23/day10.py:132-136 | there is no answer exactly when the start does not offer exactly two directions (the unpacking fails) or both walks run for the whole fuel without ever standing on the same tile at the same step |
| Day10.PartAFuel | aoc23/day10.py:132-136 | once an answer is found, more fuel gives the same answer |
| Day10.Day10A | aoc23/day10.py:189-196 | when the stripped lines hold an 'S', the answer is `Puzzle.a` of the puzzle whose start is the first 'S' in reading order and whose directions are those the start's neighbours offer; with no 'S' there is no answer (the start lookup fails) |
| Day10.StepRow | aoc23/day10.py:173-182 | a row step fails exactly when 'J' or '7' pops an empty stack |
| Day10.CountRowInsides | aoc23/day10.py:169-184 | the loop over a row gives the count that the stack semantics gives, and fails exactly when it does |
| Day10.PushPipeFlips | aoc23/day10.py:173-175 | `push_pipe` flips between outside (empty stack) and inside (one vertical pipe on the stack) |
| Day10.RunRowAppend | aoc23/day10.py:177-182 | running a row in two parts is running it whole |
| Day10.RunDashes | aoc23/day10.py:177-182 | horizontal pipe leaves the stack and the count unchanged |
| Day10.RunPiece | aoc23/day10.py:177-182 | a ground tile counts when inside; a vertical crossing flips inside and outside; an F..J or L..7 run flips, an F..7 or L..J run does not |
| Day10.RunRowCountsInside | aoc23/day10.py:169-184 | on a row made of well-formed pieces the stack algorithm counts exactly the ground tiles with an odd number of crossings to their left |
| Day10.InsideCount | aoc23/day10.py:186-187 | the sum over rows is the specified count of inside tiles |
| Day10.NoneSticks | aoc23/day10.py:186-187 | a row that raises makes the whole count raise |
| Day10.TraceLoop | aoc23/day10.py:148-153 | the path holds the start with its symbol and every tile visited before returning to the start, each with its own character |
| Day10.BeforeStart | aoc23/day10.py:150-152 | the loop collects the positions up to, not including, the first return to the start |
| Day10.Day10B | aoc23/day10.py:148-156 | the answer is the inside count of the loop map of `path`, and `path` holds exactly the first 'S' with its pipe symbol ('S' when none fits) and the positions `follow` yields in the first direction before it returns to the start, each with its own tile; no answer means there is no 'S', the first 'S' offers no direction or its walk is still open when the fuel is spent, or counting the map's rows underflows a stack |
| Day11.ManhattanDistance | aoc23/day11.py:18-19 | the distance is zero exactly when the two positions coincide |
| Day11.DistanceSymmetric | aoc23/day11.py:18-19 | the distance is symmetric |
| Day11.DistanceTriangle | aoc23/day11.py:18-19 | the distance obeys the triangle inequality |
| Day11.Dedup | aoc23/day11.py:24 | `set(galaxies)`: no duplicates, the same members, no more elements |
| Day11.MaxCoord | aoc23/day11.py:25-26 | the maximum bounds every galaxy's coordinate and is attained by one |
| Day11.NewUniverse | aoc23/day11.py:23-26 | a universe exists exactly when there is a galaxy (`max` of nothing raises), and holds the distinct galaxies given |
| Day11.ShiftCountsEmpties | aoc23/day11.py:29-34 | a coordinate's shift is the coordinate plus n - 1 per empty column or row at or before it |
| Day11.ShiftByOne | aoc23/day11.py:28-34 | with factor 1 no coordinate moves |
| Day11.ShiftMonotone | aoc23/day11.py:29-34 | shifted coordinates stay strictly increasing |
| Day11.ShiftNatural | aoc23/day11.py:29-34 | no coordinate shifts backwards |
| Day11.ShiftPosKeepsOrder | aoc23/day11.py:35 | two galaxies keep their order on both axes, so distinct galaxies stay distinct |
| Day11.EmptiesMonotone | aoc23/day11.py:29-34 | the count of empty columns or rows up to a coordinate never falls |
| Day11.AxisDistance | aoc23/day11.py:29-35 | along one axis the gap between two galaxies grows by n - 1 per empty line between them |
| Day11.ExpandedDistance | aoc23/day11.py:28-38 | the expanded distance of two galaxies is their image distance plus n - 1 per empty column and row crossed |
| Day11.Moved | aoc23/day11.py:35 | every galaxy is moved, one result per galaxy |
| Day11.ExpandedMoves | aoc23/day11.py:35 | the expanded universe holds exactly the moved galaxies, none merged |
| Day11.DedupDistinct | aoc23/day11.py:24 | building the set of distinct galaxies changes nothing |
| Day11.ExpandedByOne | aoc23/day11.py:28-35 | expansion by factor 1 is the identity |
| Day11.SumDistancesZero | aoc23/day11.py:37-38 | two or more distinct galaxies have a positive distance sum |
| Day11.RowGalaxies | aoc23/day11.py:42 | the positions found in a line are exactly its '#' columns, on that row |
| Day11.ParseGalaxies | aoc23/day11.py:41-42 | the galaxies parsed are exactly the '#' cells of the image |
| Day11.Day11 | aoc23/day11.py:44-59 | an answer exists exactly when the image has a galaxy |
| Day11.Day11Unexpanded | aoc23/day11.py:28-59 | with factor 1 the answer is the distance sum of the image's own galaxies |
| Day12.RunsOf | aoc23/day12.py:44-50 | the counts left between the borders give runs exactly when no border is in their middle, one run per count |
| Day12.HashesOf | aoc23/day12.py:50-55 | a run of n hashes is one element when n is positive and is dropped (the empty string filtered out) otherwise |
| Day12.BodyNoAnyDots | aoc23/day12.py:50 | the inner part of a pattern never holds a `.*` |
| Day12.AssembleShape | aoc23/day12.py:51-57 | a non-empty inner part gets `.*` at each soft end and nothing at a border |
| Day12.Pattern | aoc23/day12.py:41-57 | counts without a border always give a pattern |
| Day12.PlainPattern | aoc23/day12.py:41-57 | positive counts without borders give `.*`, the runs separated by `.+`, and `.*` |
| Day12.EmptyPattern | aoc23/day12.py:56-57 | no counts give the single pattern `.*` |
| Day12.PlainTidy | aoc23/day12.py:41-57 | such a pattern has no empty run and no two dot elements side by side |
| Day12.LeadingPattern | aoc23/day12.py:44-54 | a leading border drops the leading `.*` |
| Day12.LeadingBorder | aoc23/day12.py:44-54 | with a leading border the pattern accepts exactly the arrangements that start with a damaged spring and have those runs |
| Day12.TrailingBorder | aoc23/day12.py:47-54 | a trailing border drops the trailing `.*`, so the pattern ends with the last run |
| Day12.PatternExample | aoc23/day12.py:24-25 | counts 3, 2, 1 give `.*` `###` `.+` `##` `.+` `#` `.*` |
| Day12.PatternEmptyRuns | aoc23/day12.py:55-57 | a zero count, with or without a border, leaves the pattern `.*` |
| Day12.PatternBorderZero | aoc23/day12.py:34-57 | a zero count against a border requires a dot at the border |
| Day12.MatchesSound | aoc23/day12.py:116-156 | every string the generator yields is the prefix followed by an arrangement of the plan that the pattern accepts |
| Day12.MatchesComplete | aoc23/day12.py:116-156 | every arrangement of the plan that the pattern accepts is yielded |
| Day12.MatchesDistinct | aoc23/day12.py:116-156 | no string is yielded twice |
| Day12.GroupsNone | aoc23/day12.py:64-69 | an arrangement has no damaged runs exactly when it is all dots |
| Day12.AnyDotsAlone | aoc23/day12.py:64-69 | `.*` alone accepts exactly the all-dot strings |
| Day12.AnchoredMeaning | aoc23/day12.py:44-54 | a pattern anchored at the left accepts exactly the arrangements starting with '#' whose runs are the counts |
| Day12.FreeMeaning | aoc23/day12.py:24-28 | `.*` runs `.*` accepts exactly the arrangements whose runs are the counts |
| Day12.PatternMeaning | aoc23/day12.py:19-57 | the pattern of positive counts accepts exactly the arrangements whose runs of damaged springs are those counts |
| Day12.BodyShape | aoc23/day12.py:50 | the inner part alternates runs and `.+`, one run per count |
| Day12.MatchesEmptyCountsExamples | aoc23/day12.py:63-69 | no counts on '?', '#' and '.' yield ".", nothing and "." |
| Day12.MatchesOneOneExample | aoc23/day12.py:70-71 | counts 1, 1 on "???" yield only "#.#" |
| Day12.SolutionsExactly | aoc23/day12.py:205-212 | a row's solutions are exactly the arrangements of its plan whose runs are its counts |
| Day12.SolutionCount | aoc23/day12.py:211-212 | the number of solutions is the number of strings the matcher yields |
| Day12.ParseRow | aoc23/day12.py:217-220 | a row parses only when it has two words, the plan being the first |
| Day12.ParseRowWritten | aoc23/day12.py:217-220 | a row written as its plan, a space and its counts joined by commas parses back to exactly that plan and those counts |
| Day12.Day12A | aoc23/day12.py:263-268 | the sum exists exactly when every row parses |
| Day12.FloorPlan.constructor | aoc23/day12.py:98-100 | a floor plan starts with an empty memo |
| Day12.FloorPlan.Accommodations | aoc23/day12.py:102-111 | the answer is the number of matches of the counts' pattern, stored in the memo on first use and read from it afterwards |
| Day12.AccommodationsExample | aoc23/day12.py:103-107 | a border with a zero count fits "???" in one way, at either end |
| Day12.FuseSplit | aoc23/day12.py:190-195 | cutting the counts at a chunk boundary and fusing the halves gives them back |
| Day12.FuseOverlap | aoc23/day12.py:198-203 | splitting a run over the gap between plans and fusing the halves gives it back |
| Day12.ContinuesParts | aoc23/day12.py:187-201 | the counts past the first chunk, and the remainder after an overlap, keep the shape partitions expect |
| Day12.SharesStep | aoc23/day12.py:194-203 | a chunk that fits followed by a sharing of the rest is a sharing of the whole |
| Day12.PartitionsSound | aoc23/day12.py:159-203 | every partition keeps the chunks filled so far, adds one chunk per remaining plan, each fitting the plan in at least one way, and the chunks fuse back into the counts |
| Day12.SplitsSound | aoc23/day12.py:190-203 | the same for the partitions from each cut point |
| Day12.SplitHere | aoc23/day12.py:191-195 | the same for a chunk that ends at a cut |
| Day12.OverlapsSound | aoc23/day12.py:198-203 | the same for a chunk that straddles the gap |
| Day12.Repeat | aoc23/day12.py:226 | counts repeated five times are five times as long |
| Day12.UnfoldedPartitionsShare | aoc23/day12.py:222-233 | each partition of an unfolded row is five chunks that each fit the plan and fuse into the counts repeated five times |
| Day12.Day12B | aoc23/day12.py:271-278 | the sum exists exactly when every row parses |
| Day13.FirstMirror | aoc23/day13.py:21-37 | the reference answer: the least mirror position at or after k, and none only when no position mirrors the sequence |
| Day13.ReflectsStep | aoc23/day13.py:25-32 | a reflection about k over the first n+1 values holds exactly when it held over n values and the new value matches its mirror image |
| Day13.FindReflection | aoc23/day13.py:21-37 | the growing/shrinking loop returns exactly the least mirror position, and nothing when the sequence has none |
| Day13.FirstPairMirror | aoc23/day13.py:29-31 | two equal leading values make 1 the answer |
| Day13.FirstMirrorIs | aoc23/day13.py:21-37 | a mirror with none below it is the answer |
| Day13.FirstMirrorNone | aoc23/day13.py:21-37 | with no mirror there is no answer |
| Day13.EndedIsMirror | aoc23/day13.py:36-37 | the first surviving candidate at the end is a mirror and `(len(values) + len(shrinking[0])) // 2` is its position |
| Day13.EndedBelowFirst | aoc23/day13.py:36-37 | no position below that candidate is a mirror |
| Day13.DiffCountSelf | aoc23/day13.py:44-45 | a string differs from itself in no position |
| Day13.DiffCountZero | aoc23/day13.py:44-45 | zero differences over `zip` means the strings agree on their common length |
| Day13.DifferByOneAt | aoc23/day13.py:44-45 | `differ_by_one` holds exactly when there is one position at which the strings differ and they agree everywhere else |
| Day13.Combine | aoc23/day13.py:48-52 | pairing two rows keeps an exact fit only when they are equal, and makes a smudged fit from an exact one with a one-character difference or keeps a smudged one with equal rows |
| Day13.FitAt | aoc23/day13.py:48-52 | with no rows compared the fit is exact |
| Day13.MirrorKinds | aoc23/day13.py:21-64 | a mirror is a position whose fit is exact, and an exact mirror is never a smudged one |
| Day13.FirstSmudged | aoc23/day13.py:39-64 | the reference answer for part two: the least smudged mirror at or after k, none only when there is none |
| Day13.FirstSmudgedIs | aoc23/day13.py:39-64 | a smudged mirror with none below it is the reference answer |
| Day13.FirstPairSmudged | aoc23/day13.py:55-57 | two leading values one character apart make 1 the answer |
| Day13.FirstSmudgedNone | aoc23/day13.py:39-64 | with no smudged mirror there is no reference answer |
| Day13.FindSmudgedReflection | aoc23/day13.py:39-64 | the loop returns nothing exactly when there is no smudged mirror, otherwise a smudged mirror, and the least one whenever the least lies in the first half |
| Day13.Columns | aoc23/day13.py:70 | the columns are the transpose of the rows: one per character of the first row, each as long as there are rows |
| Day13.TransposeTwice | aoc23/day13.py:70 | transposing a rectangular block twice gives it back |
| Day13.Groups | aoc23/day13.py:83 | `groupby` on length splits the lines into consecutive runs of equal length whose concatenation is the input |
| Day13.Blocks | aoc23/day13.py:83-92 | the kept groups are non-empty, have non-empty stripped lines of one length |
| Day13.PuzzleOf | aoc23/day13.py:68-70 | a puzzle holds the stripped rows and their columns |
| Day13.Puzzles | aoc23/day13.py:83-92 | one puzzle per block, holding that block's rows and non-empty columns |
| Day13.Or | aoc23/day13.py:73-76 | Python's `or` keeps a truthy answer and falls back when it is missing or zero |
| Day13.AnswerA | aoc23/day13.py:72-73 | the score is zero only with no mirror at all; a vertical mirror scores its least column position; otherwise the least horizontal mirror scores 100 times its position |
| Day13.SolutionA | aoc23/day13.py:72-73 | `solution_a` returns the part-one score of the puzzle |
| Day13.SmudgedResultUnique | aoc23/day13.py:39-64 | when a sequence has only one smudged mirror, the loop's answer is that mirror |
| Day13.SolutionB | aoc23/day13.py:75-76 | `solution_b` returns a score made of smudged mirrors as the loop finds them |
| Day13.AnswerB | aoc23/day13.py:75-76 | a part-two score is zero only with no smudged mirror, and with one smudged mirror per direction it is the reference score built from the first smudged mirrors |
| Day13.TotalA | aoc23/day13.py:84 | the part-one total is never negative |
| Day13.SumA | aoc23/day13.py:84 | the summing loop's total is the part-one score added up over every puzzle |
| Day13.SumB | aoc23/day13.py:93 | the summing loop keeps one admissible part-two score per puzzle and its total is their sum |
| Day13.Day13A | aoc23/day13.py:78-84 | the answer is the sum of part-one scores over the puzzles |
| Day13.Day13B | aoc23/day13.py:87-93 | the answer is the sum of one part-two score per puzzle |
| Day14.Repeat | aoc23/day14.py:64-66 | `n * [c]` has length n and holds c everywhere |
| Day14.Tilt | aoc23/day14.py:56-68 | the loop builds the tilted line: each run between '#' becomes its gaps then its balls |
| Day14.CountOfAppend | aoc23/day14.py:56-68 | counting a character over a concatenation adds the counts |
| Day14.TiltKeeps | aoc23/day14.py:56-68 | tilting keeps the length, the positions of the '#' rocks and the number of 'O' balls, and makes only grid characters |
| Day14.TiltFromSettled | aoc23/day14.py:56-68 | after tilting no ball has a gap after it before the next '#' |
| Day14.TiltIdempotent | aoc23/day14.py:56-68 | tilting a tilted line changes nothing |
| Day14.Reverse | aoc23/day14.py:91-103 | the `::-1` slice reads the line backwards |
| Day14.ReverseReverse | aoc23/day14.py:91-103 | reversing twice gives the line back |
| Day14.Column | aoc23/day14.py:75-80 | `self[x, :]` is the column of x, one grid character per row |
| Day14.TiltLineKeeps | aoc23/day14.py:90-104 | a tilt towards either end keeps the length and the '#' positions |
| Day14.TiltLineIdempotent | aoc23/day14.py:90-104 | a tilt towards either end is idempotent |
| Day14.TiltColumns | aoc23/day14.py:90-96 | tilting every column gives a grid of the same shape whose every column is that column tilted |
| Day14.TiltRows | aoc23/day14.py:98-104 | tilting every row gives a grid of the same shape whose every row is that row tilted |
| Day14.ColumnsEqual | aoc23/day14.py:75-88 | two grids of one shape with the same columns are equal |
| Day14.TiltColumnsIdempotent | aoc23/day14.py:90-96 | tilting north twice, or south twice, is tilting once |
| Day14.TiltRowsIdempotent | aoc23/day14.py:98-104 | tilting east twice, or west twice, is tilting once |
| Day14.TiltsKeepCubes | aoc23/day14.py:90-104 | no tilt moves a '#' rock |
| Day14.Spin | aoc23/day14.py:106-116 | a spin cycle keeps the grid's shape |
| Day14.SpinsValid | aoc23/day14.py:118-141 | any number of spin cycles keeps the grid's shape |
| Day14.IterateAdd | aoc23/day14.py:118-141 | a+b steps are a steps followed by b steps |
| Day14.IteratePeriodic | aoc23/day14.py:129-135 | once a state repeats after b-a steps, any whole number of further periods can be skipped |
| Day14.SkipAhead | aoc23/day14.py:129-135 | from a repeat between steps cs and i, running on `(steps - cycle_start) % cycle_length` more steps reaches the state after all `steps` |
| Day14.Rows | aoc23/day14.py:72-73 | the rows are the stripped lines |
| Day14.Puzzle.constructor | aoc23/day14.py:72-73 | the puzzle holds the stripped lines |
| Day14.Puzzle.TiltEachColumn | aoc23/day14.py:82-96 | writing each tilted column back through `__setitem__` tilts every column |
| Day14.Puzzle.TiltEachRow | aoc23/day14.py:82-104 | writing each tilted row back tilts every row |
| Day14.Puzzle.TiltN | aoc23/day14.py:90-92 | `tilt_n` rolls the balls towards row 0 in every column |
| Day14.Puzzle.TiltS | aoc23/day14.py:94-96 | `tilt_s` rolls them towards the last row |
| Day14.Puzzle.TiltE | aoc23/day14.py:98-100 | `tilt_e` rolls them towards the last column |
| Day14.Puzzle.TiltW | aoc23/day14.py:102-104 | `tilt_w` rolls them towards column 0 |
| Day14.Puzzle.Step | aoc23/day14.py:106-116 | a step is one spin cycle: north, west, south, east |
| Day14.Puzzle.Run | aoc23/day14.py:118-141 | with its checkpoint shortcut, `run(steps)` leaves exactly the grid after `steps` spin cycles |
| Day14.LoadIgnoresRowTilts | aoc23/day14.py:143-144 | an east or west tilt does not change the load |
| Day14.LoadSameCounts | aoc23/day14.py:143-144 | the load depends only on how many balls each row holds |
| Day14.CountOfReverse | aoc23/day14.py:143-144 | reversing a row keeps its ball count |
| Day14.Day14A | aoc23/day14.py:152-157 | the answer is the load of the grid tilted north |
| Day14.Day14B | aoc23/day14.py:160-165 | the answer is the load after 1,000,000,000 spin cycles |
| Day14.TiltExample | aoc23/day14.py:56-68 | "O.#.O." tilts to ".O#..O": each rock rolls to the end of its stretch between '#'s |
| Day15.HashSpec | aoc23/day15.py:18-30 | the HASH value always lies below 256 |
| Day15.Hash | aoc23/day15.py:18-30 | the character loop computes the HASH value |
| Day15.HashAppend | aoc23/day15.py:24-28 | hashing s + t is continuing the hash of s over t |
| Day15.HashExample | aoc23/day15.py:19-21 | the HASH of "HASH" is 52 |
| Day15.Parse | aoc23/day15.py:33-44 | a parsed step has a non-empty label that is a proper prefix of the step |
| Day15.ParseFrom | aoc23/day15.py:33-43 | the lazy match from a label of k characters yields only a label of at least k characters that is a proper prefix of the step |
| Day15.ParseRemoveRoundTrip | aoc23/day15.py:33-44 | a label followed by '-' parses to removing that label |
| Day15.ParsePutRoundTrip | aoc23/day15.py:33-44 | a label followed by '=' and digits parses to putting that label with the digits' value |
| Day15.ParseExamples | aoc23/day15.py:37-42 | `parse('rn=1')` and `parse('qp-')` give the documented results |
| Day15.FindIndex | aoc23/day15.py:51-54 | `find` yields the first index in the bucket holding the label, and none only when no entry holds it |
| Day15.PutThenFind | aoc23/day15.py:56-61 | after a put, finding the label yields the new lens |
| Day15.PutPlacement | aoc23/day15.py:56-61 | a put replaces the lens in place when the label is present, appends otherwise, and leaves other labels alone |
| Day15.PutKeepsUnique | aoc23/day15.py:56-61 | a put keeps each label at most once in the bucket |
| Day15.RemoveKeepsUnique | aoc23/day15.py:63-66 | a delete keeps labels unique |
| Day15.RemoveIsFilter | aoc23/day15.py:63-66 | with unique labels, a delete is filtering the label out while keeping order |
| Day15.Without | aoc23/day15.py:63-66 | filtering removes every entry with the label and never lengthens the bucket |
| Day15.Apply | aoc23/day15.py:90-95 | one operation keeps 256 buckets |
| Day15.ApplyKeepsWellFormed | aoc23/day15.py:56-66 | operations keep every lens in the bucket its label hashes to, with labels unique |
| Day15.WellFormedLabelsUnique | aoc23/day15.py:47-66 | in a well-formed table no label appears in two places |
| Day15.ApplyAll | aoc23/day15.py:90-95 | a run of operations keeps 256 buckets |
| Day15.ParseAll | aoc23/day15.py:90-91 | parsing all steps gives one operation per step |
| Day15.HashMap.constructor | aoc23/day15.py:48-49 | a new map has 256 empty buckets |
| Day15.HashMap.Find | aoc23/day15.py:51-54 | `find` returns the label's hash as bucket number and the label's first index in that bucket |
| Day15.HashMap.Set | aoc23/day15.py:56-61 | `__setitem__` changes the table as a put does |
| Day15.HashMap.Delete | aoc23/day15.py:63-66 | `__delitem__` changes the table as a remove does |
| Day15.HashMap.Power | aoc23/day15.py:68-73 | the nested loop sums box number times slot times focal length over the table |
| Day15.Day15B | aoc23/day15.py:84-97 | the answer is the focusing power after applying every parsed step in order to an empty table; a step that does not parse gives no answer |
| Day15.ParseAllPrefixFails | aoc23/day15.py:90-91 | a step that fails to parse makes the whole input fail |
| Day15.Day15ASnoc | aoc23/day15.py:76-81 | adding a step adds its hash to the part-one sum |
| Day15.Day15A | aoc23/day15.py:76-81 | the part-one sum is at most 255 per step and for one step is that step's hash |
| Day15.SampleA | aoc23/day15.py:77-79 | the sample's part-one sum is 1320 |
| Day16.Move | aoc23/day16.py:67-72 | a move lands one unit step away |
| Day16.MoveBack | aoc23/day16.py:67-72 | moving one way then the opposite way returns to the start, and opposite is an involution |
| Day16.MirrorsAreInvolutions | aoc23/day16.py:27-38 | each mirror undoes itself, turns every beam by a right angle, and sends a reversed beam back the way it came |
| Day16.Exits | aoc23/day16.py:23-50 | known widgets give exits: '.' passes the beam, a mirror turns it, a splitter across the beam splits it in two and one along it passes it; any other character gives None, standing for the TypeError raised when the caller iterates the None that `exits` returns after printing |
| Day16.FlipToEntry | aoc23/day16.py:106-115 | the entry recorded for a beam leaving the grid is the cell it left, facing back in |
| Day16.Row | aoc23/day16.py:80 | a fresh row has `width` empty cells |
| Day16.EmptyCells | aoc23/day16.py:80 | a fresh track is a height by width grid of empty cells |
| Day16.CellBits | aoc23/day16.py:17-21 | a cell holds at most the four directions |
| Day16.BitsBound | aoc23/day16.py:133-135 | the grid holds at most four directions per cell, which bounds the tracing |
| Day16.AddBit | aoc23/day16.py:135 | setting a new direction in a cell adds one to the directions held |
| Day16.ActiveInRow | aoc23/day16.py:93-96 | a row has at most as many active cells as cells |
| Day16.NoBitsNoActive | aoc23/day16.py:80-97 | a fresh track has no active cell |
| Day16.Track.constructor | aoc23/day16.py:79-81 | a new track is empty with no entries |
| Day16.Track.ActiveCount | aoc23/day16.py:91-97 | the loop counts the cells holding some direction |
| Day16.Track.AddEntry | aoc23/day16.py:99-100 | the entry is appended and the cells stay as they were |
| Day16.Onward | aoc23/day16.py:145 | the queued beams are, in order, one per exit, each moved one step in its direction |
| Day16.ClosedModuloNothing | aoc23/day16.py:141-146 | with an empty queue, closure with pending work is closure |
| Day16.ProcessKeepsClosed | aoc23/day16.py:143-145 | processing the head of the queue keeps the track closed apart from the work still queued |
| Day16.HandledLater | aoc23/day16.py:143-145 | a beam already dealt with or queued stays so after one queue step |
| Day16.Puzzle.constructor | aoc23/day16.py:119-123 | the puzzle holds the stripped lines, their count and width, and an empty track |
| Day16.Puzzle.Reset | aoc23/day16.py:138-139 | `reset` gives a new empty track |
| Day16.Puzzle.Enter | aoc23/day16.py:129-136 | a beam leaving the grid records its exit and stops; a beam already followed stops; otherwise its direction is set in the cell and the widget's exits are returned |
| Day16.Puzzle.Trace | aoc23/day16.py:141-146 | tracing only adds to the track; on known widgets the start is dealt with and a closed track stays closed |
| Day16.ClosedModuloWider | aoc23/day16.py:141-146 | closure with pending work survives a longer queue |
| Day16.Day16A | aoc23/day16.py:149-154 | from the top-left heading east the traced track is closed under beam propagation and the answer is its number of active cells |
| Day16.BorderEntries | aoc23/day16.py:164-167 | there are two entries per column and two per row |
| Day16.Day16B | aoc23/day16.py:157-175 | the answer is the largest count remembered for any exit, and is one of them |
| Day17.OfDelta | aoc23/day17.py:38-40 | `Dir((x, y))` finds the direction with that offset, when there is one |
| Day17.Reverse | aoc23/day17.py:38-40 | the reverse direction has the negated offset |
| Day17.ReverseInvolution | aoc23/day17.py:38-40 | reversing twice gives the direction back, and no direction is its own reverse |
| Day17.ReverseTable | aoc23/day17.py:32-40 | N and S, E and W are each other's reverse |
| Day17.DeltaInjective | aoc23/day17.py:32-36 | distinct directions have distinct offsets |
| Day17.WithIntermediates | aoc23/day17.py:49-50 | a move of n is expanded into the moves of 1 to n in its direction |
| Day17.IntermediatesWalk | aoc23/day17.py:27-50 | the expanded moves visit adjacent cells one after another and end where the whole move ends |
| Day17.ParseRow | aoc23/day17.py:58 | a row parses exactly when it is all digits, into one value 0 to 9 per character |
| Day17.ParseRows | aoc23/day17.py:58 | the rows parse exactly when every stripped line is all digits |
| Day17.ParsePlan | aoc23/day17.py:57-61 | a plan parses from a non-empty list of digit lines, with the first row's width, the line count as height and the bottom-right corner as end |
| Day17.ParsePlanCells | aoc23/day17.py:63-65 | a plan's cell is the digit at that row and column of the stripped input |
| Day17.HeuristicManhattan | aoc23/day17.py:109-112 | the heuristic is the Manhattan distance to the end, zero exactly at the end |
| Day17.Directions | aoc23/day17.py:131-136 | the candidate directions are exactly those allowed after the last move |
| Day17.FilterMembers | aoc23/day17.py:136 | the filter keeps exactly the directions not disallowed |
| Day17.DirectionsCount | aoc23/day17.py:132-136 | the first move may go any of four ways; later moves exclude both the last direction and its reverse, leaving two |
| Day17.Moves | aoc23/day17.py:137 | the moves are every allowed direction with every length from min to max travel |
| Day17.Lengths | aoc23/day17.py:137 | one direction's moves have exactly the lengths from min to max |
| Day17.StraightInBounds | aoc23/day17.py:141-143 | when a move ends in bounds, every intermediate cell is in bounds |
| Day17.Extensions | aoc23/day17.py:139-149 | the new routes are exactly the extensions by the moves that end in bounds |
| Day17.OptionsExactly | aoc23/day17.py:129-149 | a route is an option exactly when it adds one allowed in-bounds move of legal length, recording the new position and the heat of the cells entered |
| Day17.NoRoomNoOptions | aoc23/day17.py:71-76 | on a grid no wider or taller than the minimum travel the first frontier is empty, so the first `heappop` raises |
| Day17.DropExtend | aoc23/day17.py:144-147 | an option is the route with one more move, standing where that move ends |
| Day17.OptionsWalk | aoc23/day17.py:129-149 | every option of a legal walk is a legal walk inside the grid |
| Day17.WalkInBounds | aoc23/day17.py:129-149 | a legal walk stands inside the grid |
| Day17.Entered | aoc23/day17.py:143 | the cells a move enters are those one to n steps along its direction |
| Day17.CellSumAppend | aoc23/day17.py:119-143 | heat sums add up across a concatenation |
| Day17.MoveCostEntered | aoc23/day17.py:143 | a move's recorded cost is the heat of the cells it enters |
| Day17.ChainAppend | aoc23/day17.py:143 | adjacent-cell chains join end to start |
| Day17.EnteredChain | aoc23/day17.py:143 | a move of at least one enters a chain of adjacent cells ending where it stops |
| Day17.WalkCost | aoc23/day17.py:119-143 | a walk's realised cost is the heat of every cell it entered, and with moves of at least one those cells form a chain of adjacent cells from the origin to where it stands |
| Day17.ChainLength | aoc23/day17.py:109-112 | a chain of adjacent cells is at least as long as the Manhattan distance it covers |
| Day17.CellSumBound | aoc23/day17.py:119-120 | with every cell at least 1, the heat of k cells is at least k |
| Day17.WalkEstimate | aoc23/day17.py:109-120 | with every cell at least 1 and moves of at least one, the estimate never falls below the start's heuristic, and a walk that reaches the end costs at least width + height - 2 |
| Day17.RelaxedSpec | aoc23/day17.py:82-87 | only options whose key is unseen or whose estimate improves on the seen one are pushed; seen estimates only fall; each option's key ends at or below its estimate; every new key comes from a pushed route |
| Day17.Relax | aoc23/day17.py:82-87 | the loop keeps the old frontier as a prefix, appends the pushed routes and updates the seen map as specified |
| Day17.PopMin | aoc23/day17.py:76 | `heappop` removes one route of least estimate, leaving the rest as a multiset |
| Day17.OptionsLegal | aoc23/day17.py:129-149 | every option of a legal walk is legal and has at least one move |
| Day17.StartLegal | aoc23/day17.py:71-72 | the first frontier holds only legal routes |
| Day17.RelaxLegal | aoc23/day17.py:82-87 | relaxing keeps the frontier legal |
| Day17.PoppedBound | aoc23/day17.py:76-81 | a popped route at the end costs no more than the estimate of anything left on the frontier |
| Day17.PoppedLegal | aoc23/day17.py:76 | popping keeps the popped route and the rest legal |
| Day17.AStar | aoc23/day17.py:70-87 | a found route is a legal walk with at least one move ending at the bottom-right corner, costing no more than the estimate of any route left; an empty first frontier means exhaustion (`heappop` raising) |
| Day17.ParsedValid | aoc23/day17.py:57-61 | a parsed rectangular input gives a well-formed plan |
| Day17.HeatLoss | aoc23/day17.py:151-163 | an answer is the realised cost of a legal walk to the end, at least width + height - 2 when every cell is at least 1; an input that does not parse fails |
| Day17.Day17A | aoc23/day17.py:151-156 | part one searches with moves of 1 to 3 |
| Day17.Day17B | aoc23/day17.py:158-163 | part two searches with moves of 4 to 10 |
| Day18.Reflect | aoc23/day18.py:39-41 | the reflected direction has both offsets negated |
| Day18.ReflectInvolution | aoc23/day18.py:39-41 | reflecting twice gives the direction back, and no direction is its own reflection |
| Day18.DirOf | aoc23/day18.py:54-55 | `Dir[d]` maps each letter to the direction of that name |
| Day18.ParseStep | aoc23/day18.py:44-55 | a parsed step starts with its direction letter and a space |
| Day18.ParseStepWritten | aoc23/day18.py:44-55 | a step written as letter, count and any tail parses back to that step |
| Day18.HexValue | aoc23/day18.py:60 | `int(n, 16)` of k hex digits lies below 16^k |
| Day18.ParseStepB | aoc23/day18.py:45-60 | the part-two distance comes from five hex digits, so it lies below 0x100000 |
| Day18.HexTextValue | aoc23/day18.py:60 | `int(s, 16)` reads back any value below 16^n written in n lower-case hex digits |
| Day18.ParseStepBWritten | aoc23/day18.py:45-60 | a written `X n (#hhhhhd)` line parses to the step whose distance is the hex number hhhhh and whose heading is R, D, L or U for d = 0 to 3 |
| Day18.DirDigits | aoc23/day18.py:60 | digits 0 to 3 select R, D, L, U in enum order |
| Day18.ParsePlan | aoc23/day18.py:115-121 | a parsed plan has one step per stripped line, each parsed with the part's rule, and fails if any line does |
| Day18.FromStep | aoc23/day18.py:67-71 | a path starts at the position and ends n cells along the step's direction |
| Day18.FromStepOrientation | aoc23/day18.py:73-83 | a path of positive length has the orientation of its step |
| Day18.IntersectsBoxes | aoc23/day18.py:85-99 | `intersects` yields the overlap of the two bounding boxes, none exactly when they share no point, and does not depend on the order |
| Day18.DigFrom | aoc23/day18.py:106-113 | digging gives one path per step, the first from the start |
| Day18.DigFromChained | aoc23/day18.py:106-113 | each path starts where the previous one ends |
| Day18.DigFromEnds | aoc23/day18.py:106-113 | the last path ends at the start moved by the sum of all steps |
| Day18.Dig | aoc23/day18.py:106-113 | the loop builds the chained paths from the origin |
| Day18.CornersOfMarks | aoc23/day18.py:140-146 | a direction is recorded at a point exactly when a path starts there with that orientation or ends there with its reflection |
| Day18.CornersOfKeys | aoc23/day18.py:140-146 | the corner map has exactly the paths' end points as keys |
| Day18.Corners | aoc23/day18.py:140-146 | the loop fills the corner map with those directions |
| Day18.CrossingToggles | aoc23/day18.py:199-209 | a right-angle crossing flips the current region between inside and outside |
| Day18.CountInterior | aoc23/day18.py:171-211 | the state-stack loop computes the scan of the classified corners, and fails where `state.pop()` or `state[-1]` would raise |
| Day18.ScanFromGrows | aoc23/day18.py:171-211 | over corners sorted by x the count never falls |
| Day18.ScanAllNonNegative | aoc23/day18.py:171-211 | a row's count is never negative |
| Day18.Insert | aoc23/day18.py:153-155 | inserting into a strictly ascending list keeps it strictly ascending and adds exactly the value |
| Day18.SortedSet | aoc23/day18.py:153-155 | `sorted(set(...))` is strictly ascending and non-empty for non-empty input |
| Day18.SortedSetMembers | aoc23/day18.py:153-155 | it holds exactly the input's values |
| Day18.EndPoints | aoc23/day18.py:161 | the flattened ends list has two points per path |
| Day18.EndPointsAreCorners | aoc23/day18.py:140-161 | a point is an end point exactly when it is a corner |
| Day18.RowsOfInterest | aoc23/day18.py:152-155 | the rows to measure are strictly ascending |
| Day18.RowsOfInterestCover | aoc23/day18.py:152-155 | a row is measured exactly when it holds a corner or lies just below one |
| Day18.Classify | aoc23/day18.py:163-166 | one classified corner per hit |
| Day18.ClassifyAt | aoc23/day18.py:163-166 | each hit is paired with its corner directions from the defaultdict |
| Day18.RayCornersSorted | aoc23/day18.py:159-166 | the classified corners along a ray are sorted by x |
| Day18.FilterRow | aoc23/day18.py:162 | the hits on a row are no more than the end points |
| Day18.FilterRowMembers | aoc23/day18.py:162 | x is a hit on row y exactly when (x, y) is an end point |
| Day18.RowCountNonNegative | aoc23/day18.py:159-167 | a row's count is never negative |
| Day18.RowCountsAt | aoc23/day18.py:159-167 | the k-th row count is the count of the k-th row of interest |
| Day18.RaySumNonNegative | aoc23/day18.py:156-167 | the weighted sum of row counts is never negative |
| Day18.RaySumNext | aoc23/day18.py:156-167 | each further row adds its run length times its count |
| Day18.RaySumStaysNone | aoc23/day18.py:156-167 | a failing row makes the whole sum fail |
| Day18.RaycastNonNegative | aoc23/day18.py:148-168 | the interior size is never negative |
| Day18.RaycastInterior | aoc23/day18.py:148-168 | the method computes the specified raycast sum |
| Day18.SumRows | aoc23/day18.py:156-167 | the loop over the calculation plan adds run length times row count |
| Day18.CountRow | aoc23/day18.py:159-167 | one row's classified corners are counted by `count_interior` |
| Day18.Day18 | aoc23/day18.py:214-227 | the answer is the raycast interior of the paths dug from the parsed plan, never negative, and none when a line does not parse |
| Day19.Field | aoc23/day19.py:39-40 | reading a `name=digits` field consumes at least the prefix and one digit |
| Day19.FieldWritten | aoc23/day19.py:39-40 | a prefix followed by a decimal number and a non-digit reads back that number and the rest |
| Day19.ParsePartWritten | aoc23/day19.py:37-40 | a part written as `{x=..,m=..,a=..,s=..}` parses back to that part |
| Day19.ParsePart | aoc23/day19.py:37-40 | a text parses only when it opens with `{x=` and is long enough for four fields and the closing brace |
| Day19.With | aoc23/day19.py:63-72 | replacing one axis of a part range changes that axis and no other |
| Day19.Fresh | aoc23/day19.py:52-54 | the fresh range covers 1 to 4000 on every axis |
| Day19.FreshHolds | aoc23/day19.py:48-54 | the fresh range counts 4000^4 parts and holds exactly the parts rated 1 to 4000 everywhere |
| Day19.InsideCount | aoc23/day19.py:48-50 | a range inside another counts no more parts |
| Day19.InsideContains | aoc23/day19.py:48-50 | a part in an inner range is in the outer one |
| Day19.InsideTrans | aoc23/day19.py:56-75 | being inside is transitive |
| Day19.SplitInside | aoc23/day19.py:56-75 | both halves of a split lie inside the range split |
| Day19.SplitSeparates | aoc23/day19.py:62-72 | when the condition cuts the range, the first half holds exactly the parts that satisfy it and the second exactly those that do not |
| Day19.CountAxis | aoc23/day19.py:48-50 | the count is one axis's length times the other three |
| Day19.SplitCounts | aoc23/day19.py:62-72 | when the condition cuts the range, the halves' counts add up to the whole |
| Day19.SplitAllPass | aoc23/day19.py:60-69 | when every part of the range satisfies the condition, `split` as written returns `(None, self)`: no part goes to the consequence and the whole range goes on to the next clause |
| Day19.SplitNonePass | aoc23/day19.py:65-75 | when no part of the range satisfies the condition, `split` as written returns `(self, self)`, so the whole range goes to the consequence as well as on |
| Day19.ParseClause | aoc23/day19.py:90-97 | a parsed clause has a non-empty consequence of word characters |
| Day19.ParseClauseWritten | aoc23/day19.py:90-97 | a written clause `a<2006:qkq` reads back as exactly its category letter, comparison sign, number and consequence |
| Day19.LastIndexOf | aoc23/day19.py:104-105 | the last occurrence of a character before a bound, none when absent |
| Day19.ParseClauses | aoc23/day19.py:109 | one clause per text, each parsed by the clause rule |
| Day19.ParseClausesWritten | aoc23/day19.py:109 | written clauses read back as exactly those clauses, in order |
| Day19.ParseWorkflow | aoc23/day19.py:103-109 | a parsed workflow has a non-empty name and non-empty clause consequences |
| Day19.ParseWorkflowWritten | aoc23/day19.py:103-109 | a written workflow reads back as itself: the name before the brace, the clauses from the comma items before the last, and the fallback from the last item |
| Day19.EvaluateClausesFirst | aoc23/day19.py:111-116 | a workflow sends a part to the consequence of the first clause it satisfies, and to the fallback when it satisfies none |
| Day19.AnalyseClauses | aoc23/day19.py:118-126 | analysis ends with the remaining range sent to the fallback |
| Day19.AnalyseStep | aoc23/day19.py:120-124 | each clause contributes its true half, when there is one, and passes on its false half |
| Day19.AnalyseInside | aoc23/day19.py:118-126 | every piece of the analysis lies inside the analysed range |
| Day19.CountPiecesAppend | aoc23/day19.py:173 | counts over pieces add up across a concatenation |
| Day19.AnalyseCounts | aoc23/day19.py:118-126 | when every clause cuts its range, the pieces count exactly the parts of the range |
| Day19.AnalyseAgrees | aoc23/day19.py:111-126 | when every clause cuts its range, each part lies in exactly one piece, and that piece is labelled with the workflow `evaluate` sends the part to |
| Day19.AnalyseWorkflow | aoc23/day19.py:118-126 | the loop builds the specified list of pieces |
| Day19.ProgramOf | aoc23/day19.py:130-131 | each workflow is stored under its own name |
| Day19.ProgramOfLast | aoc23/day19.py:130-131 | a name is present exactly when some workflow has it, and a later workflow of the same name wins |
| Day19.RunFrom | aoc23/day19.py:133-139 | a finished evaluation ends in 'A' or 'R' |
| Day19.RunFromMoreFuel | aoc23/day19.py:133-139 | once an evaluation finishes or hits a missing workflow, more fuel changes nothing |
| Day19.Evaluate | aoc23/day19.py:133-139 | the loop follows workflows from "in" until a verdict, a missing name (KeyError) or the fuel runs out |
| Day19.AnalyseWorlds | aoc23/day19.py:141-150 | the worklist never meets a malformed outcome |
| Day19.AnalyseWorldsInside | aoc23/day19.py:141-150 | every accepted range lies inside the range the worklist started from |
| Day19.Analyse | aoc23/day19.py:141-150 | the worklist loop computes the specified analysis from the fresh range at "in" |
| Day19.AnalyseFreshInside | aoc23/day19.py:141-150 | every accepted range lies inside the fresh range |
| Day19.FirstBlank | aoc23/day19.py:153-155 | `takewhile` stops at the first blank line |
| Day19.ParseWorkflows | aoc23/day19.py:154 | one workflow per leading line |
| Day19.ParseParts | aoc23/day19.py:156 | one part per line |
| Day19.ParsePuzzle | aoc23/day19.py:152-157 | the parts are the lines after the first blank line |
| Day19.SumAccepted | aoc23/day19.py:165 | the accepted total is never negative |
| Day19.SumAcceptedTotals | aoc23/day19.py:165 | when every part finishes, the result is the sum of the totals of accepted parts |
| Day19.SumAcceptedParts | aoc23/day19.py:165 | the loop computes that sum |
| Day19.Day19A | aoc23/day19.py:159-165 | the answer is the accepted parts' total, or a parse failure |
| Day19.Day19B | aoc23/day19.py:167-173 | the answer is the total count of the accepted ranges, or the analysis's own failure |
| Day20.Keys | aoc23/day20.py:28 | the inputs' names in insertion order, one per input |
| Day20.SetInLookup | aoc23/day20.py:33-36 | setting an input in the ordered dict changes that input's value only, keeps existing keys in place and appends a new key at the end |
| Day20.Lowered | aoc23/day20.py:38-40 | resetting sets every input to LO and keeps the names in order |
| Day20.State | aoc23/day20.py:42-61 | a flip-flop's state is one bit; another module's state packs its inputs into as many bits |
| Day20.InputBits | aoc23/day20.py:42-43 | k inputs pack into a number below 2^k |
| Day20.Sends | aoc23/day20.py:57-90 | a module sends one pulse per output |
| Day20.SendsAt | aoc23/day20.py:57-90 | the i-th pulse goes from the module to its i-th output with the given value |
| Day20.ReceiveRecords | aoc23/day20.py:35-36 | every module records the pulse's value under its source and keeps its outputs |
| Day20.FlipFlopReceive | aoc23/day20.py:53-58 | a flip-flop ignores a HI pulse; on LO it flips its memory and sends the new memory to every output |
| Day20.ConjunctionReceive | aoc23/day20.py:72-79 | a conjunction sends LO to every output when all remembered inputs are HI, and HI otherwise |
| Day20.BroadcasterReceive | aoc23/day20.py:87-90 | the broadcaster forwards the pulse value to every output; a plain output module sends nothing |
| Day20.CountOf | aoc23/day20.py:148-155 | a pulse count is at most the number of pulses |
| Day20.CountLoHi | aoc23/day20.py:152-155 | every popped pulse is counted as LO or HI, once |
| Day20.CountOfAppend | aoc23/day20.py:148-155 | counts add up across a concatenation |
| Day20.PumpFifo | aoc23/day20.py:147-159 | a pump that drains the queue pops the pulses it started with first, in order, and leaves the queue empty |
| Day20.PumpKeepsModules | aoc23/day20.py:147-159 | pumping adds and removes no module |
| Day20.Node.constructor | aoc23/day20.py:25-51 | a new module has its name and kind, no inputs, no outputs and LO memory |
| Day20.Node.ConnectSource | aoc23/day20.py:31-33 | the source gains this module as its last output and this module gains the source as a LO input |
| Day20.Node.SendAll | aoc23/day20.py:57-90 | the bus queue gains one pulse per output, in order |
| Day20.Node.Signal | aoc23/day20.py:35-90 | the module's new state and the pulses it queues are those the module's kind prescribes |
| Day20.Node.Reset | aoc23/day20.py:38-65 | reset sets every input LO, keeps the names and outputs, and sets a flip-flop's memory LO |
| Day20.KeysLowered | aoc23/day20.py:38-40 | lowering the inputs keeps their names and makes them all LO |
| Day20.EventBus.constructor | aoc23/day20.py:136-139 | a new bus has an empty queue |
| Day20.EventBus.Send | aoc23/day20.py:141-142 | `send` appends one pulse from the source's name |
| Day20.EventBus.PushButton | aoc23/day20.py:144-145 | pushing the button queues a LO pulse from "button" to "broadcaster" |
| Day20.EventBus.Pump | aoc23/day20.py:147-159 | the loop delivers pulses in FIFO order as the specified run does, and returns the LO and HI counts of the pulses it popped |
| Day20.EventBus.PushAndPumpN | aoc23/day20.py:161-170 | n presses give the modules, queue, totals and press count of the specified run of presses |
| Day20.Deliver | aoc23/day20.py:156 | delivering a pulse updates only its receiver, as `signal` does, and queues the receiver's pulses |
| Day20.ReceiveTargets | aoc23/day20.py:57-90 | a module only sends to its own outputs |
| Day20.PumpNeverMissing | aoc23/day20.py:147-159 | in a circuit where every output names a module, no pulse reaches a missing module (no KeyError) |
| Day20.PressRun | aoc23/day20.py:161-170 | a completed run made exactly n presses |
| Day20.PressNeverMissing | aoc23/day20.py:161-170 | in such a circuit with a broadcaster, pressing never reaches a missing module |
| Day20.TallyStep | aoc23/day20.py:164-169 | one more press extends the chain of pumps, adds that pump's LO and HI counts to the totals, and counts the press only when the pump drained |
| Day20.ChainPressRun | aoc23/day20.py:161-170 | a chain of pump runs, each starting from the last one's state with a button pulse added, is the specified run of presses |
| Day20.ParseLine | aoc23/day20.py:172-184 | a parsed line names a flip-flop, conjunction or broadcaster with a non-empty name |
| Day20.SplitMore | aoc23/day20.py:187 | splitting the target list on ',' gives the first target and then the others, each after a space |
| Day20.ParseLineWritten | aoc23/day20.py:172-187 | a line written as prefix, name, " -> " and comma-separated targets parses back to that line |
| Day20.ParseAll | aoc23/day20.py:177-187 | all lines parse exactly when each does, one parsed line per line |
| Day20.Define | aoc23/day20.py:175-187 | one wire entry per line with its name and targets, each named module fresh and unconnected |
| Day20.TargetsOf | aoc23/day20.py:193 | a name is a target of c exactly when some wire entry for c lists it, and a module has targets only when some entry names it |
| Day20.TargetsOfAppend | aoc23/day20.py:193 | the `sum` over a split list is the sum over the first part followed by the sum over the second, so the result is every entry for c's targets, in the entries' order |
| Day20.TargetsOfOne | aoc23/day20.py:193 | a single entry contributes its targets when it is for c, and nothing otherwise |
| Day20.Without | aoc23/day20.py:200 | the entries kept are exactly the entries of the list not named c |
| Day20.WithoutKeeps | aoc23/day20.py:200 | after removing c's entries, c has no targets left and every other module has the same targets in the same order |
| Day20.Connect | aoc23/day20.py:196-199 | connecting adds the target module when it is missing, and no other module |
| Day20.ConnectAll | aoc23/day20.py:194-199 | connecting all targets keeps every module and adds every target |
| Day20.WireLoop | aoc23/day20.py:189-200 | the wiring loop keeps every module |
| Day20.ConnectKeeps | aoc23/day20.py:196-199 | one connection keeps every output naming a module and every output matched by an input on the other side |
| Day20.WireLoopKeeps | aoc23/day20.py:189-200 | the whole wiring loop keeps those two properties |
| Day20.WiredLinked | aoc23/day20.py:174-202 | the wired circuit has every output naming a module and matched by an input |
| Day20.WiredNeverMissing | aoc23/day20.py:174-202 | pressing the wired circuit never reaches a missing module |
| Day20.Wire | aoc23/day20.py:174-202 | `wire` builds module objects that mirror the specified wiring, and fails exactly when a line does not match |
| Day20.DefineModules | aoc23/day20.py:175-187 | the first loop creates one fresh module object per line and the wire list, failing exactly when a line does not match |
| Day20.WireUp | aoc23/day20.py:189-200 | the wiring loop on objects mirrors the specified wiring |
| Day20.CounterDiff | aoc23/day20.py:108-109 | each difference is reduced modulo its counter's width |
| Day20.CounterSum | aoc23/day20.py:111-112 | each sum is reduced modulo its counter's width |
| Day20.CounterRoundTrip | aoc23/day20.py:108-112 | adding the difference l - r back to r gives l modulo the widths, and gives l itself when l is in range |
| Day20.PressValue | aoc23/day20.py:204-214 | an answer comes from a completed run of n presses and is its LO count times its HI count |
| Day20.PressAnswers | aoc23/day20.py:204-214 | for a wired circuit with a broadcaster, the only way to have no answer is to run out of fuel |
| Day20.Press | aoc23/day20.py:211-214 | wiring and pressing on objects gives the specified answer |
| Day20.Day20A | aoc23/day20.py:204-214 | `day20a` is the answer after 1000 presses |
| Day21.MoveBack | aoc23/day21.py:26-33 | moving one way then the opposite way returns to the start |
| Day21.UnboundedRepeats | aoc23/day21.py:51-56 | an unbounded garden has every position in bounds and repeats with the grid's width and height |
| Day21.NeighboursExactly | aoc23/day21.py:90-91 | the neighbours are exactly the plots one step away |
| Day21.ExpandExactly | aoc23/day21.py:96 | one round reaches exactly the neighbours of some position of the last round |
| Day21.ReachWalk | aoc23/day21.py:93-97 | every position reached after n rounds ends a walk of n steps over plots from the start |
| Day21.WalkReaches | aoc23/day21.py:93-97 | every walk of n steps from the start ends at a position reached after n rounds |
| Day21.ReachEmpty | aoc23/day21.py:93-97 | once a round reaches nothing, later rounds reach nothing |
| Day21.NeighbourBack | aoc23/day21.py:90-91 | from a plot's neighbour the plot is a neighbour again |
| Day21.ReachPlot | aoc23/day21.py:93-97 | from a plot, only plots are reached |
| Day21.ReachGrows | aoc23/day21.py:93-112 | from a start with an open neighbour, what is reached after n rounds is reached again after n + 2 |
| Day21.AccessibleNeighbours | aoc23/day21.py:90-91 | the accessible neighbours are the positions one step away that are in bounds and hold '.' |
| Day21.LastStart | aoc23/day21.py:43-46 | the scan keeps the last 'S' in reading order |
| Day21.StartOf | aoc23/day21.py:43-46 | the start is an 'S' with no 'S' after it in reading order |
| Day21.ScanStart | aoc23/day21.py:43-46 | the nested loop finds that last 'S' |
| Day21.Planned | aoc23/day21.py:37-47 | the plan's rows are the stripped lines with the start turned into '.' |
| Day21.StartIsPlot | aoc23/day21.py:43-47 | after the rewrite the start is a plot |
| Day21.Plan.constructor | aoc23/day21.py:37-48 | the plan holds that garden, and the start given to it or else the last 'S' |
| Day21.Plan.SetCell | aoc23/day21.py:58-63 | `__setitem__` writes one cell, wrapping the position when unbounded, and changes nothing else |
| Day21.Plan.Step | aoc23/day21.py:93-97 | `step(n)` computes the specified rounds, failing where `reduce` meets an empty round |
| Day21.Plan.StepOutward | aoc23/day21.py:105-117 | the generator's values are the specified outward counts |
| Day21.StepRunReach | aoc23/day21.py:93-97 | `step(n)` gives the positions reached after n rounds, and fails only when round n-1 reached nothing |
| Day21.StepRunFails | aoc23/day21.py:96 | a round that reaches nothing makes every later `step` fail |
| Day21.OutwardCounts | aoc23/day21.py:105-117 | n rounds yield n + 1 counts, the last being the running count |
| Day21.OutwardRecurrence | aoc23/day21.py:105-117 | each count is the count two rounds before plus the new frontier's size |
| Day21.FrontierShell | aoc23/day21.py:112 | from a start with an open neighbour, the frontier after i rounds is what is reached after i rounds but not after i - 2 |
| Day21.OutwardCountsReach | aoc23/day21.py:105-117 | from such a start, the count after i rounds is the number of positions reached after exactly i steps |
| Day21.LivelyRuns | aoc23/day21.py:93-117 | from such a start, `step` never fails and `step_outward` counts what `step` reaches |
| Day21.CountAtAgePeriodic | aoc23/day21.py:119-126 | beyond the recorded counts the answer alternates with parity; within them it is the count at that age, with Python's negative indexing below |
| Day21.Day21A | aoc23/day21.py:191-197 | the answer is the number of positions `step(n)` reaches on the bounded plan |
| Day22.BrickSpan | aoc23/day22.py:27-51 | a brick's lowest layer is at most its highest, its height is at least one, and it lies in exactly the layers from its lowest through its height |
| Day22.XYIntersectsShares | aoc23/day22.py:39-48 | `xy_intersects` holds exactly when the two footprints share a cell, and does not depend on the order |
| Day22.ToLayer | aoc23/day22.py:53-56 | moving a brick to a layer puts its lowest cube there, keeps its height, and moves it only vertically |
| Day22.Parse | aoc23/day22.py:58-64 | a line parses exactly when its strip splits at '~' into two readable corners; the brick has the given id and those corners |
| Day22.ParsePos | aoc23/day22.py:62-63 | a corner parses exactly when it has three comma-separated integers, which become x, y and z in order |
| Day22.PosTextRead | aoc23/day22.py:62-63 | a written corner `x,y,z` reads back as that corner |
| Day22.ParseWritten | aoc23/day22.py:58-64 | a written brick `x,y,z~x,y,z` reads back as that brick with its id |
| Day22.Where | aoc23/day22.py:71-82 | a list comprehension keeps exactly the bricks that satisfy its condition |
| Day22.InsertPerm | aoc23/day22.py:68 | inserting adds the element to the multiset |
| Day22.InsertSorted | aoc23/day22.py:68 | inserting into a sorted list keeps it sorted |
| Day22.SortByPermSorted | aoc23/day22.py:68 | sorting by lowest layer gives a permutation sorted by that key |
| Day22.StartingAt | aoc23/day22.py:75 | the bricks whose lowest layer is p, all of them, in order |
| Day22.Condense | aoc23/day22.py:66-90 | condensing raises on an empty list (`max` of nothing); otherwise each brick of the sorted list keeps its footprint and moves only vertically, one that moved sits at layer 1 or above, and every brick lying between layer 1 and the input's highest layer rests on the floor or on a brick right under it |
| Day22.Ceiling | aoc23/day22.py:73-77 | the ceiling is every brick starting at the first layer above the current one that has any, and empty when no layer up to the top has one |
| Day22.Settle | aoc23/day22.py:79-88 | a ceiling brick ends resting on the floor or on a brick right under it, and no other brick moves |
| Day22.SettleCeiling | aoc23/day22.py:79-88 | after the whole ceiling settles, every brick from layer 1 up to the layer above the current one rests, and the bricks keep only vertical moves |
| Day22.RestsKept | aoc23/day22.py:79-88 | a brick that rests keeps resting when only a brick reaching its own layer or higher moves, so later drops never take a settled brick's support away |
| Day22.SortByTop | aoc23/day22.py:68-69 | sorting by lowest layer keeps the highest top, so `max_z` is the input's highest layer |
| Day22.Drop | aoc23/day22.py:80-88 | one supporting layer either stops the brick on top of what it hits there, or moves it down to that layer |
| Day22.Moved | aoc23/day22.py:85-88 | a vertical move at or above layer 1 keeps the condensing invariant |
| Day22.Lands | aoc23/day22.py:83-85 | the brick stops above the highest top among the bricks under its footprint in the layer |
| Day22.Supporters | aoc23/day22.py:92-93 | the supporters are exactly the bricks in the layer under it that share its footprint |
| Day22.Supported | aoc23/day22.py:99 | the supported bricks are exactly those in the layer over it that share its footprint |
| Day22.UnburdenedIff | aoc23/day22.py:95-104 | a brick can be removed exactly when no brick it holds up has just one supporter |
| Day22.SoleSupporter | aoc23/day22.py:92-93 | when a brick has one supporter, every brick under its footprint in the layer below is that one |
| Day22.UnburdenedNext | aoc23/day22.py:97-103 | each brick adds one to the count exactly when it can be removed |
| Day22.CountUnburdened | aoc23/day22.py:95-104 | the loop counts the bricks that can be removed |
| Day22.NodeOfLinks | aoc23/day22.py:118-119 | a node's supporters are exactly the ids of bricks under it and sharing its footprint, its supporteds those over it |
| Day22.ToNodes | aoc23/day22.py:115-121 | the result is one node per brick, sorted by id |
| Day22.WorkDrops | aoc23/day22.py:128-133 | replacing the last queued node by the nodes it supports strictly lowers a measure of the work left, so the search ends |
| Day22.TaggedFalls | aoc23/day22.py:123-135 | when the search ends, node k carries tag i exactly when k comes down with brick i |
| Day22.Tower.constructor | aoc23/day22.py:115-121 | a new tower holds the nodes with empty tags |
| Day22.Tower.TagDependents | aoc23/day22.py:123-135 | afterwards node k carries tag i exactly when k is not i and comes down with brick i, and other tags are unchanged |
| Day22.Tower.TagNext | aoc23/day22.py:128-133 | one pop keeps the search state and lowers the work left |
| Day22.Tower.TaggedWith | aoc23/day22.py:144 | the nodes carrying tag j |
| Day22.Tower.TagAll | aoc23/day22.py:142-143 | after tagging for every brick, node k carries tag j exactly when k comes down with j and is not j |
| Day22.Tower.Direct | aoc23/day22.py:137-145 | the count for brick i is the number of other bricks that come down with it |
| Day22.FallenBy | aoc23/day22.py:144 | the bricks other than i that come down with i |
| Day22.TaggedStep | aoc23/day22.py:130-133 | tagging a node whose supporters are all tagged and queueing what it supports keeps the search state |
| Day22.SkippedStep | aoc23/day22.py:129-130 | skipping a node with an untagged supporter keeps the search state |
| Day23.DirOf | aoc23/day23.py:41-43 | a character names a direction exactly when it is one of the four slopes |
| Day23.DirOfSlope | aoc23/day23.py:41-43 | `Dir.of` and the slope of a direction are inverse: the slope of d reads back as d |
| Day23.MakePlan | aoc23/day23.py:47-52 | a plan keeps the stripped rows, takes its width from the first row, and starts at the first '.' of the top row and ends at a gap in the bottom row |
| Day23.FirstDot | aoc23/day23.py:51-52 | the first '.' at or after x in a row, or none when the row has none there |
| Day23.Get | aoc23/day23.py:54-56 | indexing a plan at an in-bounds position reads row y, column x |
| Day23.OptionsAsWritten | aoc23/day23.py:97-99 | `options` as written checks both coordinates against the width: it raises exactly when a neighbour passes that test but lies off the plan, and otherwise offers exactly the directions passing it onto a cell that is not '#' |
| Day23.Options | aoc23/day23.py:97-99 | the directions offered are exactly those whose neighbour lies on the plan and is not '#' (y checked against the height) |
| Day23.OptionsSquare | aoc23/day23.py:97-99 | on a square plan the code as written and the corrected one agree |
| Day23.WideParses | aoc23/day23.py:47-52 | the two-row, four-column plan parses |
| Day23.WideWalk | aoc23/day23.py:123-133 | on that plan a walk from the top gap reaches the bottom row |
| Day23.WidthCheckRaises | aoc23/day23.py:97-99 | at the bottom of that walk the code as written offers south, one row past the plan, and raises, where the corrected options offer only west and north |
| Day23.MoveSlides | aoc23/day23.py:101-111 | a move is empty exactly when the next cell is not open; otherwise it starts there, visits only open cells, and goes on past a slope in the slope's direction |
| Day23.MoveAdjacent | aoc23/day23.py:101-111 | each cell of a move is next to the one before it |
| Day23.MoveB | aoc23/day23.py:113-121 | `move_b` ignores slopes: one step onto any cell but '#', none onto '#' |
| Day23.Extend | aoc23/day23.py:131-132 | a path is extended only by a non-empty move whose last cell is not on it already |
| Day23.ExtendWalk | aoc23/day23.py:128-133 | extending a walk by a move gives a walk |
| Day23.Bfs | aoc23/day23.py:123-133 | every path the search yields is a walk from the top gap to the bottom gap, and when the queue runs empty every path the search can build from the top gap to the bottom gap has been yielded |
| Day23.GrowsWalk | aoc23/day23.py:130-133 | what the search builds from a walk by the options' moves is a walk that begins with it |
| Day23.WalksPendingFound | aoc23/day23.py:126-128 | a popped path at the bottom gap is yielded and builds no other path to the gap, so every path to the gap is still yielded or built from a queued path |
| Day23.WalksPendingBranch | aoc23/day23.py:129-133 | when a popped path short of the bottom gap has every option's extension queued, every path to the gap it would build is built from one of those extensions |
| Day23.Branch | aoc23/day23.py:128-133 | each queued path extends the popped one by cells not on it, and every such extension by an option's move is queued |
| Day23.Reversed | aoc23/day23.py:144-145 | the reversed connection swaps source and target and keeps the distance |
| Day23.KeysOf | aoc23/day23.py:154 | the keys of the connections dict |
| Day23.Lookup | aoc23/day23.py:168-176 | a key has an entry exactly when it is in the dict, and the connection found runs from the key's source to its target |
| Day23.LookupAt | aoc23/day23.py:168-176 | with distinct keys, looking up an entry's key finds that entry |
| Day23.Store | aoc23/day23.py:165-176 | storing under a key overwrites an existing entry in place or appends a new one, like a dict assignment |
| Day23.StoreKeys | aoc23/day23.py:165-176 | storing keeps keys distinct and adds exactly that key |
| Day23.StoreLookup | aoc23/day23.py:165-176 | after storing, the key maps to the stored connection |
| Day23.StoreLookupOther | aoc23/day23.py:165-176 | storing leaves every other key's entry as it was |
| Day23.Extensions | aoc23/day23.py:160 | each extension is one step from the path's tip, onto the plan, onto a cell that is not '#' and not on the path |
| Day23.ExtensionsExactly | aoc23/day23.py:160 | every option whose cell is off the path yields an extension, and no extension occurs twice, so the count of extensions is the number of open neighbours off the path |
| Day23.ExtensionsFromExactly | aoc23/day23.py:160 | a cell is an extension exactly when it is the step along one of the directions and not on the path |
| Day23.ExtensionsFromDistinct | aoc23/day23.py:160 | distinct directions give extensions none of which repeats |
| Day23.OptionsDistinct | aoc23/day23.py:97-99 | `options` names each direction at most once |
| Day23.StoreCorridor | aoc23/day23.py:165-169 | storing a corridor into a dict of corridors keeps every stored connection a corridor |
| Day23.Explorer.constructor | aoc23/day23.py:153-154 | exploring starts with no connections |
| Day23.Explorer.Record | aoc23/day23.py:165-169 | recording a corridor stores it under its (start, end) key, changes no other key, and keeps every stored connection a corridor of the plan |
| Day23.Explorer.Explore | aoc23/day23.py:156-172 | exploring only adds connections, never changes one recorded earlier except one ending at the exit (which line 165 overwrites), and every connection it records is a corridor: an open walk of `distance` steps ending at the target and starting at the source, or next to it when the source is the junction left |
| Day23.Explorer.Junction | aoc23/day23.py:166-172 | at a junction reached along a corridor, connections are only added, every one recorded is a corridor, and none recorded earlier changes except one ending at the exit |
| Day23.Explorer.ExploreAll | aoc23/day23.py:170-171 | exploring each way out of a junction keeps the same properties |
| Day23.WayOut | aoc23/day23.py:170-171 | a way out of a junction starts next to the junction's cell, on the plan |
| Day23.WalkOn | aoc23/day23.py:158-163 | one more step along the only extension keeps the walk open, one step longer, and away from the junction it left |
| Day23.WalkCorridor | aoc23/day23.py:164-169 | the walk taken when `explore` stops is a corridor from its start to the cell reached, of the counted steps |
| Day23.ConsistentRev | aoc23/day23.py:176 | if a key's reverse holds the reversed connection, so does the reverse's reverse |
| Day23.ReverseKeepsConsistent | aoc23/day23.py:175-176 | storing one reversed connection keeps every key consistent that already was |
| Day23.ReversingStep | aoc23/day23.py:175-176 | one turn of the loop keeps the loop's invariant |
| Day23.ReversingDone | aoc23/day23.py:175-177 | when the loop ends each key's reverse is a key with the reversed connection, and the keys are the old ones and their reverses |
| Day23.Symmetrise | aoc23/day23.py:175-176 | the loop makes the dict symmetric, adds exactly the reversed keys, and keeps every connection whose reverse was not a key already |
| Day23.ExtractConnections | aoc23/day23.py:147-177 | the junction graph is symmetric, every connection runs from its key's source to its key's target, every key is a pair of cells on the plan, and every key or its reverse is joined by a corridor of the plan |
| Day23.FoundJoined | aoc23/day23.py:165-169 | every key recorded by exploring is joined by a corridor |
| Day23.Outgoing | aoc23/day23.py:192 | the connections listed for a position are exactly those leaving it |
| Day23.RouteExtend | aoc23/day23.py:194-195 | a route followed by a new junction reached by a connection is a route |
| Day23.Push | aoc23/day23.py:194-195 | such a pushed path is a child of the popped one |
| Day23.Successors | aoc23/day23.py:192-195 | the pushed paths are children of the popped one, one for every connection leaving its tip to a junction not on it |
| Day23.DfsConnections | aoc23/day23.py:180-195 | every path yielded is a route of distinct junctions from the entry to the exit along connections, and when the stack runs empty every such route has been yielded |
| Day23.RoutesPendingFound | aoc23/day23.py:188-190 | a popped path at the exit is the only route to the exit it begins, since a route passes the exit once |
| Day23.RoutesPendingBranch | aoc23/day23.py:191-195 | a route to the exit that begins with a popped path short of the exit begins with one of its pushed successors |
| Day23.StepsOf | aoc23/day23.py:202 | one length per path, its number of cells less one |
| Day23.Day23A | aoc23/day23.py:197-202 | an answer is the length of a walk from the entry to the exit |
| Day23.RouteStepsDefined | aoc23/day23.py:215 | along a route every pair is a key, so summing the distances raises no KeyError |
| Day23.LongestRoute | aoc23/day23.py:211-220 | the answer is at least the length of every route and is 0 or the length of one of them |
| Day23.Day23B | aoc23/day23.py:204-220 | an answer is non-negative and comes from a plan that parses |
| Day25.Neighbours | aoc23/day25.py:28-29 | the neighbours of v are exactly the vertices joined to v by an edge in either direction |
| Day25.NeighboursSymmetric | aoc23/day25.py:28-29 | u is a neighbour of v exactly when v is a neighbour of u |
| Day25.Without | aoc23/day25.py:31-33 | removing edges keeps the vertices and drops exactly the given edges in both directions |
| Day25.WithoutNeighbours | aoc23/day25.py:28-33 | after the removal u neighbours v exactly when it did before and the edge between them was not removed |
| Day25.ParsedSome | aoc23/day25.py:38-39 | parsing succeeds exactly when every line has one ':' (otherwise the unpacking raises) |
| Day25.ParsedVertices | aoc23/day25.py:40-41 | the vertices are exactly the stripped names before ':' |
| Day25.ParsedEdges | aoc23/day25.py:42-43 | the edges are exactly those from a line's source to each word after its ':' |
| Day25.EdgesLeaveVertices | aoc23/day25.py:39-43 | every edge starts at a vertex |
| Day25.Parse | aoc23/day25.py:35-44 | the parsing loop builds the parsed graph, or fails as the specified parse does |
| Day25.AddEdges | aoc23/day25.py:42-43 | the inner loop adds one edge per target word |
| Day25.NoneStays | aoc23/day25.py:38-39 | once a line fails to split, the whole parse fails |
| Day25.ReachableExactly | aoc23/day25.py:46-55 | a vertex is reachable exactly when a walk of one step or more leads to it |
| Day25.ClosedHoldsReachable | aoc23/day25.py:46-55 | a set closed under taking neighbours that holds v's neighbours holds everything reachable from v |
| Day25.BfsGather | aoc23/day25.py:46-55 | gathering gives exactly the vertices reachable in one step or more, which leaves out v itself unless a cycle returns to it |
| Day25.IsolatedGathersNothing | aoc23/day25.py:46-55 | gathering from a vertex without neighbours gives nothing |
| Day25.LoneVertex | aoc23/day25.py:86-94 | the line "a:" parses to one vertex and no edge, and gathering from it leaves the vertex unplaced, so `components` never ends |
| Day25.LinkedBack | aoc23/day25.py:46-55 | edges are undirected, so reachability runs both ways |
| Day25.LinkedTrans | aoc23/day25.py:46-55 | reachability is transitive |
| Day25.ComponentOfMember | aoc23/day25.py:86-94 | every member of a component has that same component |
| Day25.ComponentsMeet | aoc23/day25.py:86-94 | two components that share a vertex hold each other's start |
| Day25.Components | aoc23/day25.py:86-94 | with the start added to each gathered set, the components cover every vertex, are non-empty, are each the component of every member, and are pairwise disjoint |
| Day25.BfsFurthest | aoc23/day25.py:57-69 | the path popped last is a path from u, and every vertex reachable from u has a path from u no longer than it |
| Day25.PathExtends | aoc23/day25.py:68-83 | a path followed by a neighbour of its end is a path |
| Day25.OutOfBounds | aoc23/day25.py:74 | the vertices of the used paths other than the destination |
| Day25.BfsAugmenting | aoc23/day25.py:71-83 | a path found leads from u to the destination avoiding the used paths' vertices; none found means the destination is not u and cannot be reached while avoiding them |
| Day25.AugmentDone | aoc23/day25.py:75-83 | an emptied queue means the destination is unreachable |

## Left out

General:

- Every `main()`: file reading and printing are I/O.
- The sample answers in the doctests on the puzzles' `TEST_INPUT`s are not proved, except where a small case was stated as a lemma (the examples named in the table); evaluating whole sample puzzles is beyond what the verifier unfolds.
- `print`, `dump`, `__repr__`/`__str__` and `show_progress` output: no behaviour beyond printing.
- Regular expressions are modelled by the hand-written scanners they stand for, over ASCII digits and letters; Unicode digits that `\d` and `int()` accept, and underscores inside numbers that `int()` accepts, are not modelled.
- Common.IsSpace: whitespace is the space, tab, newline and carriage return; `str.strip` and `str.split` also treat the other Unicode whitespace characters (form feed, vertical tab, no-break space and so on) as whitespace. Common.Strip and Common.Words use Common.IsSpace.
- Common.ParseInt: reads a token that is exactly an optional sign and decimal digits; `int()` also accepts whitespace around the number and underscores between digits, which the model rejects (None). Most solvers pass it tokens from `str.split()` or regex groups, which hold no whitespace; the exception is Day22.ParsePos, whose fields come from `split(',')` of a stripped half of the line (aoc23/day22.py:60-63), so a padded field such as the ` 0` of `1, 0,1~1,2,1` is read by Python and rejected by the model.
- Day22.ParsePos: a field with whitespace around its number makes the corner fail to parse (None), where `int()` strips the whitespace and reads it.
- Loops that may not terminate are bounded by a `fuel` parameter; a run that uses up its fuel reports that it did not finish rather than going on.

day 2:

- Day2.FindAll: its contract only bounds the number of matches; what it reads is stated for draws written in the puzzle's form (Day2.FindAllWritten), not for arbitrary text.
- Day2.ParseGame: its contract states the `Game ` prefix and the minimums; the fields it reads are stated for lines written in the puzzle's form (Day2.ParseGameWritten).

day 4:

- The card regex is modelled by splitting at the `:` and at the last `|`; runs of spaces are treated as the regex's `\s+`.
- Day4.ParseCard: its contract states only the `Card` prefix; the fields it reads are stated for lines written with single spaces (Day4.ParseCardWritten), not for the extra blanks the sample uses to align numbers.

day 5:

- The sample answers are proved on mappings transcribed from the sample (35 for part a, by Day5.SampleLocations), not through the parser; the sample answer of part b (46) is not proved.
- Day5.ParseMapping: its contract states only progress; what it reads is stated for blocks written with single spaces (Day5.ParseMappingWritten) and for any lines whose words are three numbers (Day5.ParseMappingRead).

day 7:

- Day7.ParseLine: a negative bid makes the line fail to parse, whereas Python would accept it and add a negative product to the winnings.

day 8:

- Day8.LcmCommonMultiple: `lcm` is proved to be a common multiple of its arguments, not the least one.
- Day8.ParseLink: its contract states only the node name; the exits are stated for written lines (Day8.ParseLinkWritten).
- Day8.ParseLinks: its contract states that keys and node order agree; what each node maps to, the exits on the last line naming it, is stated by Day8.ParseLinksLast.
- Day8.Parse: its contract states the shape of a parsed map; what each node maps to is stated for written maps (Day8.ParseWritten) and for any link lines (Day8.ParseLinksLast).

day 9:

- Nothing beyond the general points above.

day 10:

- `b()` starts the walk in the first direction of a Python set, whose order is unspecified; the model starts in the first direction of its own list.
- A start whose pipe cannot be identified (`start_symbol` returning None) is treated like 'S'.
- Day10.Cell: a position off the grid reads as a tile with no openings. Python's `self[pos]` wraps a negative index to the far side and raises IndexError past the end. The model keeps that reading only for `available_directions` (Day10.PyCell); Day10.Enter, Day10.FollowFrom, Day10.Day10A and Day10.Day10B use Day10.Cell, so a pipe on the edge that points outwards ends the walk where Python would wrap or raise.

day 11:

- Day11.Day11: requires an expansion factor of at least 1; Python accepts 0 and negative factors, which would move galaxies backwards.

day 12:

- `UnfoldedRow.verify` (the reverse-symmetry self check) is left out: it asserts over a second computation and returns nothing.
- Day12.ParseRow: its contract states the plan and when a row parses; the counts are stated for rows written as plan, space and comma-joined counts (Day12.ParseRowWritten).
- Day12.Day12A: states when the sum exists; what each row contributes is stated by `SolutionsExactly` and `SolutionCount`.
- Day12.Day12B: states when the sum exists; what each partition means is stated by `UnfoldedPartitionsShare`, and the partitions are proved sound but not complete.

day 13:

- Day13.FindSmudgedReflection: states that no answer means no smudged mirror, that an answer is a smudged mirror, and that it is the first smudged mirror when that one lies in the first half of the pattern; in other cases the code can return a later mirror, and the model does the same without a stronger claim.

day 14:

- Day14.Day14A: requires a rectangular grid of '.', '#' and 'O'. Python does not reject ragged rows: a row shorter than the first raises IndexError in a column tilt, and the cells of a longer row beyond the first row's width are left out of the column tilts.
- Day14.Day14B: the same requirement.
- The checkpoints `run` keeps every 1000 spins are keyed by the grid itself rather than by `hash(self)`, so two different grids with equal hashes are never taken for a repeat.
- `__getitem__`/`__setitem__` with slices are modelled by column and row functions.

day 15:

- Splitting the input on ',' in `main` is I/O-side and left out.

day 16:

- Day16.Puzzle.Trace: proves the energised cells form a set closed under the beam's moves that holds the entry, not that it is the least such set.
- Day16.Day16A: the answer is the active count of a track that is closed under the beam's moves and holds the first beam; as for Day16.Puzzle.Trace, that it is the least such track is not proved.
- Day16.Day16B: states only that the answer is the largest count in the map it returns; that the map holds, under each exit a trace recorded, that trace's active count, and that every border entry was traced or seen as an exit, is not proved.
- Day16.Puzzle.constructor: requires every stripped row to be as long as the first; Python takes the width from the first row and accepts ragged rows (a longer row is read only up to that width, a shorter one raises IndexError when a beam reaches its missing cells). Day16.Day16A and Day16.Day16B carry the same requirement.
- `exits`' debugging print is left out.

day 17:

- Day17.AStar: proves that a route found is a legal walk to the end whose cost is at most the estimate of every route left on the frontier; optimality of the search is not proved.
- The tie order of `heapq` is not modelled; the frontier yields a route of least estimate.
- The drivers require a rectangular plan; in Python a shorter row raises IndexError when the search reads a missing cell, and a longer row is read only up to the first row's width.
- Day17.HeatLoss: the answer is the cost of a legal walk to the end, found first by the search; that no legal walk costs less is not proved (as for Day17.AStar).
- Day17.Day17A: the same as Day17.HeatLoss with runs of 1 to 3; the least heat loss is not proved.
- Day17.Day17B: the same as Day17.HeatLoss with runs of 4 to 10; the least heat loss is not proved.

day 18:

- The `Step.parse`/`parse_b` regexes are modelled as prefix matches over ASCII digits and hex digits.
- Day18.ParseStepB: its contract states only the distance bound; what a line reads as is stated for written lines (Day18.ParseStepBWritten).

day 19:

- `day19b` takes an argument `n` that it never uses; it is not modelled.
- The boundary branches of `split` carry no partition claim.
- Day19.Day19B: the count is tied to the ranges the analysis accepts (Day19.AnalyseWorlds); that it equals the number of parts in 1..4000 per rating that Day19.Evaluate sends to 'A' is proved per workflow (Day19.AnalyseAgrees), not for the whole program.
- Day19.ParseClause: its contract states only the consequence; the letter, sign and number are stated for written clauses (Day19.ParseClauseWritten).
- Day19.ParseWorkflow: its contract states only the name and consequences; the clauses and the fallback as the last comma item are stated for written workflows (Day19.ParseWorkflowWritten).

day 20:

- `push_and_pump_n` with `n=None` (push until the queue runs dry forever) is left out: it only ends on inputs that drain.
- The module-level `reset()`, `counter_double`, `COUNTERS`, `nl_state`, `calculate`, `flipper_state`, `counter_state` and `dump_component_state` are hard-wired to the real input's node names.
- `day20b` is a stub (`pass`).

day 21:

- `Solver`, `subgrid_hash`, `subgrids`, `blank` and `step_counts` (SHA-1 hashing of sub-grids tuned to the real input) are left out; the `Solver` doctests are commented out in the source.
- Day21.Plan.constructor: requires at least one line and an 'S'. With no lines Python raises IndexError on `self.rows[0]` (aoc23/day21.py:40), and with no 'S' it raises AttributeError on `self.start` (aoc23/day21.py:47); the model has no error path for either.
- Day21.Day21A: carries the same two requirements as Day21.Plan.constructor, so the empty input and a garden without 'S', where Python raises, are outside the model.
- Day21.LivelyRuns: needs the start to be a plot with an open neighbour; without it the reachable counts alternate with empty rounds, where `step` fails on its `reduce` of nothing.
- `Plan` requires rectangular rows. Python does not reject ragged rows: a row shorter than the first raises IndexError when a missing cell is read, and the cells of a longer row beyond the first row's width are off the plan, though the start 'S' is searched for along the whole row.

day 22:

- `day22a`/`day22b` drivers, the unused `path_matrix` field, the unused `current` variable and the unused `TopologicalSorter` import.
- Day22.Tower.constructor: the ordering of supports by layer (`Layered`) is a precondition of the tower, not derived from `Condense`.
- Day22.SortByPermSorted: proves a sorted permutation; the stability of Python's sort is not proved.
- Day22.Condense: the resting property covers the bricks lying from layer 1 up to the input's highest layer. A brick that starts below layer 1, or one lifted above that layer because the input has overlapping bricks, is not covered. The puzzle's input has neither.

day 23:

- `walls`, `dots`, `dots_inaccessible` and `path_adjacent` are heuristics the solvers never call.
- Day23.MakePlan: returns a plan whenever there are rows, the bottom row is at least as long as the first and both have a '.' within the first row's width, whatever the lengths of the rows in between; the solvers then require every row to have the first row's width (Day23.ValidPlan) and return None otherwise, where Python reads a longer row up to that width and raises IndexError only when it reads a missing cell of a shorter one.
- Day23.Symmetrise: keeps the connection of a key whose reverse was not already a key; the distances of keys present in both directions are only proved consistent, not kept.
- Day23.Day23A: states that the answer is the length of a walk to the exit, not that it is the longest of those found.
- Day23.Day23B: states only that the answer is non-negative and comes from a plan that parses; the maximum is stated by `LongestRoute`.
- Day23.Explorer.Explore: proves every recorded connection is a corridor and that recorded ones stay put, but not the converse, that every junction reachable from the top gap gets recorded; the same holds for Day23.Explorer.Junction and Day23.Explorer.ExploreAll.
- Day23.ExtractConnections: each key or its reverse is joined by a corridor, but when exploring found a corridor in both directions the distance kept under each key is not tied to the corridor found for that direction.
- Day23.Bfs: completeness is promised only for a run that reports Finished; nothing states how many rounds of fuel suffice for the search to finish, so a run cut short (Unfinished) or stopped by a raising move promises only that what it yielded are walks to the bottom gap.
- Day23.DfsConnections: completeness is promised only when `finished` is true; nothing states how many rounds of fuel suffice to empty the stack, so a run cut short promises only that what it yielded are routes to the exit.
- Day23.Bfs, Day23.Branch, Day23.Extensions, Day23.Explorer.Explore, Day23.Day23A and Day23.Day23B use the corrected Day23.Options, so on a plan wider than it is tall they go on where the code as written raises IndexError (see Findings).

day 25:

- `day25a` (the min-cut driver built on random choices and `pairwise`) is left out: it depends on `random`.
- Day25.BfsFurthest: proves that the last path popped is a path from u no shorter than the way to any reachable vertex; that it is a shortest path is not proved.

## Findings

| source | as written | input that shows it | evidently intended | confidence | as-written member | corrected member |
|---|---|---|---|---|---|---|
| aoc23/day10.py:97-103 | `available_directions` reads the neighbour cells with Python indexing, so a move off the top or the left reads the far side of the grid (index -1), and a move off the bottom or the right raises IndexError | the three-row grid "S7", "LJ" and a vertical pipe followed by '.' offers N, S and E at the start, so no start symbol fits; the grid "F7", "SJ" raises at the start | a neighbour off the grid offers no connection | not executed | Day10.AvailableAsWritten, Day10.WrapAroundGainsDirection, Day10.BottomRowRaises | Day10.AvailableDirections |
| aoc23/day23.py:97-99 | `options` checks the row index y against the plan's width instead of its height | the plan "#..#", "#..#": at (2, 1) south passes the check and indexing row 2 raises IndexError | y checked against the height | not executed | Day23.OptionsAsWritten, Day23.WideWalk, Day23.WidthCheckRaises | Day23.Options, Day23.OptionsSquare |
| aoc23/day25.py:46-55,86-94 | `bfs_gather` adds only neighbours to `visited`, so the start is gathered only when a cycle leads back to it; `components` then never removes an isolated vertex from `vs` and loops forever | the line "a:" | the gathered component includes its start | not executed | Day25.IsolatedGathersNothing, Day25.LoneVertex | Day25.Components |
