# statcalc: a verified model of the match-statistics calculator

statcalc reads a history of football (FIFA) match results, oldest first. Each
match has a home team, home goals, away goals and an away team. From this
history it builds three tables:

- **absolute stats**: games played, points, goal difference, wins, losses,
  draws, goals scored and allowed, clean sheets (for and against), and big
  wins and losses (a margin of at least 3 goals);
- **normalized stats**: points per game to 4 decimal places, goal rates per
  game to 3 places, and percentages to 2 places;
- **latest form**: the results of each team's latest `n` games, newest first,
  as a string over `W`, `D` and `L`, and the points per game over those games.

Each table is sorted stably by points per game, highest first, and then ranked
1, 2, 3, ... in that order.

For two-a-side files (a file name containing "2v2", in any case), a team name
is a concatenation of its players' names, such as `AliceBob`. Each name starts
with an upper-case letter. The same three tables are also built per
individual: an individual's absolute row is the sum of the rows of every team
they are a whole-name member of.

The Dafny modules follow the structure of the program:

| module | file | models |
|---|---|---|
| `Model` | model.dfy | the records `Match` (the source's `RawData`), `StatsAbs`, `StatsNorm` and `LatestForm` |
| `Strings` | strings.dfy | byte-wise string order (`sort.Strings`); splitting a team name into members (the `[A-Z][^A-Z]*` pattern); the "2v2" file-name test |
| `Sorting` | sorting.dfy | a stable in-place sort on an array, the model of `sort.SliceStable` and `sort.Strings` |
| `Directory` | directory.dfy | `stringInSlice`, `extendUniqueElements`, `getUniqueTeamNames`, `individualInTeam`, `getUniqueIndividualNames` |
| `Aggregate` | aggregate.dfy | the ten per-team scans and `getAbsoluteStats` |
| `Normalize` | normalize.dfy | `integerify`, `round` and `getNormalizedStats` |
| `Individuals` | individuals.dfy | `extractIndividualStatsFromTeamStats` and `getAbsoluteStatsByIndividual` |
| `Legacy` | legacy.dfy | the older `getAbsoluteStatsByIndividual` of `calculator/calculator.go` |
| `Form` | form.dfy | `reverseRecordsOrder`, `representLatestForm(Solo)` and `getLatestForm(Solo)` |
| `Ranking` | ranking.dfy | the three sorts and the three ranking functions |
| `Scenarios` | scenarios.dfy | small worked histories |

Each scan is a method with the source's own loop and its `if` / `else if`
order (home side first). It is proved equal to one specification function,
`Total(records, team, stat)`. The properties are proved about `Total`:
bounds, results adding up to games, and a team having games exactly when it
appears in the history.

The sort methods reorder an `array` in place. They are proved sorted, a
permutation, and stable: for every element `e`, the elements ordered equally
with `e` keep their relative order.

The directory `calculator/` holds an older revision of the same program. Its
functions are the same code as those of `calculator.go`, so one member models
both:

| older function | member |
|---|---|
| the ten scans | the `Aggregate` scans |
| `getAbsoluteStats` | `Aggregate.AbsoluteStats` |
| `getNormalizedStats` | `Normalize.NormalizedStats` |
| `sortAbsoluteStats` | `Ranking.SortAbsStatsByMetric` |
| `sortNormalizedStats` | `Ranking.SortNormStatsByMetric` |
| `rankAbsoluteStats` | `Ranking.AttachRankingToAbsStats` |
| `rankNormalizedStats` | `Ranking.AttachRankingToNormStats` |
| `extendUniqueElements` | `Directory.ExtendUniqueElements` |
| `getUniqueIndividualNames` | `Directory.UniqueIndividualNames` |
| `individualInTeam` | `Directory.IndividualInTeam` |
| `utils.go`'s `getUniqueTeamNames` | `Directory.UniqueTeamNames` |
| `utils.go`'s `stringInSlice` | `Directory.StringInSlice` |

Only the older `getAbsoluteStatsByIndividual` is written differently: it uses
twelve accumulators instead of a map. It has its own member,
`Legacy.AbsoluteStatsByIndividual`, which is proved to satisfy the same contract
as the newer one.

Where the code and its description disagree, the model follows the code:

- No validator rejects a match a team plays against itself.
  `Scenarios.SelfPlayBreaksPartition` shows that such a match credits one
  game but both a win and a loss.
- The properties that need the two sides to differ carry `NoSelfPlay` as a
  hypothesis.
- No validator checks that a team name is made of capitalised segments. A
  name's members are whatever `[A-Z][^A-Z]*` finds in it.

## Model

| member | source | states |
|---|---|---|
| Strings.LexLe | calculator.go:222 | the order `sort.Strings` sorts by: character-by-character comparison of code points, which orders UTF-8 strings as their bytes do; a prefix comes before every longer string it begins |
| Strings.LexLeTotal | calculator.go:222 | any two names are comparable in the byte-wise order `sort.Strings` uses |
| Strings.LexLeTransitive | calculator.go:222 | the byte-wise order is transitive |
| Strings.LexLeAntisymmetric | calculator/utils.go:19 | two names ordered both ways are equal, so a sorted list of distinct names has a single arrangement |
| Strings.SegmentsFromAreSegments | calculator.go:228-238 | every piece the member pattern finds is an upper-case letter followed by non-upper-case letters |
| Strings.Segments | calculator.go:230-233 | the left-to-right matches of `[A-Z][^A-Z]*` that `FindAllString(team, -1)` returns (the same call at calculator.go:266-267); put back together they give the name minus any characters before its first upper-case letter |
| Strings.SegmentsOfConcat | calculator.go:228-238 | a name built from member names splits back into exactly those names, in order |
| Strings.SegmentMembership | calculator.go:265-274 | w is a member of a team name iff w has the member shape and stands somewhere in the name followed by an upper-case letter or by the end; an occurrence of w followed by a lower-case letter does not make w a member at that position |
| Strings.ToLower | calculator.go:196 | `strings.ToLower` on ASCII: same length, no upper-case letter A-Z remains, every other character is kept |
| Strings.FilenameContains2v2 | calculator.go:195-197 | true iff the lower-cased file name contains "2v2" at some position |
| Sorting.SortStable | calculator.go:491-500 | for any total preorder: the array ends sorted, is a permutation of the input, and equally ordered elements keep their relative order |
| Directory.StringInSlice | calculator/utils.go:24-31 | true iff the string is in the slice |
| Directory.ExtendUniqueElements | calculator.go:255-262 | the result starts with slice1; its elements are those of slice1 and slice2; it has no duplicates if slice1 has none |
| Directory.ExtendedProperties | calculator/calculator.go:365-372 | the same three facts for the specification of the extension, for any element type |
| Directory.ExtendedAppend | calculator.go:255-262 | extending by a and then by b is extending by a + b |
| Directory.AppearancesAreTeams | calculator.go:210-224 | the names collected from the home and away sides are exactly the teams that appear in the history |
| Directory.SortStrings | calculator.go:222 | the result is sorted byte-wise, is a permutation of the input, and keeps it free of duplicates |
| Directory.UniqueTeamNames | calculator/utils.go:7-21 | sorted, no duplicates, and t is listed iff t plays in some match (so an empty history gives an empty list) |
| Directory.IndividualInTeam | calculator/calculator.go:388-397 | true iff the individual is one of the member names of the team |
| Directory.MembersOfElements | calculator.go:228-238 | the collected member names are exactly the members of the listed teams |
| Directory.UniqueIndividualNames | calculator/calculator.go:375-385 | sorted, no duplicates, and w is listed iff w is a member of some team that plays in the history |
| Aggregate.Total | calculator/calculator.go:114-124 | a count of matches (games, results, clean sheets, big results) lies between 0 and the number of matches |
| Aggregate.TotalAppend | calculator.go:288-298 | the tally over a + b is the tally over a plus the tally over b |
| Aggregate.GamesPlayedCount | calculator.go:288-298 | the number of matches in which the team is home or away |
| Aggregate.WinCount | calculator.go:301-311 | the number of matches the team won (home side tested first) |
| Aggregate.LossCount | calculator.go:314-324 | the number of matches the team lost |
| Aggregate.DrawCount | calculator.go:327-337 | the number of drawn matches the team played |
| Aggregate.GoalsScored | calculator.go:340-350 | the goals the team scored, summed over its matches |
| Aggregate.GoalsAllowed | calculator.go:353-363 | the goals the team conceded, summed over its matches |
| Aggregate.CleanSheets | calculator.go:366-376 | the number of matches in which the team conceded no goal |
| Aggregate.CleanSheetsAgainst | calculator.go:379-389 | the number of matches in which the team scored no goal |
| Aggregate.BigWinCount | calculator.go:392-405 | the number of wins by at least `margin` goals |
| Aggregate.BigLossCount | calculator.go:408-421 | the number of losses by at least `margin` goals |
| Aggregate.CountsBounded | calculator/calculator.go:218-247 | big wins at most wins, big losses at most losses; wins + draws, losses + draws and both clean-sheet counts at most games |
| Aggregate.ResultsPartitionGames | calculator/calculator.go:127-163 | without self-play, wins + losses + draws equal games played |
| Aggregate.PlayedIffAppears | calculator.go:288-298 | a team has at least one game iff it appears in the history |
| Aggregate.TeamStats | calculator/calculator.go:254-283 | a team's row: rank 0, its own name, and all the bounds between the counts |
| Aggregate.PointsBounded | calculator.go:438 | without self-play, the results add up to the games and 0 <= points <= 3 x games |
| Aggregate.TeamRow | calculator.go:432-453 | the row built from the scans is the team's specified row |
| Aggregate.AbsoluteStats | calculator.go:428-457 | one row per team, sorted by name without duplicates; exactly the teams that appear; each row is that team's tallies with at least one game, points = 3 x wins + draws and goal difference = scored - allowed |
| Normalize.IntegerifyNearest | calculator.go:277-279 | the result is within 0.5 of its argument, and equal to it when the argument is whole |
| Normalize.IntegerifyOdd | calculator/calculator.go:103-105 | rounding is symmetric: -x rounds to minus the rounding of x |
| Normalize.Integerify | calculator.go:277-279 | the nearest integer, halves away from zero: for x >= 0 the result lies in (x - 0.5, x + 0.5], for x < 0 in [x - 0.5, x + 0.5) |
| Normalize.Round | calculator.go:282-285 | rounding to p places moves a value by at most half a unit in the p-th place |
| Normalize.RoundHalfAway | calculator.go:277-285 | a value exactly halfway between two neighbours of p places rounds to the one farther from zero (0.5 to 1, -0.5 to -1) |
| Normalize.RoundMonotone | calculator/calculator.go:108-111 | rounding never reverses the order of two values |
| Normalize.RoundIdempotent | calculator.go:282-285 | rounding an already rounded value changes nothing |
| Normalize.RoundOdd | calculator.go:282-285 | rounding is symmetric about zero |
| Normalize.RoundWithin | calculator.go:282-285 | a value between two whole numbers stays between them once rounded |
| Normalize.PercentBounds | calculator.go:464-487 | a count between 0 and the games, as a rounded percentage, lies between 0 and 100 |
| Normalize.NormalizeRow | calculator.go:464-487 | rank 0 with the same name and games; every percentage of a count within [0, games] lies in [0, 100]; points per game within 0.00005 of the exact quotient |
| Normalize.NormalizeKeepsPpgOrder | calculator/calculator.go:290-313 | two rows ordered by exact points per game keep that order after rounding |
| Normalize.NormalizedStats | calculator/calculator.go:290-313 | one normalized row per absolute row, in the same order |
| Individuals.IndividualTotals | calculator.go:586-610 | an individual's row has rank 0 and the individual's name |
| Individuals.IndividualTotalsStep | calculator.go:565-577 | each team row adds its counts to the individual's totals iff the individual is a member of that team |
| Individuals.Accumulate | calculator.go:566-577 | after adding a row, every key is present, and each key holds its old value plus the row's field |
| Individuals.ExtractIndividualStats | calculator.go:560-579 | the map holds every key when the individual belongs to some team and is empty otherwise; each key reads the sum of that field over the teams the individual belongs to |
| Individuals.AbsoluteStatsByIndividual | calculator.go:586-610 | one row per individual, sorted without duplicates; exactly the members of teams in the history; each row is the sum over that individual's teams; over a team table that covers the history, every row has at least one game |
| Individuals.GamesOfTotals | calculator.go:564 | with no negative game counts, an individual's games are at least those of each team they belong to |
| Individuals.MemberHasGames | calculator.go:586-610 | a member of a team of the history has at least one game over a table in which every team of the history has a row with games |
| Individuals.RowsHaveGames | calculator.go:586-610 | every row of an individual table built over such a team table has at least one game |
| Individuals.IndividualTotalsKeep | calculator.go:560-579 | summing rows keeps points = 3 x wins + draws and goal difference = scored - allowed, the bounds between counts, and results adding up to games |
| Individuals.NoTeamNoStats | calculator.go:560-579 | an individual in no team gets all counts 0 (Go's missing map keys read as 0) |
| Individuals.TotalsPermutation | calculator.go:852-867 | an individual's totals do not depend on the order of the team table |
| Individuals.TotalsIgnoreRank | calculator.go:852-867 | nor on the ranks written into it |
| Individuals.TotalsOrderAndRankFree | calculator.go:852-867 | two team tables with the same rows up to rank and order give the same totals |
| Legacy.AbsoluteStatsByIndividual | calculator/calculator.go:404-458 | the twelve-accumulator version: same name order and membership, and each row is the sum over that individual's teams, with at least one game over a covering team table, as in the newer version |
| Form.Letter | calculator.go:618-634 | the letter of one match for a side is W, D or L |
| Form.ReverseRecordsOrder | calculator.go:200-206 | the history reversed, newest first |
| Form.LettersReversed | calculator.go:614-643 | the letters of the reversed history are the letters of the history, reversed |
| Form.OnSide | calculator.go:647-676 | a team is on a side iff it is that side; an individual iff they are a member of that side's team |
| Form.RepresentLatestForm | calculator.go:614-643 | the form is the letters of the latest min(n, games) matches, newest first, each W, D or L; the same member models representLatestFormSolo (calculator.go:647-676) |
| Form.WindowLength | calculator.go:638-640 | the form has min(n, matches involving the side) letters |
| Form.TeamWindowLength | calculator.go:614-643 | for a team, the form has min(n, games played) letters |
| Form.WindowStartsWithLatest | calculator.go:614-643 | the first letter is the result of the latest match the side took part in |
| Form.LettersAlphabet | calculator.go:618-634 | every letter is W, D or L |
| Form.TeamLettersMatchTotals | calculator.go:614-643 | over the whole history, a team's letters number its games, and its D's number its draws |
| Form.TeamLettersMatchResults | calculator.go:301-324 | without self-play, its W's and L's number its wins and losses |
| Form.WholeHistoryForm | calculator.go:614-643 | with n at least the games played, the form is the team's whole record: length = games, D = draws, and without self-play W = wins and L = losses |
| Form.CountReversed | calculator.go:200-206 | reversing a form keeps the number of each letter |
| Form.FormPpgBounds | calculator.go:709-714 | points per game of a form lie between 0 and 3, before and after rounding |
| Form.TallyLatest | calculator.go:688-704 | the inner loop's games, wins and draws are the length and the W and D counts of the form window |
| Form.LatestFormRow | calculator.go:705-713 | rank 0, the side's name, the window as form, the games considered = form length >= 1, and points per game = (3 W + D) / length rounded to 4 places |
| Form.GetLatestForm | calculator.go:683-720 | one row per team that appears, sorted by name without duplicates, each row the team's latest-form row |
| Form.GetLatestFormSolo | calculator.go:723-760 | one row per individual, sorted without duplicates, each row the individual's latest-form row |
| Ranking.AbsPpg | calculator.go:492-496 | the key the absolute sort compares: (3 x wins + draws) / games played, 0.0 for a row without games; between 0 and 3 for a row whose wins and draws fit in its games |
| Ranking.AbsPpgLeIsTotalPreorder | calculator.go:491-498 | `AbsPpgLe(x, y)`, "x may stay before y", holds iff AbsPpg(x) >= AbsPpg(y), i.e. the source's `less(y, x)` is false; it is a total preorder, as a stable sort needs |
| Ranking.NormPpgLeIsTotalPreorder | calculator.go:505-507 | `NormPpgLe(x, y)` holds iff x's rounded PPG >= y's, i.e. `less(y, x)` is false; a total preorder |
| Ranking.FormPpgLeIsTotalPreorder | calculator.go:514-516 | `FormPpgLe(x, y)` holds iff x's latest PPG >= y's, i.e. `less(y, x)` is false; a total preorder |
| Ranking.AbsPpgLeCrossMultiplied | calculator.go:491-500 | for rows with games, one row may precede another iff (3W + D) x other games >= other (3W + D) x games |
| Ranking.SortAbsStatsByMetric | calculator/calculator.go:326-335 | in place: sorted by points per game from highest, a permutation, stable |
| Ranking.SortNormStatsByMetric | calculator.go:504-509 | in place: sorted by rounded points per game, a permutation, stable |
| Ranking.SortLatestFormByMetric | calculator.go:513-518 | in place: sorted by latest points per game, a permutation, stable |
| Ranking.NormalizedKeepsOrder | calculator/calculator.go:317-322 | a table sorted by exact points per game stays sorted once normalized (the two rankings can still differ among rows whose rounded values tie, see Scenarios.RoundingMergesPpg) |
| Ranking.AttachRankingToAbsStats | calculator.go:523-530 | rank k + 1 at position k, every other field unchanged, and a sorted table stays sorted |
| Ranking.AttachRankingToNormStats | calculator/calculator.go:339-346 | the same for the normalized table |
| Ranking.AttachRankingToLatestForm | calculator.go:545-552 | the same for the latest-form table |
| Ranking.RankedTeamTableGivesSameTotals | calculator.go:850-867 | individuals computed from the sorted, ranked team table get the same totals as from the table first computed |
| Ranking.RankedTableCoversTeams | calculator.go:850-869 | the absolute table, sorted and ranked, still has games in every row and a row for every team of the history, so the individual table built from it has games in every row |
| Scenarios.TwoNil | calculator.go:428-457 | a 2-0: the winner gets 1 game, 3 points, +2, a win and a clean sheet; the loser the mirror image |
| Scenarios.BigResults | calculator.go:392-421 | a 4-0 is a big win and a big loss; a 2-0 is neither |
| Scenarios.SelfPlayBreaksPartition | calculator.go:288-324 | a team playing itself gets 1 game, 1 win and 1 loss |
| Scenarios.TwoSegments | calculator.go:228-238 | a name made of two member names splits into exactly those two |
| Scenarios.AliceBobSegments | calculator.go:265-274 | "AliceBob" has members "Alice" and "Bob"; "Al" is not a member |
| Scenarios.OnBothSidesTotals | calculator.go:586-610 | x on both sides of a 1-1 gets 2 games, 2 draws and 2 points in the individual table |
| Scenarios.OnBothSidesForm | calculator.go:647-676 | in the same match x's form is a single "D", read from the home side |
| Scenarios.RoundingMergesPpg | calculator.go:504-509 | rows with 41/91 and 50/111 points per game differ exactly but both normalize to 0.4505, so the per-game ranking need not follow the absolute one |

## Left out

- Reading the CSV file (`readRawRecordsFromCsv`) and the `calculator/extract.go` helpers are left out. The history is a parameter.
- The CSV writers (`saveAbsToCsv`, `saveNormToCsv`, `saveLatestFormToCsv`) and `ListStringifiedValues` are left out. They are file output and `%g` and `strconv.Itoa` formatting.
- The data-folder listing (`getListOfDataFilenames`), `removeExtension`, `executePipeline`, `main` and the console messages are left out. They are file-system and process plumbing; the lemmas about the order of pipeline steps stand in for them.
- Floating point: the float64 fields and divisions are exact reals. Rounding adds 0.5 with the sign of the value and truncates toward zero, as `integerify` does. The model does not reproduce binary representation error.
- Go `int` is 64 bits; counts and goals are unbounded integers. Overflow would need more than 2^63 goals.
- `math.Abs` on float64 goal margins is integer absolute value, which agrees for every goal count.
- Normalize.NormalizeRow: requires games played > 0. Go would divide by zero and yield NaN or ±Inf. Every row the program normalizes has at least one game: team rows by `Aggregate.AbsoluteStats`, and individual rows by `Individuals.AbsoluteStatsByIndividual` over the sorted, ranked team table, which `Ranking.RankedTableCoversTeams` shows covers the history.
- Normalize.NormalizedStats: requires every row to have games, for the same reason.
- Ranking.SortAbsStatsByMetric: requires every row to have games. Go's float comparison of NaN would not be a preorder, and every table the program sorts has games in every row, for the reason given for Normalize.NormalizeRow.
- Ranking.AbsPpg: a row without games is keyed 0.0. This is used only by lemmas, never on a table the program sorts.
- Form.RepresentLatestForm: requires n >= 1. With n <= 0 the break test `count == n` no longer caps the form at n games (a negative n never stops the loop); the program always passes 10.
- Form.GetLatestForm: requires n >= 1, for the same reason.
- Form.GetLatestFormSolo: requires n >= 1, for the same reason.
- Form.TallyLatest: requires n >= 1, for the same reason.
- `strings.ToLower` is modelled on ASCII letters only. File names are compared character by character, not as UTF-8 bytes.
- The regular expression `[A-Z][^A-Z]*` is replaced by an explicit scan over characters, not UTF-8 runes. Non-ASCII names are outside the model.
- The twelve string keys of the map in `extractIndividualStatsFromTeamStats` are the constructors of a datatype, `Counter`. A missing key reads as 0, as in Go.
- The older `getAbsoluteStatsByIndividual` also appends each matching team row to a local slice, `sliceStatsByIndividual` (calculator/calculator.go:408, 423), that is never read; the model leaves it out.
- The history is an immutable sequence, so "the input is not modified" holds by construction. The in-place `sort.SliceStable` calls are modelled on arrays. The returned slices are modelled as fresh sequences, and aliasing between them is not captured.
