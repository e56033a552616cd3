# Advent of Code 2023 solutions, modelled in Dafny

A model of the Go solutions to days 1–11, 13–16 and 19 of Advent of Code 2023,
together with the two shared helpers: `LoadFile`, which splits a file into lines,
and `FindPrimeFactors`/`FindLCM`. Each puzzle day is one module (`Day01` …
`Day19`). Part 1 and part 2 of a day share that module; where the parts differ
(the joker rule, the expansion factor, reading words as digits, …) the
difference becomes a parameter. Three modules are shared:

- `Outcome` holds the result type. Every `panic` and `log.Fatal` of the
  programs becomes a `Fatal(message)` result rather than a precondition.
  The few preconditions the programs do not impose (rectangular grids for
  days 3, 10 and 16, nonzero inputs to the prime factorisation) are listed
  under "Left out".
- `Text` holds the parts of Go's `strings` and `strconv` the programs use:
  `Split`, `Fields`, `Atoi`, `ParseInt`, prefix and suffix tests.
- `FileUtils` and `NumberUtils` model the `utils` package.

Each day's answer takes the lines that `LoadFile` (day 1: its own copy)
returns; FileUtils.LoadFile models that split of the file's contents on its
own, and no answer member calls it. Each answer ends at the number the
program prints. The members are proved against descriptions that
do not repeat the program's loops:

- a reference definition that the program's loops are proved to compute: the
  first and last digit mentioned (day 1), the largest count per colour (day 2),
  the numbers touching a symbol (day 3), the winning numbers (day 4), the
  range a seed falls in (day 5), the winning hold times (day 6), the
  difference recursion (day 9), the widened galaxy positions (day 11), and
  the hash and the last operation on a label (day 15);
- a path or reachability characterisation (days 8 and 16), and shortest
  walks through the pipes (day 10);
- a round trip between a parser and the text it reads (days 10, 13, 15, 16
  and 19);
- an order or invariant that an operation keeps: a strict total order on hands
  and a sorted insertion (day 7), the breadth-first search invariant (day 10),
  symmetry of a mirror (day 13), the tilt invariants and the period of the
  spin cycle (day 14), and lenses filed by their label's hash (day 15).

The member that computes a day's answer states when the program panics and
ties the printed number to these descriptions: a sum of per-line or
per-pattern values, a minimum over the seeds, the winnings of hands sorted by
the proved order. Where it states less, "Left out" says so.

## Model

| member | source | states |
|---|---|---|
| FileUtils.LoadFile | utils/fileutils.go:11-28 | Fails exactly when the contents are empty. Otherwise returns at least one line. |
| FileUtils.LoadFileLenient | 01/part1.go:12-25 | The day-1 copy returns no lines exactly for empty contents. It agrees with `LoadFile` everywhere else. |
| FileUtils.SplitLinesMeaning | utils/fileutils.go:17-21 | No line holds a newline. There is one line per newline, plus one for an unterminated last line. Joining the lines with newlines (and the final newline, if any) gives back the contents. |
| FileUtils.LastPieceEmpty | utils/fileutils.go:18 | The last piece of the split is empty exactly when the text is empty or ends with the separator. |
| FileUtils.LoadFileEdgeCases | utils/fileutils.go:17-25 | Empty contents are fatal. A lone newline is one empty line. |
| NumberUtils.FindPrimeFactors | utils/numberutils.go:5-28 | For a positive number: the factors are prime, in non-decreasing order, multiply back to the number, and are exactly its prime divisors. For a negative number only factors of two come out. |
| NumberUtils.AddKeys | utils/numberutils.go:35-37 | The factor map gains each factor as a key, and the keys stay distinct. |
| NumberUtils.FindLCM | utils/numberutils.go:31-45 | The result is at least 1. For positive inputs it is the product of the distinct primes dividing some input. |
| NumberUtils.PrimeDivisorsOfAllMeaning | utils/numberutils.go:33-38 | A prime is collected exactly when it divides some input. |
| NumberUtils.DistinctPrimeProductDivisible | utils/numberutils.go:39-42 | Every prime factor of every input divides the result. |
| NumberUtils.SameElementsSameProduct | utils/numberutils.go:31-45 | The result depends only on which numbers occur. Neither their order nor repetitions change it, matching the unordered map the program multiplies over. |
| NumberUtils.DistinctPrimeProductExample | utils/numberutils.go:31-45 | For [2, 3, 4] the result is 6, which 4 does not divide. So the result is not the least common multiple. |
| Outcome.ParseEach | 07/part1/part1.go:125-132 | The items are read in order: the result succeeds exactly when every read does, and then holds one value per item, each that item's read. |
| Outcome.ReadChain | 05/part1/part1.go:55-131 | n reads one after another succeed when every read at its chained position does, fail only when one of them fails, and give one value per read, each that read's value. |
| Outcome.SumEach | 09/part2.go:73-81 | The running sum succeeds exactly when every item's value does. A failure carries the complaint of the first failing item. |
| Outcome.SumEachIsSum | 09/part2.go:73-81 | A successful running sum is the sum of the items' values. |
| Outcome.SumEachFrom | 19/part1/part1.go:199-202 | Summing from index `start` on succeeds exactly when those items' values do, and gives the sum of those values. |
| Outcome.SumEachAppend | 19/part1/part1.go:199-202 | Summing two runs of items one after the other adds up. |
| Text.SplitOn | 19/part1/part1.go:59 | `strings.Split` on a non-empty separator always gives at least one piece. |
| Text.JoinSplit | 19/part1/part1.go:72-75 | Joining the pieces with the separator gives back the text, so splitting loses nothing. |
| Text.SplitOnChar | 15/part1/part1.go:26 | Splitting on a character gives one more piece than there are occurrences of it, and no piece holds it. |
| Text.SplitOnFirst | 19/part1/part1.go:72-73 | The first piece is the text before the first occurrence of the character. The remaining pieces split the text after it, and without an occurrence the text is the only piece. |
| Text.FirstPiece | 19/part1/part1.go:72-73 | The text p, followed by c and more, splits into p and the split of the rest, when p holds no c. |
| Text.SplitJoin | 15/part1/part1.go:26 | Splitting a join on a character no piece holds gives the pieces back. |
| Text.CountChar | 15/part1/part1.go:26 | The count is at most the length of the text, and zero exactly when the character is absent. |
| Text.Fields | 08/part1/part1.go:15 | `strings.Fields` yields non-empty fields with no white space in them. |
| Text.ParseDecimal | 05/part1/part1.go:31-34 | `strconv.ParseInt` accepts values inside the 64-bit range only. Digit strings read as their decimal value, and empty text is malformed, as is anything but an optional sign followed by digits. An out-of-range value reports the bound it passed. |
| Text.WellFormedNumeral | 05/part1/part1.go:31-34 | Whatever is not malformed is an optional sign followed by digits. |
| Text.ParseNumeral | 05/part1/part1.go:31-34 | An optional sign followed by at least one digit parses to its value when that fits in 64 bits. Otherwise it is out of range, clamped at the bound on the value's side. |
| Text.ParseInt | 02/part1/part1.go:35-38 | A read succeeds exactly on an optional sign followed by at least one digit whose value fits in 64 bits, and gives that value. |
| Text.ParseIntIgnoringError | 07/part1/part1.go:129 | With the error ignored, malformed text gives 0, well-formed text its value, and the result stays in the 64-bit range. |
| Text.ParseDigits | 05/part1/part1.go:31-34 | A digit string whose value fits in 64 bits reads as that value. |
| Day01.HasSubstringAtIndex | 01/part2.go:11-27 | True exactly when the word occurs in the line at that index, including the too-short-remainder case. |
| Day01.SpelledDigitAt | 01/part2.go:46-64 | Finds the first of "one" … "nine", in that order, written at the index. None exactly when none is. |
| Day01.ScanSpelledDigit | 01/part2.go:46-64 | The chain of nine substring tests finds the same digit as the ordered search. |
| Day01.ValueAt | 01/part2.go:35-64 | A digit character is read as its value. Under the part-1 rule nothing else is read. |
| Day01.MentionedEmpty | 01/part2.go:34-65 | No digit is collected exactly when no index of the line mentions one. |
| Day01.MentionedFirst | 01/part2.go:74-77 | The first collected digit comes from the first index that mentions a digit. |
| Day01.MentionedLast | 01/part2.go:74-78 | The last collected digit comes from the last index that mentions a digit. |
| Day01.CalibrationValue | 01/part2.go:67-82 | The value is a two-digit number at most, never above 99. |
| Day01.CalibrationFromMentions | 01/part2.go:67-82 | The value is 0 when no index of the line mentions a digit. Otherwise it is ten times the digit at the first mentioning index plus the digit at the last. |
| Day01.CollectDigits | 01/part2.go:32-65 | The scanning loop collects, in index order, exactly the digits the line mentions. |
| Day01.ReadAt | 01/part2.go:35-64 | One pass of the loop body reads the same digit as the reading rule at that index: a digit character first, then the spelled-digit chain under the part 2 rule. |
| Day01.ExtractCalibratedValue | 01/part1.go:27-54 | Part 1's scan yields the calibration value under the digits-only rule. It is 0 for a line without digits. |
| Day01.ExtractCalibratedValueWithWords | 01/part2.go:31-83 | Part 2's scan yields the calibration value under the digits-and-words rule. |
| Day01.TotalCalibration | 01/part2.go:85-95 | The sum over the lines is at most 99 per line. |
| Day01.DigitsReadByBothRules | 01/part2.go:38-42 | At a digit character both rules read the same value, so a spelled word never hides a digit. |
| Day01.MentionedDigitsOnly | 01/part1.go:27-54 | Part 1 collects exactly the digit characters of the line, in order. |
| Day01.NonDigitIrrelevant | 01/part1.go:27-54 | Inserting a non-digit character does not change the part-1 value. |
| Day01.SingleDigit | 01/part2.go:73-75 | A line that mentions exactly one digit d has the value 11·d. |
| Day01.SpelledShape | 01/part2.go:46-64 | Every spelled digit has at least three letters and starts with one of "otfsen". |
| Day01.NoSpelledDigitAt | 01/part2.go:13-15 | No spelled digit is found at an index whose letter starts none of them, or that is too close to the end. |
| Day01.DigitsOnlyExamples | 01/part1.go:27-54 | "treb7uchet" gives 77 and "abc" gives 0. |
| Day01.OverlappingWordsExample | 01/part2.go:29-30 | Spelled digits may share letters: "1nineight" gives 18. |
| Day02.ColourOf | 02/part1/part1.go:40-48 | An entry is red exactly when it contains "red". It is green when it contains "green" but not "red", and blue when it contains only "blue". Any other entry is fatal. |
| Day02.ParseEntry | 02/part1/part1.go:34-48 | An entry is read exactly when its count parses and it names a colour. A bad count is reported before a bad colour. |
| Day02.ApplyEntriesMeaning | 02/part1/part1.go:31-49 | A subset's entries succeed exactly when each is well formed. Each colour then holds the count of the last entry naming it, and colours no entry names keep their value. |
| Day02.ParseSubset | 02/part1/part1.go:29-51 | A subset parses exactly when each of its ", "-separated entries is well formed. |
| Day02.LastCountForCons | 02/part1/part1.go:33-49 | A later entry for a colour overrides an earlier one. |
| Day02.UnmentionedColourIsZero | 02/part1/part1.go:29-49 | A colour that no entry of a subset mentions stays zero. |
| Day02.UnnamedColour | 02/part1/part1.go:33-49 | Entries that never name a colour leave its count as it was. |
| Day02.ParseSubsets | 02/part1/part1.go:27-52 | Succeeds exactly when every subset parses. The records come in subset order, one per subset. |
| Day02.Subsets | 02/part1/part1.go:25-27 | A record without ": " fails, because the program indexes past the end of the split. |
| Day02.ParseGameData | 02/part1/part1.go:21-55 | A record without ": " fails with that error. A parsed game has one record per subset. |
| Day02.ParseGameDataMeaning | 02/part1/part1.go:21-55 | A game's data parses exactly when it has ": " and every subset parses. Then there is one record per subset, each the parse of its subset. |
| Day02.IsPossible | 02/part1/part1.go:71-80 | The scan with early exit reports a game possible exactly when every subset fits within 12 red, 13 green and 14 blue. |
| Day02.PossibleGameSum | 02/part1/part1.go:57-88 | Succeeds exactly when every line parses. The answer is the sum of the 1-based numbers of the possible games, so it lies between 0 and n(n+1)/2. |
| Day02.PossibleSum | 02/part1/part1.go:68-85 | With any line parser, the loop succeeds exactly when every line parses, and adds the 1-based numbers of the possible games. |
| Day02.PossibleNumbersStep | 02/part1/part1.go:83-85 | One more line adds its number when its game is possible, and nothing otherwise. |
| Day02.MaxOfMeaning | 02/part2.go:68-74 | The per-colour maximum bounds every subset's count and is either zero or attained by some subset. |
| Day02.Maxima | 02/part2.go:68-74 | The maxima are the per-colour maxima, and every subset fits in them: they are the fewest cubes that make the game possible. |
| Day02.FewestIsMaxima | 02/part2.go:64-74 | Any fewest-cubes record, one every subset fits and whose counts are zero or shown by some subset, is the per-colour maxima. |
| Day02.Power | 02/part2.go:64-78 | The power is the product red·green·blue of the fewest cubes that make the game possible, so it is never negative. |
| Day02.PowerZero | 02/part2.go:68-78 | A colour that no subset shows a positive count of makes the power zero. |
| Day02.PowerSum | 02/part2.go:57-84 | Succeeds exactly when every line parses. The answer is the sum of the games' powers, in line order. |
| Day02.PowerSumWith | 02/part2.go:57-84 | With any line parser, the loop succeeds exactly when every line parses, and adds the games' powers. |
| Day02.PowersStep | 02/part2.go:78-80 | One more line adds its game's power. |
| Day03.RunStart | 03/part1/part1.go:44-55 | The start of the digit run through a cell: every cell from it up to the cell is a digit, and the cell before it is not, or it is the first column. |
| Day03.RunEnd | 03/part1/part1.go:57-65 | One past the end of the digit run through a cell: every cell from the cell up to it is a digit, and it is the row's end or not a digit. |
| Day03.RunStartUnique | 03/part1/part1.go:44-55 | Any start with those properties is the run start. |
| Day03.RunEndUnique | 03/part1/part1.go:57-65 | Any end with those properties is the run end. |
| Day03.Blank | 03/part1/part1.go:16-20 | Overwriting keeps the row's length and puts '.' in exactly the cells of the range. |
| Day03.TakeLeft | 03/part1/part1.go:42-55 | The leftward scan stops at the run start. Its value is the decimal value of the digits taken, and exactly those cells are blanked. |
| Day03.TakeRight | 03/part1/part1.go:57-65 | The rightward scan extends the value to the whole run's decimal value and blanks the whole run. |
| Day03.ScanLeft | 03/part1/part1.go:44-55 | The leftward loop stops at the first non-digit or the row's start. Everything it passed is digits, their decimal value is accumulated and exactly those cells are blanked. |
| Day03.ScanRight | 03/part1/part1.go:57-65 | The rightward loop stops at the first non-digit or the row's end. It extends the value by the digits passed and blanks them. |
| Day03.ExtractFromLine | 03/part1/part1.go:37-68 | Within one row, scanned to the row's end: a non-digit cell yields 0 and changes nothing. A digit cell yields the decimal value of its whole run, which is blanked. |
| Day03.ExtractNumericalValue | 03/part1/part1.go:37-68 | On a grid whose rows are all as wide as the first, taking a number gives the run's value. Only the cell's row changes. |
| Day03.NoDoubleCounting | 03/part1/part1.go:31-33 | After a number is taken, taking again from any cell of its run yields 0, so no number is counted twice. |
| Day03.ExtractedBlanksDigits | 03/part1/part1.go:16-20 | Taking a number only turns digit cells into '.'. The grid's shape and every symbol stay put. |
| Day03.OnlyDigitsBlankedTransitive | 03/part1/part1.go:89 | The property composes over successive extractions. |
| Day03.Neighbourhood | 03/part1/part1.go:83-88 | The 3×3 neighbourhood, clipped at the edges, lies inside the grid. |
| Day03.RowCellsMeaning | 03/part1/part1.go:88-90 | One row of the scan holds exactly the columns of its range inside the grid, left to right. |
| Day03.CellsMeaning | 03/part1/part1.go:87-91 | The scan holds exactly the cells of its row and column ranges inside the grid, each once, in row-major order. |
| Day03.NeighbourhoodMeaning | 03/part1/part1.go:83-91 | The cells visited around a symbol are exactly the grid cells at most one step away in each direction, each once, row by row from the top and left to right. |
| Day03.TakeAll | 03/part1/part1.go:87-91 | Taking at several cells keeps the grid rectangular and only blanks digits. |
| Day03.TakeAllAppend | 03/part1/part1.go:87-91 | Taking from two lists of cells in turn is taking from their concatenation. The second list works on the grid the first left. |
| Day03.TakeAllNoDigits | 03/part1/part1.go:38-40 | Taking from cells that hold no digit yields 0 and changes nothing. |
| Day03.LocalSum | 03/part1/part1.go:74-94 | Summing a symbol's neighbours keeps the grid rectangular and only blanks digits. |
| Day03.ProcessRowFrom | 03/part1/part1.go:96-105 | Each symbol of the row adds its local sum on the grid the earlier symbols left. Only digits are blanked. |
| Day03.ProcessMatrixFrom | 03/part1/part1.go:107-114 | The row sums are taken top to bottom on the updated grid. Only digits are blanked. |
| Day03.SpecialCharacterExamples | 03/part1/part1_test.go:16-23 | '*', '#', '@' and '^' are symbols. '.' and the digits are not. |
| Day03.LocalSumBasic | 03/part1/part1_test.go:46-57 | The "Basic test" grid sums to 11: the 1 above the symbol and the 10 below. |
| Day03.LocalSumNoNumber | 03/part1/part1_test.go:111-122 | With no number next to the symbol the local sum is 0. |
| Day03.BasicNeighbourhood | 03/part1/part1.go:83-91 | The centre of a 3×3 grid sees all nine cells in row-major order. |
| Day03.BasicTakeTop | 03/part1/part1.go:37-68 | Taking at the '1' of the basic grid yields 1 and blanks it. |
| Day03.BasicTakeBottom | 03/part1/part1.go:37-68 | Taking at the '1' of "10" yields 10 and blanks both digits. |
| Day04.Score | 04/part1/part1.go:10-17 | The score is 0 exactly when there is no win, and 1 for a single win. |
| Day04.ScoreDoubles | 04/part1/part1.go:15-16 | Each further win doubles a non-zero score, as the shift `1 << (wins - 1)` does. |
| Day04.WinCountMeaning | 04/part1/part1.go:26-31 | The win count is the number of card positions holding a non-empty token that is among the winning tokens. |
| Day04.EmptyTokensIgnored | 04/part1/part1.go:28 | The empty tokens that padded numbers leave after the split never win, wherever they sit. |
| Day04.CountWins | 04/part1/part1.go:26-31 | The loop counts exactly the winning positions. |
| Day04.Tokens | 04/part1/part1.go:20-24 | A line without ": " after the label, or without '|', is fatal. Otherwise it yields the space-split card and winning tokens. |
| Day04.RoundWins | 04/part2.go:15-26 | A line's win count exists exactly when its tokens do. |
| Day04.RoundScore | 04/part1/part1.go:19-34 | The line's score is the score of its win count, or fatal with the line. |
| Day04.NoCommonTokenScoresZero | 04/part1/part1.go:10-13 | A card sharing no token with the winning numbers scores 0. |
| Day04.TotalPoints | 04/part1/part1.go:36-44 | Succeeds exactly when every line scores. The total is at least the last line's score. |
| Day04.InitialCards | 04/part2.go:50-54 | Index 0 holds 0 and every card 1..n starts with one copy. |
| Day04.Propagated | 04/part2.go:28-41 | One round keeps the array's length and never lowers a count. It leaves the round's own card and all earlier ones untouched. |
| Day04.Propagate | 04/part2.go:28-41 | The loop with its early exit adds the round's copies to exactly the next `wins` cards that exist. |
| Day04.CardsAfter | 04/part2.go:56-58 | After any number of rounds, index 0 still holds 0 and every real card is held at least once. |
| Day04.CountFinalAfterOwnRound | 04/part2.go:28-41 | Once round j has run, card j's count is final: later rounds only add to later cards. |
| Day04.SumAtLeastOnes | 04/part2.go:60-63 | Counts that are all at least 1 sum to at least their number. |
| Day04.AllFinal | 04/part2.go:56-63 | After all rounds the array holds 0 at index 0 followed by each card's count as it stood after its own round. |
| Day04.FinalCountAt | 04/part2.go:28-41 | Card j's count after all rounds is its count after round j. |
| Day04.AllWins | 04/part2.go:56-58 | The win counts of all lines, in order, or fatal when any line is malformed. |
| Day04.TotalScratchcards | 04/part2.go:44-66 | Succeeds exactly when every line is well formed. The answer is the sum of every card's count as it stands once its own round has run, so at least one card is held per line. |
| Day05.ParseLine | 05/part2.go:38-61 | A line parses exactly when it splits into three fields that are 64-bit decimals. The fields are, in order, dest, source and range. |
| Day05.SectionStop | 05/part1/part1.go:56-65 | A table is read up to the first blank line after its start, or to the end of the input. |
| Day05.ParseLines | 05/part1/part1.go:63-64 | A table parses exactly when every line does. Its entries are the lines' parses, in line order. |
| Day05.Insert | 05/part1/part1.go:133-135 | Inserting into a table sorted by source keeps it sorted and adds exactly the entry. |
| Day05.SortBySource | 05/part1/part1.go:133-153 | The sort returns the same entries as a multiset, sorted by source. |
| Day05.ReadTables | 05/part1/part1.go:55-131 | Fails only when some section has a line that does not parse, and succeeds when every section parses. On success table k is the k-th section's entries sorted by source. |
| Day05.InitializeMaps | 05/part1/part1.go:51-154 | The seven tables read from line 3 on. Fails only when some section fails, succeeds when all parse, and table k is the k-th section sorted by source. |
| Day05.Candidate | 05/part2.go:181-188 | The scan settles on the last entry whose source is at most the number. The next entry, if any, starts beyond it. |
| Day05.CandidateIsFirstExceeding | 05/part2.go:181-188 | The candidate is the only index with those two properties. |
| Day05.CalculateValue | 05/part2.go:172-196 | An empty table is fatal. Below the first source or past the last entry's end the number is unchanged. Otherwise the result is the number itself or its shift by an entry that covers it. |
| Day05.Lookup | 05/part2.go:172-196 | The loop with its early exit computes the same value. |
| Day05.CalculateValueMeaning | 05/part2.go:12-19 | On a sorted table of disjoint entries, a number covered by an entry is shifted by that entry's offset. A number no entry covers is unchanged. |
| Day05.Location | 05/part2.go:198-208 | The number is pushed through the tables in order; no tables leave it unchanged. |
| Day05.LocationOfIdentityTables | 05/part2.go:198-208 | Tables whose entries cover nothing leave every number unchanged. |
| Day05.Seeds | 05/part1/part1.go:199-201 | One seed per field after the label. A field that does not parse reads as 0, as the ignored error leaves it. |
| Day05.MinLocation | 05/part1/part1.go:198-204 | The result is at most the largest 64-bit value and at most every seed's location. It is either that start value or some seed's location. |
| Day05.MinOf | 05/part1/part1.go:198-204 | The minimum succeeds exactly when every seed has a location. It is at most the largest 64-bit value and every location, and is that value or one of the locations. |
| Day05.LowestLocation | 05/part1/part1.go:194-207 | Part 1 succeeds exactly when there is a first line, the tables read and every seed of the first line has a location. The answer is the minimum over those seeds. |
| Day05.RangeMin | 05/part2.go:219-222 | The minimum over a seed range is at most the start value and at most the location of every seed in the range. |
| Day05.RangeMinAttained | 05/part2.go:219-222 | That minimum is the start value or the location of a visited seed. |
| Day05.SeedPairs | 05/part2.go:216-218 | The seed fields are read two at a time. An odd field left over is an index out of range. |
| Day05.PairsMin | 05/part2.go:216-223 | Succeeds exactly when every seed of every range has a location. The minimum is at most the starting value and at most every such location. |
| Day05.PairsMinAttained | 05/part2.go:216-223 | The minimum over the ranges is the starting value or the location of a seed of some range. |
| Day05.LowestRangeLocation | 05/part2.go:210-226 | Part 2 succeeds exactly when there is a first line, the tables and the seed pairs read, and every seed of every range has a location. The answer is at most every such location and is one of them, or the largest 64-bit value. |
| Day05.ExampleLookups | 05/part2.go:172-196 | With the example's seed-to-soil table, 79 maps to 81, 14 to 14, 99 to 51 and 100 to 100. |
| Day06.DistanceSymmetric | 06/part1/part1.go:12-15 | Charging for c or for T − c goes equally far. |
| Day06.WinsBelow | 06/part1/part1.go:29-34 | Among 1 .. n − 1 there are at most n − 1 winning charge times. |
| Day06.CountWins | 06/part1/part1.go:29-34 | The loop counts the charge times 1 .. T − 1 that beat the record. There are at most T − 1 of them. |
| Day06.WinsBelowMeaning | 06/part1/part1.go:29-34 | The count is the size of the set of charge times that beat the record. |
| Day06.WinningTimesSymmetric | 06/part1/part1.go:12-15 | The winning times are symmetric about the middle of the race. |
| Day06.Races | 06/part1/part1.go:19-26 | Times and records are paired by position, after the labels. Too few lines, a line without fields, or fewer records than times is an index out of range. Unparsable fields read as 0. |
| Day06.PairUp | 06/part1/part1.go:19-26 | The race list pairs the k-th time after the label with the k-th record after it, one race per time. |
| Day06.WinCounts | 06/part1/part1.go:24-35 | One win count per race, in order. |
| Day06.ProductWithZero | 06/part1/part1.go:37-40 | A race nobody can win makes the product 0. |
| Day06.WinProduct | 06/part1/part1.go:17-43 | Part 1's answer is the product of the races' win counts, and 1 when there are no races. It fails exactly when reading the races fails. |
| Day06.Kerned | 06/part2.go:19-20 | Part 2 reads the fields after the label glued together. A line without fields is an index out of range. |
| Day06.LongRaceWins | 06/part2.go:17-33 | Part 2 succeeds exactly when there are two lines and each has a field. The answer is the number of winning charge times of the one long race. |
| Day06.ExampleRace | 06/part1/part1.go:24-35 | A 7 ms race against a 9 mm record is won by charging 2, 3, 4 or 5 ms. |
| Day07.CountSplit | 07/part1/part1.go:47-52 | The counts of two cards and of all others add up to the hand's length. No other card occurs exactly when every card is one of the two. |
| Day07.CountPositive | 07/part1/part1.go:47-52 | A card has a map entry exactly when it occurs. It fills the hand exactly when every card is it. |
| Day07.CharsBound | 07/part1/part1.go:47-52 | A hand has no more distinct cards than cards. |
| Day07.DistinctBound | 07/part1/part1.go:47-52 | A card occurring n times leaves room for at most \|s\| − n + 1 distinct cards. |
| Day07.CharsWithin | 07/part1/part1.go:47-52 | Cards that are all a or b make at most those two distinct cards. |
| Day07.PairCounts | 07/part1/part1.go:66-68 | Two cards that fill the hand are all its distinct cards. Two distinct cards that are all of them fill it. |
| Day07.Classify | 07/part1/part1.go:39-82 | Only hands of exactly five cards are classified. Others panic. |
| Day07.OneDistinct | 07/part1/part1.go:54-57 | A hand with one distinct card holds nothing else. |
| Day07.FiveOfAKindByCounts | 07/part1/part1.go:54-57 | A five-card hand is five of a kind exactly when one card occurs five times. |
| Day07.HighCardByCounts | 07/part1/part1.go:58-61 | A five-card hand is a high card exactly when every card occurs once. |
| Day07.PigeonholeRepeat | 07/part1/part1.go:58-81 | Fewer distinct cards than cards means some card repeats. |
| Day07.Wildcard | 07/part2.go:49-117 | No jokers keep the type and five jokers make five of a kind. One to four jokers strictly raise it. The upgrade never lowers the type. |
| Day07.ClassifyWithJokers | 07/part2.go:122-173 | A hand of other than five cards panics. Jokers never lower the type the hand has when 'J' is an ordinary card. |
| Day07.JokerTableTotal | 07/part2.go:49-117 | Every five-card hand is classified: the joker count never falls outside the upgrade table for the hand's base type. |
| Day07.CardValue | 07/part2.go:175-194 | A card has a value exactly when it is one of the thirteen labels. Anything else panics. |
| Day07.CardValueOrder | 07/part1/part1.go:84-103 | Under part 1's rules each label is worth its position plus two, so the values rise strictly along "23456789TJQKA". Part 2 moves only the joker, below every other card. |
| Day07.CardValueInjective | 07/part2.go:175-194 | Different valid cards have different values under both rules. |
| Day07.SortValueInjective | 07/part2.go:175-194 | Different characters sort differently: valid cards by their values, any other character by a negative stand-in of its own. |
| Day07.Values | 07/part2.go:203-206 | The sort value of each card of a hand, in order. On a label it is the card's value. |
| Day07.CompareCardsIsLex | 07/part2.go:203-212 | When the card loop answers, the answer is the lexicographic order of the card values. Identical remaining cards panic. On valid cards only they panic. |
| Day07.CompareCardsSymmetric | 07/part2.go:203-212 | The card loop panics on a pair exactly when it panics on the pair swapped. |
| Day07.CompareHandsByKey | 07/part2.go:198-213 | On any five-card hands, an answer of `compareHands` is the lexicographic order of (type rank, card values). Equal keys panic. A pair panics exactly when the pair swapped does. |
| Day07.CompareCardsFromStart | 07/part2.go:203-212 | From the first card: a panic exactly on identical cards, and otherwise the lexicographic order of the values. |
| Day07.CompareHandsIsLex | 07/part2.go:198-213 | On valid hands the comparison panics exactly on identical hands. Otherwise it is the lexicographic order of (type rank, card values). |
| Day07.CompareSameKind | 07/part2.go:203-212 | For hands of one type the comparison falls through to the cards. |
| Day07.KeysAgreeOnKind | 07/part2.go:199-201 | Keys of hands of one type compare as their card values do. |
| Day07.LexShift | 07/part2.go:199-212 | Keys that agree on the type compare as the rest. |
| Day07.LexAsymmetric | 07/part2.go:198-213 | The lexicographic order is asymmetric. |
| Day07.LexTotal | 07/part2.go:198-213 | Different keys are ordered one way or the other. |
| Day07.LexTransitive | 07/part2.go:198-213 | The lexicographic order is transitive. |
| Day07.KeyInjective | 07/part2.go:198-213 | Five-card hands are different exactly when their keys are. |
| Day07.CompareHandsStrictTotalOrder | 07/part1/part1.go:105-120 | On valid hands "loses to" is a strict total order. It is irreflexive, because comparing a hand with itself panics. It is asymmetric, total on hands that differ in type or cards, and transitive. |
| Day07.InsertHand | 07/part1/part1.go:134-136 | Inserting a hand yields the old hands plus it, as a multiset. |
| Day07.PrependSorted | 07/part1/part1.go:134-136 | A hand below every hand of a sorted list can go in front. |
| Day07.InsertHandSorted | 07/part1/part1.go:134-136 | Inserting a hand whose key is new into sorted hands keeps them sorted. |
| Day07.InsertAfterFirst | 07/part1/part1.go:134-136 | The same holds when the new hand goes after the first hand. |
| Day07.SortHands | 07/part1/part1.go:134-136 | The sort returns a permutation of the hands. |
| Day07.SortHandsSorted | 07/part2.go:228-231 | Hands with pairwise different keys come out sorted from weakest to strongest. |
| Day07.ParseHand | 07/part2.go:220-224 | A line gives a hand exactly when it has two fields and the first classifies under the rules; the hand's type is that classification. The cards are the first field and an unparsable bid reads as 0. |
| Day07.ParseHands | 07/part1/part1.go:125-132 | One hand per line, in order, or the first failure. |
| Day07.CompareWithEach | 07/part2.go:229-231 | Comparing one hand with each of the others succeeds exactly when no comparison panics. |
| Day07.ComparePairs | 07/part2.go:229-231 | Comparing every pair of hands succeeds exactly when no pair makes `compareHands` panic. |
| Day07.SortedComparable | 07/part2.go:228-231 | When no pair of hands panics, the sorted hands lose, by `compareHands`, to every hand after them. |
| Day07.TotalWinnings | 07/part2.go:215-239 | An answer exists exactly when every line parses and no pair of hands makes `compareHands` panic. A pair panics when the hands are identical or when the card loop reaches a character outside the labels. The answer is the sum of rank × bid over a permutation of the hands in which each loses to every later one. |
| Day07.ExampleOnePair | 07/part1/part1.go:39-82 | "32T3K" is one pair. |
| Day07.ExampleThreeWithJoker | 07/part2.go:122-173 | "T55J5" is three of a kind, and its joker makes it four of a kind. |
| Day08.ParseNode | 08/part2.go:23-37 | A line parses exactly when it has four fields, the third at least two characters long and the fourth long enough. The left name is the third field without its brackets. The right name is the fourth field cut to the left name's length. The stop flags record whether each name ends in 'Z'. |
| Day08.FieldsOfNodeLine | 08/part2.go:24 | A well-formed line "a = (b, c)" has the four fields a, "=", "(b," and "c)". |
| Day08.ParseNodeOfLine | 08/part2.go:23-37 | A well-formed line with equally long names is read back into its parts. |
| Day08.ExampleNode | 08/part1/part1.go:14-25 | "AAA = (BBB, CCC)" reads as AAA with neighbours BBB and CCC. |
| Day08.KeysSnoc | 08/part1/part1.go:33-36 | Each further line adds its name to the defined names. |
| Day08.ParseMap | 08/part1/part1.go:31-36 | The map is built exactly when every line parses, and all its stop flags are consistent. |
| Day08.ParseMapMeaning | 08/part1/part1.go:24 | The map holds exactly the names the lines define. A later line for a name overwrites an earlier one. |
| Day08.Lookup | 08/part1/part1.go:45 | A name the map lacks reads as Go's zero element. |
| Day08.Step | 08/part1/part1.go:44-54 | 'L' goes to the left neighbour and 'R' to the right one, each with its stop flag. Any other instruction panics. |
| Day08.Follow | 08/part1/part1.go:41-66 | The step loop always ends by arriving, panicking or running out of fuel, never by a lack of instructions. |
| Day08.StopFlagMeansEndsInZ | 08/part2.go:33-34 | In a map built by the parser, a step's stop flag says whether the node reached ends in 'Z'. |
| Day08.NextIndex | 08/part1/part1.go:61-65 | The wrap-around of the instruction index is the step count modulo the number of instructions. |
| Day08.FollowSound | 08/part1/part1.go:41-66 | When the loop ends, it ends after the first step that meets the goal, within the fuel. |
| Day08.FollowComplete | 08/part1/part1.go:41-66 | If the first step meeting the goal lies within the fuel, the loop ends exactly there. |
| Day08.WalkFrom | 08/part1/part1.go:38-41 | Without instructions the loop never runs. |
| Day08.WalkMeaning | 08/part1/part1.go:41-66 | With instructions, a walk arrives after s steps exactly when step s is the first to meet the goal and the fuel reaches it. |
| Day08.FlagsMatchNames | 08/part2.go:87-101 | Walking by the stop flags is walking to the first name ending in 'Z'. |
| Day08.MoreFuel | 08/part1/part1.go:41-66 | More fuel changes nothing about a walk that arrived. |
| Day08.Network | 08/part1/part1.go:28-36 | The instructions are line 0 and the network comes from lines 2 on. It fails exactly when there are no lines or a node line does not parse. |
| Day08.StepsToZZZ | 08/part1/part1.go:27-69 | Part 1 is the walk from AAA that stops on reaching ZZZ, or the parser's panic. |
| Day08.StartingNodes | 08/part2.go:39-49 | Succeeds exactly when no line is shorter than three characters. The result holds exactly the three-character prefixes that end in 'A'; their order and multiplicity are stated by StartingNodesConcat. |
| Day08.StartingNodesSnoc | 08/part2.go:41-46 | One more line appends its three-character name exactly when the name ends in 'A'. |
| Day08.StartingNodesConcat | 08/part2.go:39-49 | The starts of two runs of lines are those of the first run followed by those of the second, so the starts keep file order and repeats. |
| Day08.PathCounts | 08/part2.go:68-112 | With instructions, the counts exist exactly when every start's walk by the stop flags arrives. Each count is then that walk's step count, and every count is positive. Without instructions no count is recorded. |
| Day08.PathCountsStuck | 08/part2.go:68-112 | The first start whose walk does not arrive decides: the counts fail exactly when that walk panics, and are missing exactly when it runs out of fuel. |
| Day08.FirstStuckGrows | 08/part2.go:68-112 | Adding a start keeps the first stuck walk of the earlier starts. The new walk is the first stuck one only when all earlier walks arrived. |
| Day08.StepsForAllPaths | 08/part2.go:55-116 | Part 2 succeeds exactly when the network and the starting nodes read and no walk panics. It has a number exactly when every walk arrives, and that number is `FindLCM` of the path counts: the product of the distinct primes dividing them, at least 1. |
| Day09.CalculateSlope | 09/part1/part1.go:15-33 | A sequence shorter than two panics. Otherwise the result holds the differences of neighbours, and the flag is set exactly when all of them are zero. |
| Day09.SlopeTree | 09/part1/part1.go:43-55 | The tree starts with the sequence, and each row is the differences of the row before. The last row has at least two elements and all-zero differences. A sequence too short to settle panics. |
| Day09.NextValue | 09/part1/part1.go:36-65 | A sequence of fewer than two numbers panics. |
| Day09.NextValueRecursive | 09/part1/part1.go:57-62 | The program's fold is the textbook recursion. A sequence with all-zero differences continues with its first element. Otherwise the next value is the last element plus the next value of the differences. |
| Day09.ConstantContinues | 09/part1/part1.go:46-57 | A constant sequence of at least two numbers continues with the same value. |
| Day09.ArithmeticContinues | 09/part1/part1.go:36-65 | An arithmetic sequence of at least three numbers with step d ≠ 0 continues with its last element plus d. |
| Day09.TooShortToSettle | 09/part1/part1.go:18-20 | [0, 1] panics: its one difference has no differences of its own. |
| Day09.NextValueShift | 09/part1/part1.go:36-65 | Adding a constant to every element adds it to the next value. |
| Day09.PreviousValue | 09/part2.go:39-71 | A sequence of fewer than two numbers panics. |
| Day09.ConstantPrecededBy | 09/part2.go:39-71 | A constant sequence has the same value before it. |
| Day09.ArithmeticPrecededBy | 09/part2.go:39-71 | An arithmetic sequence of at least three numbers with step d ≠ 0 is preceded by its first element minus d. |
| Day09.SumOfValues | 09/part2.go:73-81 | The sum exists exactly when every line's value does, and it is the sum of the lines' next values, or of their previous values under part 2. |
| Day09.ExampleHistory | 09/part1/part1.go:36-65 | 0 3 6 9 12 15 continues with 18 and is preceded by −3. |
| Day10.CreateNode | 10/part1/part1.go:231-261 | A character is read only as the piece it stands for. Any other character panics. |
| Day10.SymbolRoundTrip | 10/part1/part1.go:231-261 | Reading a piece's symbol gives the piece back. |
| Day10.CreateNodeTotal | 10/part1/part1.go:231-261 | A character is accepted exactly when it is the symbol of some piece. |
| Day10.OutOfBounds | 10/part1/part1.go:35-44 | A cell is out of bounds exactly when it is not inside the grid. |
| Day10.ParseGrid | 10/part1/part1.go:263-280 | Parsing succeeds exactly when there is a first row, every row is as wide as it and every character is a piece. The grid keeps each character's piece at its position. |
| Day10.ParseRows | 10/part1/part1.go:263-280 | Reading rows succeeds exactly when every character is a piece, and each row keeps its pieces in order. |
| Day10.ParseRow | 10/part1/part1.go:268-276 | Reading one row succeeds exactly when every character is a piece, and the pieces stay in order. |
| Day10.StepBack | 10/part1/part1.go:46-173 | Stepping one way and then the opposite way returns to the same cell. |
| Day10.Fetch | 10/part1/part1.go:46-173 | A neighbour, when returned, is the adjacent cell in that direction, lies in the grid and is not the start tile. |
| Day10.FetchMeansOpen | 10/part1/part1.go:46-173 | A neighbour is returned exactly when it lies in the grid, both pieces open towards each other and it is not the start tile. |
| Day10.FetchSymmetric | 10/part1/part1.go:46-173 | Between two ordinary pieces, connection is mutual. |
| Day10.FindStartingPoint | 10/part1/part1.go:219-229 | The result is the first start tile in reading order. It panics exactly when there is none. |
| Day10.ExtendsTransitive | 10/part1/part1.go:175-187 | Growing the queue and distance map twice is itself a growth. |
| Day10.Enqueue | 10/part1/part1.go:175-187 | After the call the neighbour, if any, has been reached. Every earlier distance is kept, and a neighbour not reached before gets the given distance. |
| Day10.EnqueueStep | 10/part1/part1.go:175-187 | Enqueuing a neighbour records it once, at one more than the current distance. It forgets or renumbers nothing, and afterwards the neighbour has been reached. |
| Day10.EnqueueExtends | 10/part1/part1.go:175-187 | Enqueuing only adds: old distances and queue entries stay, and a tile newly given a distance joins the queue exactly once. |
| Day10.EnqueueFounded | 10/part1/part1.go:175-187 | A newly reached neighbour gets one more than the current tile's distance, so every recorded distance still traces back one step to a reached neighbour. |
| Day10.EnqueueTwo | 10/part1/part1.go:207-213 | Two enqueues in a row only add tiles to the back of the queue, each at one more than the current tile's distance, and leave both neighbours reached. |
| Day10.Visit | 10/part1/part1.go:207-213 | After the four enqueues, every connected neighbour of the dequeued tile has been reached. Only tiles at one more than its distance were appended to the queue. |
| Day10.VisitJoin | 10/part1/part1.go:207-213 | The four enqueues of one round together append only tiles at one more than the dequeued tile's distance. |
| Day10.Dequeue | 10/part1/part1.go:202-203 | Taking the head off a queue without duplicates leaves exactly the other entries, still without duplicates. |
| Day10.StepQueued | 10/part1/part1.go:189-217 | One search round keeps every queued tile reached and not yet dequeued. |
| Day10.StepCovered | 10/part1/part1.go:189-217 | One search round keeps every reached tile either queued or dequeued. |
| Day10.StepBelow | 10/part1/part1.go:204-205 | Every dequeued tile's distance stays below the running maximum. |
| Day10.StepClosed | 10/part1/part1.go:207-213 | Every connected neighbour of a dequeued tile has been reached. |
| Day10.StepAttained | 10/part1/part1.go:204-205 | Some dequeued tile always attains the running maximum. |
| Day10.SearchStep | 10/part1/part1.go:189-217 | One dequeue-and-visit round keeps the whole search invariant. |
| Day10.SearchShrinks | 10/part1/part1.go:189-217 | Each round either reaches new grid tiles or shortens the queue, so the search ends. |
| Day10.SearchIteration | 10/part1/part1.go:202-213 | One pass of the loop body keeps the search invariant with the dequeued tile counted as done. It either reaches new tiles or shortens the queue. |
| Day10.SearchLayers | 10/part1/part1.go:199-214 | One round keeps the queue in breadth-first order: its distances ascend and span at most one, and every dequeued tile's neighbours lie at most one step farther. |
| Day10.LayerStep | 10/part1/part1.go:199-214 | Dequeuing the head and appending its unreached neighbours at one more keeps the breadth-first order. |
| Day10.SearchDone | 10/part1/part1.go:189-217 | With the queue empty, the reached set is closed under connection. Every reached tile has a parent one step closer, and the maximum is attained. |
| Day10.DoneNear | 10/part1/part1.go:199-217 | When the queue runs empty, every reached tile's connected neighbours lie at most one step farther. |
| Day10.Trace | 10/part1/part1.go:46-173 | A walk through connected neighbours stays in the grid and, once it has moved, never stands on the start tile. |
| Day10.TraceReached | 10/part1/part1.go:189-217 | Every walk from the start ends on a reached tile, and no walk is shorter than that tile's distance. |
| Day10.ReachedByTrace | 10/part1/part1.go:189-217 | Every reached tile ends a walk from the start exactly as long as its distance. |
| Day10.ComputeGraph | 10/part1/part1.go:189-217 | The breadth-first search gives distances to in-grid ordinary tiles, never to the start itself. Each has a parent one step closer, the reached set is closed under connection, and no connected neighbour lies more than one step farther, which by TraceReached and ReachedByTrace makes every distance the length of a shortest walk from the start. The result is the largest distance, or 0 when nothing is reached. |
| Day10.ExploredUnique | 10/part1/part1.go:189-217 | Two outcomes of the search from the same start are equal, distances and farthest value alike. |
| Day10.FarthestUnique | 10/part1/part1.go:204-216 | The largest distance is determined by the distances. |
| Day10.ExampleLoop | 10/part1/part1.go:189-217 | On the loop `S7` / `LJ` the search gives the start's two neighbours 1 and the far corner 2, which is the answer. |
| Day10.ResolveStart | 10/part2.go:303-335 | The start resolves exactly when at least two neighbours connect to it, to a real pipe that opens only towards connected neighbours. The pairs are tried in the order north-south (|), north-west (J), north-east (L), south-west (7), south-east (F), west-east (-), and the first connected pair decides. |
| Day10.ResolveStartFirstPair | 10/part2.go:315-334 | The resolved piece opens on exactly the two sides of some pair whose neighbours both connect, and no earlier pair in the order tried has both connected. |
| Day10.NodeType | 10/part2.go:303-335 | An ordinary piece is its own type. A start tile is never left as the start piece. |
| Day10.StartResolvedOpens | 10/part2.go:303-335 | The piece a start tile resolves to opens only towards neighbours that connect back. |
| Day10.RowTypes | 10/part2.go:343-393 | Each row has one type per column. |
| Day10.RowMembers | 10/part2.go:339-341 | Each row has one loop-membership flag per column. |
| Day10.SkipDashes | 10/part2.go:369-373 | The skip lands on the first column from j that is not a dash, or on the row's end. Every column it skips holds a dash. |
| Day10.OpenTilesMonotone | 10/part2.go:343-393 | Starting the count of off-loop tiles later never counts more. |
| Day10.ScanRow | 10/part2.go:349-389 | A row never counts more than its off-loop tiles. |
| Day10.ScanRowOffLoop | 10/part2.go:352-357 | A stretch with no loop tiles counts all of them when enclosed and none otherwise. |
| Day10.SkipDashesLands | 10/part2.go:369-373 | The skip lands exactly on the first piece after a run of dashes. |
| Day10.LoopRun | 10/part2.go:359-387 | A run from a loop piece over dashes keeps the enclosed flag for L…J and F…7 and toggles it otherwise. The run's own tiles are not counted. |
| Day10.RunToRowEnd | 10/part2.go:369-375 | A loop piece followed only by dashes to the row's end indexes past the row and panics. |
| Day10.ScanGridRow | 10/part2.go:346-390 | Each grid row counts at most its off-loop tiles. |
| Day10.EnclosedCount | 10/part2.go:343-393 | The count succeeds exactly when every row scans. It is at most the number of off-loop tiles. |
| Day10.FarthestDistance | 10/part1/part1.go:282-287 | Part 1 succeeds exactly when the grid parses and has a start tile. The answer is the largest shortest-walk distance from the first start tile, which ExploredUnique shows is determined by the grid. |
| Day10.EnclosedTiles | 10/part2.go:395-400 | Part 2 fails when the grid does not parse or has no start tile. Otherwise it is the enclosed count of the grid scanned with the distances of the search from the first start tile. |
| Day10.ExampleRow | 10/part2.go:349-389 | The row `|.|`, with both pipes on the loop, encloses its middle tile. |
| Day11.Abs | 11/part1/part1.go:61-67 | The absolute value is non-negative and is either the number or its negation. |
| Day11.Distance | 11/part1/part1.go:69-73 | The Manhattan distance is non-negative, and it is zero exactly for equal positions. |
| Day11.DistanceMetric | 11/part1/part1.go:69-73 | The distance is symmetric and obeys the triangle inequality. |
| Day11.HashColumns | 11/part1/part1.go:33-39 | The columns found are exactly those holding a '#', in increasing order. |
| Day11.BlankRowsBefore | 11/part1/part1.go:42-45 | At most every one of the first n lines is galaxy-free. |
| Day11.ExpandedRowMonotone | 11/part1/part1.go:30-47 | A later line lands on a strictly lower row. |
| Day11.Positions | 11/part1/part1.go:31-40 | The positions listed are exactly the '#' characters, in reading order. |
| Day11.OnRow | 11/part1/part1.go:36-37 | Each galaxy of a line sits on that line's row, at its column. |
| Day11.ScanRows | 11/part1/part1.go:30-47 | After n lines the row counter stands at the widened row of line n. |
| Day11.ExpandedRowStep | 11/part1/part1.go:42-46 | Each line moves the next one down by one row, plus the extra rows when it has no galaxy. |
| Day11.GalaxyFreeNoColumns | 11/part1/part1.go:32-45 | A line counts as blank exactly when it holds no galaxy column. |
| Day11.WidenedAppend | 11/part1/part1.go:31-47 | Widening distributes over concatenation of galaxy lists. |
| Day11.ScanRowsMeaning | 11/part1/part1.go:30-47 | The row loop finds exactly the galaxies in reading order, each moved to its line's widened row. |
| Day11.BlankColumn | 11/part1/part1.go:18-24 | A column is blank exactly when every line has a '.' there. A line too short for the column, reached first, panics. |
| Day11.BlankColumns | 11/part1/part1.go:17-28 | The result holds exactly the blank columns, in increasing order. It panics exactly when some column cannot be read down to its first non-'.'. |
| Day11.ShiftColumn | 11/part1/part1.go:50-57 | A column only moves right. It stays put with no blank column at or left of it, and moves by the extra amount per blank column when all of them are. |
| Day11.ShiftColumnCounts | 11/part1/part1.go:50-57 | With the blank columns listed in increasing order, a column moves right by the extra amount times the number of blank columns at or left of it. |
| Day11.ShiftColumnMonotone | 11/part1/part1.go:50-57 | Moving columns keeps their order. |
| Day11.Expand | 11/part1/part1.go:13-59 | Parsing succeeds exactly when there are lines and every column of line 0 can be read. Each galaxy lands at its widened row and shifted column, in reading order. |
| Day11.ExpansionMonotone | 11/part2.go:19-66 | Widening keeps the galaxies' order by row and by column. |
| Day11.SumDistances | 11/part1/part1.go:75-85 | The loops add up the distances over all unordered pairs of galaxies, and the sum is non-negative. |
| Day11.PairsNonNegative | 11/part1/part1.go:75-85 | A pair sum is never negative. |
| Day11.RowSumNonNegative | 11/part1/part1.go:78-81 | An inner-loop sum is never negative. |
| Day11.RowSumAppend | 11/part1/part1.go:78-81 | Appending a galaxy adds its distance to the inner-loop sum. |
| Day11.PairsAppend | 11/part1/part1.go:75-85 | A further galaxy adds its distances to all earlier ones, so the total does not depend on the summation order. |
| Day11.SolveGalaxies | 11/part2.go:96-101 | An answer exists exactly when parsing succeeds, and it is the pair sum of the widened galaxies. Part 1 widens by one extra row or column and part 2 by 999999. |
| Day11.DistanceExamples | 11/part1/part1_test.go:19-24 | The six distances of the program's test table. |
| Day13.IsParallel | 13/part1/part1.go:47-83 | It returns -1 exactly when some pair of positions mirrored about the midpoint of the two indices differs. Otherwise it returns the position just after the midpoint. |
| Day13.FirstMirrorUnique | 13/part1/part1.go:94-107 | The search order meets at most one first mirror. |
| Day13.FindParallelLineValue | 13/part1/part1.go:94-107 | The value is 0 exactly when the line has no mirror. Otherwise it is the score of the first mirror the odd-gap search meets. |
| Day13.TryMirrorPartners | 13/part1/part1.go:96-103 | The partners of one row are tried in order. A mirror found is the first one the search meets. Running through means no mirror first reached from that row exists. |
| Day13.Transpose | 13/part2.go:112-125 | Transposing succeeds exactly when there is a first line and no line is shorter than it. Character (j, i) of the pattern becomes character (i, j). |
| Day13.TransposeTwice | 13/part2.go:112-125 | Transposing a rectangular, non-empty pattern twice gives it back. |
| Day13.ChecksumMirror | 13/part1/part1.go:25-45 | Comparing checksums finds the same mirrors as comparing lines, provided distinct lines have distinct checksums. |
| Day13.Checksums | 13/part1/part1.go:25-34 | There is one checksum per line, in order. |
| Day13.ComputePattern | 13/part1/part1.go:109-116 | Part 1's value succeeds exactly when the pattern can be transposed. It is the row value plus the column value. |
| Day13.PatternValue | 13/part1/part1.go:109-116 | A pattern has a value exactly when it can be transposed. |
| Day13.PatternValuesStep | 13/part1/part1.go:127-133 | One more pattern adds its value to the running sum. |
| Day13.FlattenAppend | 13/part1/part1.go:118-134 | Flattening distributes over appending one pattern. |
| Day13.GatherMeaning | 13/part1/part1.go:118-134 | Gathering loses no line and adds none. There is one pattern per empty line, plus a final one when the input does not end on an empty line. |
| Day13.PatternsMeaning | 13/part1/part1.go:118-134 | The patterns hold exactly the non-empty lines in order. Their number is the number of empty lines, plus one for a trailing pattern. |
| Day13.PatternsNonEmpty | 13/part1/part1.go:123-134 | No gathered pattern holds an empty line. |
| Day13.GatherNonEmpty | 13/part1/part1.go:123-134 | Neither the closed patterns nor the open one hold an empty line. |
| Day13.Summarize | 13/part1/part1.go:118-137 | Part 1's answer exists exactly when every gathered pattern can be transposed. It is the sum of the patterns' values, in order. |
| Day13.SmudgeScanMeaning | 13/part2.go:69-81 | For equal-length lines without the character '0', the scan accepts exactly the lines that differ in at most one position. |
| Day13.IsAlmostParallel | 13/part2.go:10-84 | A mirror that is symmetric already is refused, and an accepted result is the position after the midpoint. For patterns without empty lines the verdict is the exact smudge rule: one differing pair, differing in at most one character. |
| Day13.ScanOutward | 13/part2.go:19-37 | The outward loop stops at a second differing pair, which refuses the mirror. Otherwise it has recorded the one differing pair among the outer positions, if any, and a symmetric pattern records none. |
| Day13.ScanInward | 13/part2.go:41-62 | The inward loop completes the record. A second differing pair refuses the mirror. Otherwise every differing pair about the midpoint is the recorded one, and the indices meet just after the midpoint. |
| Day13.FindHorizontalParallelLine | 13/part2.go:99-110 | The result is -1 exactly when no mirror position is settled on. Otherwise it is the verdict of the first position the search meets, which for patterns without empty lines is the report on the unique first hit. |
| Day13.TryPartners | 13/part2.go:101-106 | The partners of one row are tried in order. A stop is at the first position the whole search meets. Running through means no position first reached from that row is settled on. |
| Day13.FirstHitUnique | 13/part2.go:99-110 | The search order meets at most one first hit. |
| Day13.HitReportOf | 13/part2.go:99-110 | A report on some first hit is the report on the first hit. |
| Day13.ComputeSmudgedPattern | 13/part2.go:130-143 | The value is at least 1. It comes from the first horizontal mirror, otherwise from the first vertical one, and a pattern with neither panics. |
| Day13.SummarizeSmudged | 13/part2.go:145-164 | Part 2's answer exists exactly when every gathered pattern has a smudged value. It is the sum of those values, so at least the number of patterns. |
| Day14.Reverse | 14/part2.go:45-67 | The reversal holds the same elements in the opposite order. |
| Day14.ReverseTwice | 14/part2.go:45-67 | Reversing twice gives the line back. |
| Day14.ReverseUpdate | 14/part2.go:45-67 | Writing a cell and then reversing equals reversing and then writing the mirrored cell. |
| Day14.Moved | 14/part2.go:35-38 | Moving a rock keeps the line's length. |
| Day14.Slide | 14/part2.go:22-42 | The tilt loop keeps the line's length. |
| Day14.SlideLine | 14/part2.go:19-43 | Tilting a line keeps its length. |
| Day14.SlideMeaning | 14/part2.go:19-43 | Tilting keeps every cube rock in place and the number of round rocks, and it leaves the line packed towards its start. |
| Day14.MovedFree | 14/part2.go:32-39 | The moved rock lands on a free cell, changes no other cell, and leaves the cells behind the new landing place free. |
| Day14.SlideWalls | 14/part2.go:22-42 | No cube rock moves. |
| Day14.SlideCount | 14/part2.go:22-42 | No round rock is created or lost. |
| Day14.SlidePacked | 14/part2.go:22-42 | After the loop every round rock sits against a cube rock, the start or another round rock. |
| Day14.PackedStays | 14/part2.go:22-42 | A packed line is left as it is. |
| Day14.SlideIdempotent | 14/part2.go:19-43 | Tilting twice is tilting once. |
| Day14.SlideBack | 14/part2.go:45-67 | The backward tilt loop keeps the line's length. |
| Day14.SlideBackLine | 14/part2.go:45-67 | Tilting towards the end keeps the line's length. |
| Day14.SlideBackMirror | 14/part2.go:45-67 | The backward loop is the forward loop on the reversed line. |
| Day14.SlideBackMirrorRock | 14/part2.go:55-63 | The two loops agree at a round rock. |
| Day14.MirrorArguments | 14/part2.go:45-67 | The backward loop's recursive call corresponds to the forward loop's. |
| Day14.SlideBackMirrorStill | 14/part2.go:51-54 | The two loops agree at a cube rock or a free cell. |
| Day14.MovedMirror | 14/part2.go:55-63 | Moving a rock commutes with reversing the line. |
| Day14.SlideBackLineMirror | 14/part2.go:45-67 | Tilting towards the end is tilting the reversed line towards its start, reversed back. |
| Day14.SlideBackMeaning | 14/part2.go:45-67 | Tilting towards the end keeps the cube rocks and the round-rock count. It packs against the end and is idempotent. |
| Day14.SlideBackWalls | 14/part2.go:45-67 | No cube rock moves. |
| Day14.SlideBackCount | 14/part2.go:45-67 | No round rock is created or lost. |
| Day14.SlideBackPacked | 14/part2.go:45-67 | The line is packed against its end. |
| Day14.SlideBackIdempotent | 14/part2.go:45-67 | Tilting towards the end twice is tilting once. |
| Day14.ReverseMultiset | 14/part2.go:45-67 | Reversal keeps the multiset of cells. |
| Day14.Column | 14/part2.go:22-25 | A column holds the j-th cell of every row. |
| Day14.FromColumns | 14/part2.go:19-43 | A platform built from equal-height columns is rectangular and has one column per input column. |
| Day14.FromColumnsColumns | 14/part2.go:19-43 | Its columns are the ones it was built from. |
| Day14.SameColumns | 14/part2.go:19-43 | Two platforms of the same shape with the same columns are equal. |
| Day14.North | 14/part2.go:19-43 | Tilting north keeps the platform's shape. |
| Day14.NorthColumns | 14/part2.go:19-43 | Tilting north tilts each column towards row 0. |
| Day14.South | 14/part2.go:45-67 | Tilting south keeps the platform's shape. |
| Day14.SouthColumns | 14/part2.go:45-67 | Tilting south tilts each column towards the last row. |
| Day14.West | 14/part2.go:69-91 | Tilting west keeps the platform's shape. |
| Day14.East | 14/part2.go:93-115 | Tilting east keeps the platform's shape. |
| Day14.Cycle | 14/part2.go:118-123 | A spin cycle keeps the platform's shape. |
| Day14.NorthTilt | 14/part2.go:19-43 | A tilt north keeps every cube rock and each column's round-rock count. It packs every column and is idempotent. |
| Day14.WestTilt | 14/part2.go:69-91 | A tilt west does the same for every row. |
| Day14.FlipRows | 14/part2.go:45-67 | Turning the platform upside down reverses every column. |
| Day14.FlipColumns | 14/part2.go:93-115 | Mirroring the platform left to right reverses every row. |
| Day14.SouthMirror | 14/part2.go:45-67 | A tilt south is a tilt north of the upside-down platform. |
| Day14.EastMirror | 14/part2.go:93-115 | A tilt east is a tilt west of the mirrored platform. |
| Day14.RowLoadCount | 14/part2.go:140-153 | A row weighs its number of round rocks times its distance from the south edge. |
| Day14.AddColumn | 14/part2.go:144-150 | One more column adds that column's weight. |
| Day14.ColumnsRows | 14/part2.go:140-153 | Weighing column by column equals weighing row by row. |
| Day14.NoCells | 14/part2.go:140-153 | With no columns, nothing weighs anything. |
| Day14.RowsAll | 14/part2.go:140-153 | All columns of the rows make up the rows' full weight. |
| Day14.CalculateMatrixLoad | 14/part2.go:140-153 | The load is the sum over rows of the round-rock count times the distance from the south edge. It also equals the column-by-column sum. |
| Day14.Part1ColumnSuffix | 14/part1/part1.go:12-24 | The part 1 loop depends only on the cells it has yet to read. |
| Day14.ColumnLoadUpdate | 14/part2.go:140-153 | Changing one cell changes the weight by that cell's difference. |
| Day14.Part1Tilted | 14/part1/part1.go:11-24 | The part 1 loop's running weight is the rows minus the slot where the next rock lands. It adds what the tilted column weighs. |
| Day14.Part1ColumnTilted | 14/part1/part1.go:10-25 | Part 1 weighs a column exactly as the column tilted north weighs. |
| Day14.Part1Series | 14/part1/part1.go:11-24 | A column without cube rocks collects an arithmetic series from the top weight down. |
| Day14.ConvertToMatrix | 14/part2.go:125-136 | Conversion succeeds exactly when there is a first line and no line is shorter than it. The platform keeps every cell of the first line's width. |
| Day14.CalculateMatrix | 14/part1/part1.go:8-28 | Part 1 succeeds exactly when the lines form a platform. Its load is the load of that platform tilted north. |
| Day14.Part1Weighs | 14/part1/part1.go:8-28 | Part 1's columns weigh what the tilted platform's columns weigh. |
| Day14.CalculateMatrixTotal | 14/part2.go:140-153 | The column-by-column load of a platform equals its row-by-row load. |
| Day14.IterateAdd | 14/part2.go:169-171 | a steps followed by b steps are a + b steps. |
| Day14.IteratePeriodic | 14/part2.go:215-228 | Once a state returns after c steps, every further c steps bring it back again. |
| Day14.CyclesShape | 14/part2.go:118-123 | Any number of cycles keeps the platform's shape. |
| Day14.FindPeriod | 14/part2.go:178-196 | The count is the smallest from 1 to the limit after which the state returns. It panics exactly when there is none. |
| Day14.DetermineCycleCount | 14/part2.go:155-199 | After the 100-cycle wind-up, the count is the smallest number of cycles, at most 100000, after which the wound-up state returns. It panics exactly when there is none. |
| Day14.RepeatsAfterWindUp | 14/part2.go:167-196 | A repeat means the wound-up state comes back. |
| Day14.IterateFrom | 14/part2.go:218-228 | Running k more cycles from the state after a cycles gives the state after a + k. |
| Day14.SpinLoad | 14/part2.go:201-231 | Part 2 succeeds exactly when the lines form a platform and some state repeats within the patience bound. Its answer is then the load after 1000000000 cycles, so the shortcut through the period gives the true state. |
| Day14.SkipPeriods | 14/part2.go:222-228 | With period c from cycle a on, cycle n is cycle a plus the remainder of n − a modulo c. |
| Day15.HashFrom | 15/part1/part1.go:11-15 | After at least one character, or from a start below 256, the running value stays below 256. |
| Day15.Hash | 15/part1/part1.go:9-18 | The hash is below 256, and the empty string hashes to 0. |
| Day15.HashFromAppend | 15/part1/part1.go:11-15 | One more character adds its code to the running value, multiplies by 17 and reduces modulo 256. |
| Day15.HashAppend | 15/part1/part1.go:9-18 | The hash of a longer string is computed from the hash of the shorter one alone. |
| Day15.HashFromConcat | 15/part1/part1.go:11-15 | Hashing a + b is hashing b from the hash of a. |
| Day15.HashResidues | 15/part1/part1.go:11-15 | Characters whose codes agree modulo 256 hash alike. |
| Day15.HashStep | 15/part1/part1.go:11-15 | One step of the loop turns value h and character c into (h + c) · 17 mod 256. |
| Day15.HashExample | 15/part1/part1.go:9-18 | "HASH" hashes to 52. |
| Day15.HashSum | 15/part1/part1.go:27-30 | A sum of step hashes is at most 255 per step. |
| Day15.SumOfHashes | 15/part1/part1.go:20-33 | Part 1 succeeds exactly when there is exactly one line. Its answer is the sum of the hashes of the comma-separated steps, at most 255 per step. |
| Day15.HashSumIsSum | 15/part1/part1.go:27-30 | The loop adds up the hash of every step, in order. |
| Day15.SumOfTwoSteps | 15/part1/part1.go:26-30 | For two comma-free steps joined by a comma, the answer is the sum of their hashes. |
| Day15.ParseOperation | 15/part2.go:38-57 | With an '=' the step replaces: its label is the '='-free text before the first '=', and it parses exactly when the text after that '=' reads as a number, which becomes the focal length. Without an '=' it parses exactly when it ends in '-', and then removes the '-'-free label before the first '-', with focal length −1. |
| Day15.ParsePieces | 15/part2.go:41-49 | A step with '=' reads its label and focal length from the first two pieces around '='. |
| Day15.ParseReplace | 15/part2.go:41-49 | "label=n" reads as putting in a lens of focal length n. |
| Day15.ParseSecondEquals | 15/part2.go:42-45 | Text after a second '=' is ignored. |
| Day15.SecondEqualsPieces | 15/part2.go:42 | Splitting "label=n=rest" at '=' gives the label and then n. |
| Day15.ParseRemove | 15/part2.go:50-53 | "label-" reads as taking out the label's lens. |
| Day15.ParseRejects | 15/part2.go:45-56 | "ab" and "ab=" panic. |
| Day15.ParseOperations | 15/part2.go:36-62 | Reading succeeds exactly when every step reads, and it keeps them in order. Otherwise it fails with the message of the first step that does not read. |
| Day15.FindLens | 15/part2.go:67-73 | The index is that of the first lens with the label, or −1 exactly when there is none. |
| Day15.RemoveLens | 15/part2.go:66-88 | Without the label the box is unchanged. Otherwise exactly the first lens with the label is removed and the others stay in order. |
| Day15.ReplaceLens | 15/part2.go:93-108 | Without the label the lens joins the end of the box. Otherwise it replaces the first lens with the label in place and nothing else changes. |
| Day15.FindLensAt | 15/part2.go:67-73 | The first lens with the label is found at its position. |
| Day15.RemoveLookup | 15/part2.go:66-88 | Removal takes the label out of a box with distinct labels and leaves every other label's lens alone. |
| Day15.ReplaceLookup | 15/part2.go:93-108 | Replacement makes the lens the label's lens, keeps every other label's lens and keeps the labels distinct. |
| Day15.EmptyBoxes | 15/part2.go:116 | There are 256 boxes, all empty. |
| Day15.Apply | 15/part2.go:118-129 | One operation changes only the box its label hashes to. |
| Day15.Process | 15/part2.go:112-132 | Arranging always yields 256 boxes. |
| Day15.ApplyFiled | 15/part2.go:118-129 | Every operation keeps every lens in the box its label hashes to, with no label twice in a box. |
| Day15.RefiledBox | 15/part2.go:128 | Putting a filed box back under its own number keeps the boxes filed. |
| Day15.ReplaceFiled | 15/part2.go:93-108 | Replacement keeps a box filed under the hash of the new label. |
| Day15.RemoveFiled | 15/part2.go:66-88 | Removal keeps a box filed under its own number. |
| Day15.ProcessFiled | 15/part2.go:112-132 | The arrangement is always filed. |
| Day15.LastOp | 15/part2.go:118-129 | The last operation on a label is absent exactly when no operation names the label. |
| Day15.LastOpAt | 15/part2.go:118-129 | An operation is the last on its label when no later operation names that label. |
| Day15.ProcessMeaning | 15/part2.go:112-132 | Each label's box holds exactly the lens the last operation on that label put in. It holds none when that operation was a removal or there was none. |
| Day15.RemovalsOnly | 15/part2.go:112-132 | Removals alone leave every box empty. |
| Day15.Run | 15/part2.go:134-148 | The sum is the focusing power of the arrangement: box number times slot number times focal length, over every lens. |
| Day15.OneLensPower | 15/part2.go:137-145 | A single lens in box h has power (h + 1) times its focal length. |
| Day15.NoLensesPower | 15/part2.go:137-145 | Empty boxes have no power. |
| Day15.SingleLens | 15/part2.go:112-148 | One replacement "label=f" gives power (hash of label + 1) · f. |
| Day15.FocusingPower | 15/part2.go:150-161 | Part 2 succeeds exactly when there is one line whose steps all read. Its answer is the focusing power of their arrangement. |
| Day16.ParseTile | 16/part2.go:52-65 | A character is read exactly when it is one of `. / \ - |`, and the tile read draws as that character. Any other character panics with it in the message. |
| Day16.ParseTileChar | 16/part2.go:52-65 | Every tile's character reads back as that tile. |
| Day16.ParseRow | 16/part2.go:46-72 | A line reads exactly when all its characters are tiles, and every tile draws as its character. Otherwise the complaint names the first bad character. |
| Day16.Parse | 16/part2.go:43-78 | Parsing succeeds exactly when there is a line and every line reads. Each row is its line's tiles. |
| Day16.ParseRows | 16/part2.go:46-72 | The rows read exactly when every line does, one row per line. |
| Day16.Render | 16/part2.go:43-78 | Drawing a grid gives one line per row. |
| Day16.ParseRender | 16/part2.go:43-78 | Drawing a non-empty grid and parsing the drawing gives the grid back. |
| Day16.RenderParse | 16/part2.go:43-78 | Parsing lines and drawing the grid gives the lines back. |
| Day16.InAllBeams | 16/part2.go:80-86 | The beams of the grid are exactly those whose position is not out of bounds. |
| Day16.NextTile | 16/part2.go:88-103 | One tile on moves one column for a horizontal direction and one row for a vertical one. |
| Day16.NextTileBack | 16/part2.go:88-103 | Going on and then back the opposite way returns to the start. |
| Day16.Bounce | 16/part2.go:113-139 | A mirror turns a horizontal beam vertical and a vertical beam horizontal. |
| Day16.NextDirectionForMirror | 16/part2.go:108-140 | Only the two mirrors turn a beam. Any other tile panics. |
| Day16.MirrorInvolution | 16/part2.go:108-140 | Each mirror undoes itself. |
| Day16.MirrorReverses | 16/part2.go:108-140 | A beam sent back along the reflected direction leaves the mirror opposite to where the first one came in. |
| Day16.Next | 16/part2.go:178-215 | The beams leaving a tile each move one tile on in their direction. There are two exactly for a splitter hit across its line. The beam keeps its direction exactly on empty space and on a splitter hit along its line. |
| Day16.SubsetSize | 16/part2.go:153-176 | A subset is no larger than its superset. |
| Day16.MarkShrinks | 16/part2.go:153-176 | Setting a flag that was unset shrinks the set of unset flags. |
| Day16.MoreShrinks | 16/part2.go:153-176 | More flags set leave no more unset. |
| Day16.Follow | 16/part2.go:144-216 | Flags and energized tiles only grow, and only by beams on the grid. An off-grid beam changes nothing. A beam on the grid energizes its tile and is flagged, and a beam already flagged only energizes its tile. |
| Day16.ClearGrid | 16/part2.go:218-228 | After clearing, no tile is energized and no flag is set. |
| Day16.FollowEnergized | 16/part2.go:149-176 | The energized tiles stay exactly the tiles a beam has passed in some direction. |
| Day16.ReachesItself | 16/part2.go:144-216 | Every beam on the grid reaches itself. |
| Day16.ReachesBack | 16/part2.go:178-215 | What a leaving beam reaches, the beam before it reaches too. |
| Day16.FollowSound | 16/part2.go:144-216 | Every flag a call sets belongs to a beam reachable from the call's beam. |
| Day16.SettledMore | 16/part2.go:144-216 | A settled beam stays settled as more flags are set. |
| Day16.SettledByNext | 16/part2.go:178-215 | A beam is settled once the beams leaving its tile are flagged. |
| Day16.FollowClosed | 16/part2.go:144-216 | Every flag a call sets belongs to a beam whose successors are flagged by the time the call returns. |
| Day16.SettledHoldsPath | 16/part2.go:144-216 | A set of flags in which every beam is settled holds every beam reachable from one of its members. |
| Day16.EnergizeReaches | 16/part2.go:144-216 | On a cleared grid the flagged beams are exactly those reachable from the start, and none when the start is off the grid. |
| Day16.EnergizedTiles | 16/part2.go:144-216 | The energized tiles are exactly the positions of the reachable beams, and they all lie on the grid. |
| Day16.RowCount | 16/part2.go:233-237 | A row counts at most its width. |
| Day16.CellCountBound | 16/part2.go:230-241 | The count is at most one per tile. |
| Day16.RowCountSize | 16/part2.go:233-237 | A row's count is the number of its energized tiles. |
| Day16.CellCountSize | 16/part2.go:230-241 | The count is the number of energized tiles inside the grid. |
| Day16.CellCountAll | 16/part2.go:230-241 | When the grid holds every energized tile, the count is the number of energized tiles. |
| Day16.SumEnergizedTiles | 16/part2.go:230-241 | The sum counts the energized tiles of the grid, at most one per tile. It is the number of energized tiles when all of them lie on the grid. |
| Day16.EnergizedFromCorner | 16/part1/part1.go:215-230 | Part 1 succeeds exactly when the lines parse into a rectangular grid. Its answer counts the tiles lit by a beam entering the top-left corner heading right. |
| Day16.RowStarts | 16/part2.go:248-258 | Each row is tried from its left end heading right, then from its right end heading left. |
| Day16.ColumnStarts | 16/part2.go:260-270 | Each column is tried from its top heading down, then from its bottom heading left, as line 266 has it. |
| Day16.NoStartHeadsUp | 16/part2.go:260-270 | No start heads up. |
| Day16.MaxEnergized | 16/part2.go:247-270 | The result is at least the lit count of every start, and some start attains it unless it is 0. |
| Day16.FromRows | 16/part2.go:248-258 | After the row loop the best is the maximum over the row starts. |
| Day16.FromRow | 16/part2.go:249-257 | One row turn extends the maximum over two more starts. |
| Day16.FromColumns | 16/part2.go:260-270 | After the column loop the best is the maximum over all starts. |
| Day16.FromColumn | 16/part2.go:261-269 | One column turn extends the maximum over two more starts. |
| Day16.Keep | 16/part2.go:249-252 | One start updates the best to the maximum over one more start. |
| Day16.Lit1 | 16/part2.go:249-250 | One start's count is the number of tiles it lights, at most one per tile. |
| Day16.MostEnergized | 16/part2.go:243-273 | Part 2 succeeds exactly when the lines parse into a rectangular grid. Its answer is the largest lit count over the edge starts. |
| Day19.FirstComparator | 19/part1/part1.go:45-55 | The index is that of the first '<' or '>' from i on, or the length when there is none. |
| Day19.ParseStep | 19/part1/part1.go:43-68 | A rule read is conditional. Its parameter name holds no comparator and its target no ':'. The step is exactly name, comparator, number text, ':' and target. A rule without a comparator panics on the slice after it. |
| Day19.StepPieces | 19/part1/part1.go:56-65 | A rule is its name, its comparator and the two pieces around the ':' put back together. |
| Day19.ParseStepOf | 19/part1/part1.go:43-68 | A rule written out reads back as itself. |
| Day19.ParseSteps | 19/part1/part1.go:78-82 | The rules read exactly when each does, in order. Otherwise the complaint is that of the first bad rule. |
| Day19.ParseWorkflow | 19/part1/part1.go:70-95 | The name is the '{'-free text before the first '{', and a line without '{' panics. Otherwise it succeeds exactly when every item but the last reads as a rule and the last is non-empty. The rules are those items read in order, followed by a jump to the last item without its final character. |
| Day19.NameCut | 19/part1/part1.go:72-73 | The text before the first '{' holds no '{', is followed by one when the split has a second piece, and a line without '{' has no second piece. |
| Day19.ParseWorkflowOf | 19/part1/part1.go:70-95 | A workflow written out as name{rules,target} reads back as itself. |
| Day19.ParseWorkflowCut | 19/part1/part1.go:72-93 | Once the line is cut into its name and items, the workflow is its rules followed by the jump to the target. |
| Day19.WorkflowPieces | 19/part1/part1.go:72-85 | Cutting a written-out workflow at '{' and ',' gives back its name, its rules and its target with the brace. |
| Day19.CompareStrict | 19/part1/part1.go:97-106 | A value equal to the threshold never matches. The two comparators mirror each other, and for any other value exactly one of them matches. |
| Day19.Compare | 19/part1/part1.go:97-106 | "<" holds exactly when the value is below the threshold, ">" exactly when it is above. |
| Day19.ParamValue | 19/part1/part1.go:121-133 | Exactly the names x, m, a and s read a rating. Any other name panics with the name in the message. |
| Day19.RunWorkflow | 19/part1/part1.go:108-148 | A workflow name missing from the map has no rules, so running it panics at its end. |
| Day19.RunSteps | 19/part1/part1.go:110-147 | When no rule from i on decides, the end of the workflow panics. A result is only reached through some rule that decides. |
| Day19.GoTo | 19/part1/part1.go:111-118 | "A" accepts and "R" rejects. |
| Day19.FirstDecides | 19/part1/part1.go:110-147 | The rules are tried in order, and the first that decides (the jump, an unknown parameter or a holding comparison) settles the outcome. When none decides, the end of the workflow panics. |
| Day19.RunMoreFuel | 19/part1/part1.go:108-148 | A run that did not run out of fuel gives the same result with more. |
| Day19.StepsMoreFuel | 19/part1/part1.go:110-147 | The same for the rule loop. |
| Day19.GoToMoreFuel | 19/part1/part1.go:111-118 | The same for following a target. |
| Day19.Assign | 19/part1/part1.go:163-182 | The reading panics exactly when a component has no '='. Otherwise components 0 to 3 set x, m, a and s, and further ones are ignored. |
| Day19.AsPartOf | 19/part1/part1.go:163-182 | "x=..,m=..,a=..,s=.." reads as the part with those ratings. |
| Day19.AsPart | 19/part1/part1.go:163-182 | A part line panics exactly when some comma-separated component has no '=', with the index error. Otherwise components 0 to 3 give x, m, a and s, and a missing one leaves 0. |
| Day19.HasRatingMeaning | 19/part1/part1.go:168 | A component has a piece after the split at '=' exactly when it holds an '='. |
| Day19.PartLine | 19/part1/part1.go:166 | A part line is its four components joined by commas. |
| Day19.RatingOf | 19/part1/part1.go:168 | The component "n=v" has the rating text v. |
| Day19.GetRating | 19/part1/part1.go:150-161 | A line shorter than two characters panics. Otherwise it succeeds exactly when the line without its braces reads as a part and that part's run from "in" ends. An accepted part counts its four ratings, a rejected one nothing. |
| Day19.Index | 19/part1/part1.go:187-197 | The map holds exactly the names of the workflows read. |
| Day19.IndexLast | 19/part1/part1.go:196 | A name maps to the last workflow carrying it. |
| Day19.FirstBlank | 19/part1/part1.go:189-193 | The index is that of the first empty line from j on, or the number of lines. |
| Day19.ParseWorkflows | 19/part1/part1.go:189-197 | The workflows read exactly when every line does, one per line. |
| Day19.AcceptedRatings | 19/part1/part1.go:184-205 | Part 1 succeeds exactly when every line before the first empty one reads as a workflow and every line after it rates. The answer is the sum of those ratings, or of all lines' ratings when there is no empty line. |
| Day19.NoBlankLine | 19/part1/part1.go:188-200 | Without an empty line the rating loop starts again at line 0, so every line, workflows included, is also read as a part. |

## Left out

- Reading `input.txt` and printing the answer. Each answer member starts from the lines `LoadFile` returns, not from the file's contents, and ends at the printed number. FileUtils.LoadFile models the split into lines separately. The `log.Fatal` on a read error in `LoadFile` has no counterpart.
- `utils.AsInt` and `utils.AsNumericalSlice` are not part of this model; their source is not among the files modelled. Day 19 takes `asInt` and Day 9 takes `parse` as function parameters, so their own errors are not modelled.
- Day13.ComputePattern: the 32-bit FNV-1a checksum of `hash/fnv` is a parameter `checksum`. Day13.ChecksumMirror shows that any injective checksum finds the same mirrors; hash collisions are not modelled.
- Day13.IsAlmostParallel: its exact verdict, and those of FindHorizontalParallelLine and ComputeSmudgedPattern, are stated for patterns without empty lines. The program marks "no differing pair yet" with an empty string, which an empty line would fool, but gathering never produces one.
- Day13.SmudgeScanMeaning: stated for lines without the character '0', which the program uses as its "no difference yet" marker.
- Machine integers: `int`, `int64` and `uint64` arithmetic is unbounded here. In Go the sums of days 1–7, 9, 11, 14, 15 and 19 and the step counters of day 8 would wrap around on overflow, and the `uint64` product of NumberUtils.FindLCM (the answer of day 8 part 2) is taken modulo 2^64. The 64-bit limits of `strconv` are modelled in `Text.ParseDecimal`.
- Day05.SortBySource and Day07.SortHands: `sort.Slice` is not stable. The model sorts by insertion. For Day 5 the tables hold disjoint ranges, so the order is determined. For Day 7 the sort only runs once no pair of hands panics, and then all keys differ, so the order is determined too.
- Day07.TotalWinnings: it panics exactly when some pair of hands panics, because any comparison sort must compare two hands that are adjacent in key order, and some panicking pair is adjacent (ordering cards outside the labels by a stand-in value). Which pair `sort.Slice` meets first, and so which message it prints, depends on its comparison order. The model reports the first panicking pair in index order, which need not be the same message.
- Day08.WalkFrom and Day19.RunWorkflow take `fuel`. A walk or workflow chain that never ends loops forever in Go (Day 8) or recurses until the stack overflows (Day 19). The model returns `OutOfFuel` instead, a result the program does not have. Day19.RunMoreFuel and Day08.WalkMeaning show that enough fuel gives the program's answer.
- Map iteration order: `FindLCM` multiplies the prime factors it gathers in the Go map `factorMap`, whose iteration order is unspecified. NumberUtils.SameElementsSameProduct shows that the product does not depend on the order. Day 8 part 2 takes its starting nodes from the lines after the second, in file order.
- NumberUtils.FindPrimeFactors: 0 is excluded by its precondition, because the program halves 0 forever. NumberUtils.FindLCM inherits this for its inputs.
- NumberUtils.FindLCM: it models the program's product of the distinct prime factors. NumberUtils.DistinctPrimeProductExample shows that this is not the least common multiple when a prime divides an input twice.
- Day03.ExtractFromLine, Day03.Extracted, Day03.ExtractNumericalValue, Day03.ProcessMatrixFrom, Day10.ParseGrid, Day16.EnergizedFromCorner and Day16.MostEnergized: rows of a width other than the first are required away (Day 3) or refused. The rightward scan of `extractNumericalValue` stops at the width of row 0; ExtractFromLine scans to the end of its own row, which is the same place only on such a grid. In Go a short row fails only if it is actually indexed, and extra characters in a longer row are never read. The Day 16 parts refuse every non-rectangular grid.
- Characters and bytes: strings are sequences of characters. Go's `range` over a string yields runes at byte offsets, and `[]rune` converts to runes (days 1, 10, 11, 14 part 2, 15 and 16). Indexing or slicing a string works on bytes (the node names of day 8, days 13 and 19, and day 14 part 1). For the ASCII puzzle input these coincide, and other input is not modelled.
- Day16.Follow: the per-tile energized flag and the four travelled flags are modelled as sets of positions and of beams. The tile types live in the grid, which `followPath` never changes. The recursion depth of `followPath` is unbounded in Go, and a stack overflow is not modelled.
- Day04.TotalPoints: its contract says only that the total succeeds exactly when every line scores, and that it is at least the last line's score. The total is the sum of the round scores, which Day04.RoundScore states line by line.
- Day01.TotalCalibration: its contract bounds the total at 99 per line. Each line's value is stated by Day01.CalibrationFromMentions.
- Day01.CalibrationValue: its own contract only bounds the value by 99. What the value is, from the first and last mentioned digits, is stated by Day01.CalibrationFromMentions.
