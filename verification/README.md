# A model of the backgammon engine's discrete core

This project models seven components of GNU Backgammon and proves what they keep,
compute and undo: the bearoff database and its combinatorial index, the move
printer and the move parser, the FIBS board record, the statistics engine, the
task queue of the analysis, the file sniffer, the tokenizer and the dice. Floating
point numbers are Dafny reals. C strings are Dafny strings; text that the program
writes into a caller's buffer is returned. `dafny verify dfyconfig.toml` checks
everything.

## Modules

- `Common`: options, flags and kinds of characters that several modules share.
- `Combinatorics`, `PositionId`, `PositionWords`: binomial coefficients, the cached
  table of them, the numbering of boards by the combinatorial number system, and the
  coder and decoder on words of 32 bits with the table.
- `Bearoff`, `BearoffTable`, `BearoffFill`, `BearoffMass`: the heuristic play of a
  roll in place, the recurrence for rows of 32 probabilities, the loops that fill the
  54264 rows, and how far rounding can move a row's mass. The recurrence is stated
  for any strategy that lowers the number of the position; the heuristic is one.
- `BearoffChoice`: which point the heuristic prefers, and which dice a roll plays.
- `Bytes`, `BearoffLookup`, `BearoffGammon`: the compressed and the plain lookup of a
  distribution, and the lookups of the gammon and race tables.
- `Moves`, `MoveChains`, `MoveText`, `MoveLength`, `MoveFormat`: a move as a list of
  steps, how chains of steps are joined and grouped, the text they print as and how
  long it gets, and the program that does it with pointers into a flat array of 16
  cells.
- `MoveParse`, `MoveGuard`, `MoveReader`, `MoveRoundTrip`: what a text reads as, which
  texts the program reads safely, the program that reads them, and that reading a
  printed move gives the move's effect back.
- `MoveWritten`, `MoveCounts`: the texts that are read, written out in names, gaps,
  slashes and counts, and what each of them stands for.
- `FibsText`, `FibsBoard`, `FibsLaws`: the text and the fields of a board record, the
  writer and the reader, and what the reader makes of the numbers of any record.
- `MatchStates`: the records of a game, the match state, what a record does to it, and
  how the analysis and the statistics of a stored game walk over a game.
- `Statistics`, `StatisticsMatch`, `Variance`, `StatContext`: what a record adds to the
  statistics, what every run and every match keeps, the variance recurrence, and the
  context that is updated in place.
- `Ledger`: what one decision, move or roll adds, measured against the best choice.
- `Linking`, `AnalyzeGame`, `AnalysisOrder`: which records are analysed together and in
  which order, the loop over records with its linked task objects, and that the order
  in which tasks run does not change the statistics.
- `DoubleAnswers`, `StatDifference`, `TwoWalks`: when the analysis and a stored game give
  a record, and a whole game, the same statistics.
- `FileFormats`, `FileHelper`, `FileOverlap`: what each recogniser accepts, the growing
  buffer with its cursor, and which recognisers overlap.
- `FileLanguages`, `FileLines`: the texts that each recogniser accepts, written out.
- `Tokenizer`, `TokenPieces`: splitting a line in place, and what a token is made of.
- `Dice`, `DiceCost`, `DicePairs`: ternary digits from bits and what they cost, faces
  from words by rejection, and which bits give which digit and face.

## Where the code and its documentation disagree

- `drawboard.h` asks for room for 28 characters in a formatted move. That is enough
  for the moves of one roll (`MoveLength.OneRollLength`). A list of steps needs more
  exactly when it has four steps, no two of them equal and none going on from where
  another one ends, with more than 21 characters for its points and for the stars of
  the points it hits (`MoveLength.TooLongExactly`). Four entries that hit four blots
  take 31 (`MoveLength.LongMove`); no roll makes them. 31 is never exceeded.
- The comment on `NextTokenGeneral` promises single quotes; only double quotes quote. A
  text in single quotes never reads back as that text, and without quotes and
  backslashes in it it is one token, with its single quotes, exactly when it holds no
  blank (`Tokenizer.SingleQuotesStay`, `Tokenizer.SingleQuotesSplit`).
- The comment on `BBSGetTrit` claims the fewest bits on average. The automaton reads 3
  bits for a digit; pairs of bits give every digit as often and cost fewer from three
  bits on (`DiceCost.TritCost`, `DiceCost.FewerBits`).
- The writer of FIBS records always writes 0 and 25 where the reader expects the
  non-Crawford and post-Crawford flags, and puts the Crawford flag into a field that
  the reader skips. A record that it writes is never read as a Crawford game
  (`FibsBoard.CrawfordForgotten`). Of two players on one point one is lost, so that a
  board comes back exactly when no point is shared (`FibsBoard.RoundTrip`).

## Where two parts of the code disagree

The analysis of a game and the statistics of the stored game do not count the same
records, and do not keep the same match state.

- The stored game turns the match state to the player of every double. So a take or a
  pass after an even number of doubles in a row is skipped by the analysis and counted
  by the stored game, and after an odd number both count it (`DoubleAnswers.TakeCounts`,
  `DoubleAnswers.DropCounts`, `DoubleAnswers.WalksAgree`). A take after an even number
  also leaves the two with different owners of the cube (`MatchStates.OwnersDiffer`).
- The analysis counts the luck of dice that were set and not played, and the stored game
  passes over them (`StatDifference.KeptAgrees`).
- The stored game counts the moves and decisions of players who were not to be analysed,
  and normal doubles without an answer.

When the two statistics of a game are equal, no record of these kinds is in it
(`TwoWalks.AgreeOnlyIf`). The converse holds when nothing follows a pass or a resignation,
a cube at its limit is not turned again, an even number of doubles is answered, and a take
of an even number is a judged one (`TwoWalks.AgreeExactly`): without that the different
owners of the cube could change later equities.

## Where the code does less than one might expect

- Of two normal doubles in a row the analysis drops the first. There are such doubles
  exactly when the cube has reached its limit of 4096 (`AnalyzeGame.AtTheLimit`,
  `AnalyzeGame.LostAtTheLimit`). Below it exactly beavers, raccoons and a run of doubles at
  the end are left out (`AnalyzeGame.LeftOut`).
- Without gammon data the plain lookup in memory also returns the first half of the next
  record, and for the last record it reads past the end; from the disk the second half is
  what the buffer held (`BearoffLookup.HalfRecord`, `BearoffLookup.PlainReadInside`).
- In the parser of moves two sums can overflow an int. The program decides a count wrongly
  exactly for -2147483648 and for up to four ranges of counts that depend on the points
  and the chain that have been read (`MoveGuard.CountExactly`); the texts
  `8/4(2147483647)` and `8/4(-2147483648)` are accepted
  (`MoveGuard.OverflowText`, `MoveGuard.UnderflowText`). The parser is modelled on the texts
  that are read without an overflow.
- The parser of moves takes steps in both directions, and chains whose first slash is
  missing (`MoveWritten.WrittenExactly`).
- A printed chain never ends where another one starts, for every move and not only
  for the moves of one roll (`MoveText.ChainsApart`).

## Model

| member | source | states |
|---|---|---|
| Combinatorics.ChooseAbsorb | gnubg/positionid.c:419-435 | the recurrence of the table gives binomial coefficients: r times C(n, r) is n times C(n-1, r-1) |
| Combinatorics.ChooseFits | gnubg/positionid.c:417 | no coefficient of row n exceeds 2 to the n, so rows up to 31 fit 32 bits |
| Combinatorics.CombinationTable.FillRow | gnubg/positionid.c:430-432 | one row is computed from the row before it and no other row changes |
| Combinatorics.CombinationTable.InitCombination | gnubg/positionid.c:419-435 | after the loops every entry is the binomial coefficient modulo 2 to the 32 |
| Combinatorics.CombinationTable.Combination | gnubg/positionid.c:437-446 | the cached lookup returns C(n, r) modulo 2 to the 32, whether or not the table was ready, and C(n, r) itself when n is at most 31 |
| PositionId.RankBounds | gnubg/positionid.c:448-474 | the number of a board lies between C(chequers+points-1, points) and C(chequers+points, points) |
| PositionId.RankInjective | gnubg/positionid.c:448-474 | different boards have different numbers |
| PositionId.RankSurjective | gnubg/positionid.c:476-509 | every number below C(points+chequers, points) is the number of a board |
| PositionId.RankRange | gnubg/positionid.c:458-474 | a board has at most c chequers if and only if its number is below C(points+c, points) |
| PositionId.RankOfBearOff | gnubg/bearoff.c:220 | bearing a chequer off lowers the number |
| PositionId.RankOfStep | gnubg/bearoff.c:220 | moving a chequer to a lower point lowers the number |
| PositionId.PositionFIsRank | gnubg/positionid.c:448-456 | the recursion over the bit pattern of a board gives its number |
| PositionId.PositionFOfInv | gnubg/positionid.c:476-489 | the recursion that inverts it gives a pattern with the right number of bits that ranks back to the number |
| PositionId.BuildBits | gnubg/positionid.c:461-471 | the loop sets exactly the bits that mark the points |
| PositionId.PositionBearoff | gnubg/positionid.c:458-474 | on words without a bound, the result is the board's number and in range |
| PositionId.PositionIndex | gnubg/positionid.c:511-530 | the same for g points, and the result fits 16 bits |
| PositionId.ScanBits | gnubg/positionid.c:500-508 | the scan of the pattern rebuilds a board with that pattern |
| PositionId.PositionFromBearoff | gnubg/positionid.c:491-509 | on words without a bound, the decoded board has the given number and at most the given number of chequers, and points beyond it do not change |
| PositionWords.WordsFit | gnubg/positionid.c:461-471 | with at most 32 points and chequers the pattern of a board and its number fit words of 32 bits |
| PositionWords.RankBits | gnubg/positionid.c:448-456 | the recursion with the 32-bit coefficients of the table gives the rank of a pattern of up to 32 bits |
| PositionWords.UnrankBits | gnubg/positionid.c:476-489 | the same for the recursion that inverts it |
| PositionWords.WordOfPosition | gnubg/positionid.c:458-474 | with at most 32 points and chequers the coder on words gives the board's number |
| PositionWords.PositionOfWord | gnubg/positionid.c:491-509 | and the decoder on words gives the board with a number |
| Bearoff.StackToIsTallest | gnubg/bearoff.c:176-181 | the search for a stack to fill an empty point finds one when there is one, and takes the tallest, the first of equals |
| Bearoff.LargestToIsBest | gnubg/bearoff.c:185-190 | the last search finds a point that no other point beats by height or, at equal height, by an emptier destination |
| Bearoff.ChoosePointIsLegal | gnubg/bearoff.c:150-195 | on a board that is not empty a point is always found, holds a chequer, and playing the die from it is a legal bearoff step |
| Bearoff.StepPips | gnubg/bearoff.c:195-199 | a step lowers the pip count by the die, or by the distance off the board |
| Bearoff.StepRank | gnubg/bearoff.c:195-199 | a step keeps the number of chequers or takes one off, and always lowers the number of the board |
| Bearoff.PlayDiceIsLegal | gnubg/bearoff.c:140-200 | the whole play is a sequence of legal steps, one for each die until the board is empty |
| Bearoff.LegalPlayProgress | gnubg/bearoff.c:140-202 | any legal play adds no chequer, takes off at most one for each die, loses at least one pip for each die unless the board gets empty, and lowers the number |
| Bearoff.PlayProgress | gnubg/bearoff.c:220 | a roll takes at most four chequers off and lowers the number of every board that is not empty |
| Bearoff.HighestPoint | gnubg/bearoff.c:141-144 | the loop finds the highest occupied point, or point 0 |
| Bearoff.PickPoint | gnubg/bearoff.c:150-193 | the branches and loops choose the point of the specification |
| Bearoff.MoveChequer | gnubg/bearoff.c:195-199 | the board after one die |
| Bearoff.PlayInPlace | gnubg/bearoff.c:140-200 | the loop over the dice plays them in place |
| Bearoff.HeuristicBearoff | gnubg/bearoff.c:118-203 | the board becomes the one after the play, and its number is returned and in range |
| BearoffChoice.ChoiceExactly | gnubg/bearoff.c:150-193 | a point is the one that is played exactly when it is the preferred one: the exact point; or the highest chequer when the die reaches beyond it; or, for the least number of further dice, a point that this die and they bear off exactly together; or else, over the points that the die can be played from, the tallest stack of at least two with an empty destination (the lowest such point); or else the tallest stack (of these the one with the fewest on its destination) |
| BearoffChoice.RollPlays | gnubg/bearoff.c:119-199 | the board after a roll is the one that preferred plays of four dice reach for a double and of two dice for two different numbers, the higher one first, and no other board is |
| BearoffChoice.RollIsLegal | gnubg/bearoff.c:119-199 | a double is a legal play of its number four times, and another roll of its two numbers |
| Bearoff.PositionCount | gnubg/bearoff.c:241 | the 54264 rows are C(21, 6) |
| BearoffTable.Over36IsSquareSum | gnubg/bearoff.c:215-229 | the weighted sum over the 21 distinct rolls is the sum over all 36 outcomes of two dice |
| BearoffTable.AverageFits | gnubg/bearoff.c:231-235 | every rounded average is at most 65535, so the truncation to 16 bits loses nothing |
| BearoffTable.TableStable | gnubg/bearoff.c:253-257 | a row is final once it is written |
| BearoffTable.RowRecurrenceLoops | gnubg/bearoff.c:215-235 | column 0 is 0 and column k+1 is the rounded 36th of the weighted sum of column k after the best play |
| BearoffTable.RowRecurrence | gnubg/bearoff.c:205-236 | the same as the average over the 36 outcomes, with all entries within 16 bits |
| BearoffFill.PlayPosition | gnubg/bearoff.c:217-220 | decoding and playing reaches a position with a lower number, which the strategy names |
| BearoffFill.Accumulate | gnubg/bearoff.c:222-228 | the finished row is added one column up, twice for a roll that is no double |
| BearoffFill.AddFaces | gnubg/bearoff.c:215-229 | the loops over the rolls up to a face add up the weighted columns |
| BearoffFill.SumRolls | gnubg/bearoff.c:212-229 | after the loops every column holds the weighted sum over all rolls |
| BearoffFill.StoreRow | gnubg/bearoff.c:231-235 | the rounded row is stored as two bytes a column and nothing outside its 64 bytes changes |
| BearoffFill.GenerateBearoff | gnubg/bearoff.c:205-236 | one row is computed from rows that are final and all of those stay |
| BearoffFill.FillRows | gnubg/bearoff.c:253-257 | after the loop over the first n rows each of them is the row of the recurrence |
| BearoffFill.HeuristicDatabase | gnubg/bearoff.c:238-260 | the bytes hold, for every position, the row of the recurrence with the heuristic as its strategy |
| BearoffMass.Drift | gnubg/bearoff.c:215-235 | 36 times a row's mass differs from the successors' mass, less what falls off column 31, by at most 31 times 18 |
| BearoffMass.MassUpperBound | gnubg/bearoff.c:215-235 | twice the mass of a row is at most 131070 plus 31 times its depth |
| BearoffMass.MassLowerBound | gnubg/bearoff.c:215-235 | while nothing can fall off, twice the mass is at least 131070 less 30 times the depth |
| BearoffMass.NothingLate | gnubg/bearoff.c:222-228 | a position that is surely finished after n rolls has nothing in later columns |
| BearoffMass.NothingEarly | gnubg/bearoff.c:222-228 | column k is 0 while four times k is less than the number of chequers |
| BearoffMass.HeuristicFinishes | gnubg/bearoff.c:118-203 | the heuristic finishes within half the pip count, rounded up |
| BearoffMass.HeuristicMass | gnubg/bearoff.c:205-260 | both bounds on the mass, with half the pip count as the depth |
| BearoffLookup.CopyBytes | gnubg/bearoff.c:1047-1062 | the words of the two windows land at their offsets, gammon words over others where a window runs over, and all other words are 0 |
| BearoffLookup.WithinIsInside | gnubg/bearoff.c:1095-1105 | of the index entries that pass the check, exactly those with a gammon window inside its half are copied inside the 64 words |
| BearoffLookup.ReadEntry | gnubg/bearoff.c:1075-1094 | the index entry is decoded, with empty gammon windows for a file without gammons |
| BearoffLookup.GetDistCompressed | gnubg/bearoff.c:1064-1132 | the lookup spreads the words that the entry points to |
| BearoffLookup.GetDistUncompressed | gnubg/bearoff.c:1134-1159 | the lookup returns the 64 words from the record's place on, in memory or in the buffer that was read from the disk, whatever the file does not hold |
| BearoffLookup.UncompressedReads | gnubg/bearoff.c:1134-1159 | in a plain file with gammon data every distribution is found |
| BearoffLookup.CompressedReads | gnubg/bearoff.c:1064-1132 | in a compressed file, with gammon data or without, the source's checks pass for every position and its distribution is rebuilt, with zeros for the gammon data that is not there |
| BearoffLookup.LookupsAgree | gnubg/bearoff.c:1047-1159 | for every database with gammon data both lookups return the same 64 words for every position |
| BearoffLookup.PlainLookupRunsOn | gnubg/bearoff.c:1143-1155 | without gammon data the second half of the result is the first half of the next record |
| BearoffLookup.PlainReadInside | gnubg/bearoff.c:1143-1155 | the plain lookup reads inside the file if and only if it has gammon data or the record is not the last |
| BearoffLookup.WholeRecord | gnubg/bearoff.c:1143-1155 | with gammon data both branches return the record, whatever is behind the file |
| BearoffLookup.HalfRecord | gnubg/bearoff.c:1143-1155 | without gammon data the second half is in memory the next record, or for the last one what follows the file, and from the disk what the buffer held |
| BearoffGammon.InfoConstants | gnubg/bearoffgammon.c:7083-7210 | the bases and sizes of the table groups are C(14, g) and C(14, g-1), the values 91, 14, 364, 91, 1001, 364, 2002 and 1001 |
| BearoffGammon.RaceConstants | gnubg/bearoffgammon.c:7258-7818 | the lengths of the race tables are C(6, g) |
| BearoffGammon.CollectGroup | gnubg/bearoffgammon.c:7222-7225 | the loop computes the set of occupied points and the number of chequers |
| BearoffGammon.GroupAndSquash | gnubg/bearoffgammon.c:7233-7245 | the occupied points are collected in order, each with one chequer less |
| BearoffGammon.OffsetInRange | gnubg/bearoffgammon.c:7247-7250 | with all 15 chequers on a fixed set of points the index is at least the base, and the difference is below the size |
| BearoffGammon.OffsetInjective | gnubg/bearoffgammon.c:7247-7252 | different boards of a group look up different entries |
| BearoffGammon.OffsetSurjective | gnubg/bearoffgammon.c:7247-7252 | every entry of a group's table is looked up by a board |
| BearoffGammon.GetBearoffGammonProbs | gnubg/bearoffgammon.c:7215-7254 | the default is returned exactly for groups without a table; otherwise the offset is the board's and in range |
| BearoffGammon.RaceIndexInRange | gnubg/bearoffgammon.c:7819-7853 | one to six chequers on g of five points give an index below the table length |
| BearoffGammon.RaceIndexInjective | gnubg/bearoffgammon.c:7819-7853 | different boards of a group give different indexes |
| BearoffGammon.RaceIndexSurjective | gnubg/bearoffgammon.c:7819-7853 | every index of a table is used |
| BearoffGammon.GetRaceBGprobs | gnubg/bearoffgammon.c:7819-7853 | nothing is found exactly for more than six chequers; otherwise the group and the index are the board's and in range |
| Moves.SortSorts | gnubg/drawboard.c:561-582 | sorting by the comparison gives a sorted rearrangement |
| Moves.SortUnique | gnubg/drawboard.c:561-582 | sorted rearrangements are unique, so any sorting routine gives the same list |
| MoveChains.JoinAllKeeps | gnubg/drawboard.c:609-621 | joining chains keeps departures and arrivals at every point and the points hit, and leaves no chain that ends where another one starts |
| MoveChains.JoinedKeeps | gnubg/drawboard.c:609-621 | the same for the whole of the double loop |
| MoveChains.GroupsKeep | gnubg/drawboard.c:639-663 | collapsing equal chains into a count keeps the effect when the counts are expanded |
| MoveText.GroupsOfMove | gnubg/drawboard.c:584-680 | the printed groups have the effect of the move, and no more steps than it |
| MoveText.ChainsApart | gnubg/drawboard.c:609-710 | no printed chain ends where a printed chain starts |
| MoveLength.OneRollLength | gnubg/drawboard.h:31-34 | a move of one roll, with at most two steps or all steps by the same die apart from bearing off, has at most 28 characters |
| MoveLength.LengthBounds | gnubg/drawboard.h:31-34 | a formatted move has at most 31 characters |
| MoveLength.ApartLength | gnubg/drawboard.c:682-710 | four steps apart print as their points, a slash each, a star for each point hit and three blanks |
| MoveLength.TooLongExactly | gnubg/drawboard.h:31-34 | a formatted move has more than 28 characters if and only if it has four steps, pairwise different and none going on from another, with more than 21 characters for points and stars |
| MoveLength.LongMove | gnubg/drawboard.h:31-34 | four entries that hit four blots print as 31 characters, and no roll makes them |
| MoveLength.SuchMove | gnubg/drawboard.h:31-34 | there are such blots and steps |
| MoveFormat.LoadMove | gnubg/drawboard.c:593-607 | the cells hold the steps in order, then nulls |
| MoveFormat.SortRows | gnubg/drawboard.c:606-607 | the rows are sorted |
| MoveFormat.JoinSlots | gnubg/drawboard.c:612-621 | following the pointers, one round of the inner loop joins two chains as specified, even where it writes past its row |
| MoveFormat.JoinMoves | gnubg/drawboard.c:609-621 | after the double loop the pointers show the joined chains |
| MoveFormat.CompactChains | gnubg/drawboard.c:623-640 | the chains are moved together in order and counted once |
| MoveFormat.CountDuplicates | gnubg/drawboard.c:639-680 | equal chains are counted and cleared, and the rest lists the groups |
| MoveFormat.PrintGroup | gnubg/drawboard.c:686-707 | one group is printed, with stars for points hit that had no star yet |
| MoveFormat.PrintGroups | gnubg/drawboard.c:682-710 | the groups are printed with blanks between them |
| MoveFormat.FormatMove | gnubg/drawboard.c:584-713 | the printed text is the text of the groups of the move |
| MoveReader.RepeatChain | gnubg/drawboard.c:794-838 | within the guard, with the check for room on wrapped 32-bit numbers, a count repeats the chain before it, or fails as the source does |
| MoveReader.ReadToken | gnubg/drawboard.c:722-845 | within the guard, with the count less one wrapped to 32 bits, one round of the loop reads one item of the text, or fails as the source does |
| MoveReader.ReadPoints | gnubg/drawboard.c:722-851 | the loop reads the whole text |
| MoveReader.PairPoints | gnubg/drawboard.c:853-894 | the points become pairs, the end of a joined step also the start of the next, or fail as the source does |
| MoveReader.SortPairs | gnubg/drawboard.c:581 | the pairs are sorted and the rest stays |
| MoveReader.CanonicalMoveOrder | gnubg/drawboard.c:573-582 | the pairs before the first negative source are sorted and the rest stays |
| MoveReader.ParseMove | gnubg/drawboard.c:715-899 | for every text that is read without an overflow and without a step over its end, the result and the array are those of the specification: failure exactly when the text has no meaning, otherwise the sorted steps, their number, and an end mark |
| MoveWritten.ParseExactly | gnubg/drawboard.c:715-899 | a text without a bracket is read as m exactly when it is written in names of points with gaps before, between and after them (decimal numbers, `-`, `o`, `of` or `off` for 0, and `b`, `ba` or `bar` for 25, in either case), no number is above 25, at most one slash stands in a gap and none before the first or after the last name, the points are chains of at most four steps that neither start off the board nor come to the bar, and m is these steps in order; such a text is read safely |
| MoveWritten.WrittenExactly | gnubg/drawboard.c:715-899 | the same for given names and gaps: which slashes are needed is decided by the chains, the one of a first step may be missing |
| MoveWritten.ListExactly | gnubg/drawboard.c:715-899 | a list of steps, each written as two names with a slash between and separated by blanks or commas, is read exactly when it has at most four steps, each from 1 to 25 and to 0 to 24; it is read as these steps, higher sources first and then higher destinations |
| MoveCounts.CountRepeats | gnubg/drawboard.c:794-838 | a count of two or more after a text is read like the last chain of the text written that many times, whatever follows; a smaller count is refused |
| MoveCounts.CountNeedsChain | gnubg/drawboard.c:802-813 | a count is refused when fewer than two points stand before it or a slash stands right before it |
| MoveGuard.CheckWithin | gnubg/drawboard.c:825 | when the number of points fits an int the check for room is the one on unbounded numbers |
| MoveGuard.CountExactly | gnubg/drawboard.c:795-829 | the program decides a count rightly if and only if no chain can be repeated, or the count is not -2147483648 and in none of four ranges given by the points and the length of the chain |
| MoveGuard.CountsWrap | gnubg/drawboard.c:825 | those ranges are the counts for which the number of points wraps around to at most 8 |
| MoveGuard.LeastCount | gnubg/drawboard.c:795-829 | -2147483648 is accepted for every chain, and has no meaning |
| MoveGuard.OverflowText | gnubg/drawboard.c:794-829 | at the text 8/4(2147483647) the check overflows and passes, although there is no room |
| MoveGuard.UnderflowText | gnubg/drawboard.c:795-829 | at the text 8/4(-2147483648) the count less one overflows and is accepted, although it has no meaning |
| MoveGuard.LongMatters | gnubg/drawboard.c:733 | a long of 64 bits gives the same number for all numbers that fit an int, and another one for 4294967300 |
| MoveGuard.ClosedIsSafe | gnubg/drawboard.c:794-845 | a text whose counts are small and closed is read safely |
| MoveRoundTrip.ParseText | gnubg/drawboard.c:715-899 | the text of any groups of at most four steps is parsed to their expansion, sorted |
| MoveRoundTrip.RoundTrip | gnubg/drawboard.c:584-899 | for every move of at most four steps, parsing its formatted text succeeds and gives a sorted list with the same departures and arrivals at every point and the same points hit |
| MoveRoundTrip.StarsAreHits | gnubg/drawboard.c:688-701 | the points with a star in the text are exactly the points hit |
| MoveRoundTrip.GroupsInOrder | gnubg/drawboard.c:597-712 | the printed groups are different chains of two or more points, the later ones do not start higher, and between the ends of a chain stand only points that are hit |
| FibsText.CopyName | gnubg/drawboard.c:924-928 | a name is copied with every separator replaced |
| FibsText.WriteRecord | gnubg/drawboard.c:921-956 | the text of the record: its first word, the two names and the numbers, with colons between them |
| FibsText.RecordSplits | gnubg/drawboard.c:921-956 | the text splits at its colons into the first word, the copied names and the numbers, which read back; no name can break it |
| FibsBoard.WritePoints | gnubg/drawboard.c:936-939 | the 24 points, with the opponent's chequers negative |
| FibsBoard.CountOff | gnubg/drawboard.c:947-951 | the chequers each side has borne off |
| FibsBoard.FIBSBoard | gnubg/drawboard.c:912-959 | the text of the record with the copied names, and its numbers in the order in which the reader takes them |
| FibsBoard.FieldsDetermined | gnubg/drawboard.c:912-959 | the position determines every number of the record |
| FibsBoard.OppOnTurnIsProduct | gnubg/drawboard.c:1038-1056 | the opponent is on turn when the product of turn and colour is negative |
| FibsBoard.ProcessedFIBSBoard.ReadScores | gnubg/drawboard.c:997-1018 | an impossible score is refused; the match length and the scores are clamped |
| FibsBoard.ProcessedFIBSBoard.ReadBoard | gnubg/drawboard.c:1058-1081 | both sides' points and bars, as seen by the player on turn |
| FibsBoard.ProcessedFIBSBoard.SwapSides | gnubg/drawboard.c:1083-1085 | the two sides change places |
| FibsBoard.ProcessedFIBSBoard.FinishFlags | gnubg/drawboard.c:1087-1128 | the dice, the Crawford flag and the owner of the cube |
| FibsBoard.ProcessedFIBSBoard.SettleSides | gnubg/drawboard.c:1033-1052 | scores, cube flags and names change sides exactly when just one of the two reasons holds |
| FibsBoard.ProcessedFIBSBoard.Process | gnubg/drawboard.c:961-1133 | the reader accepts exactly the records with a possible score, a turn, a colour and a direction, fills in the specified position, clears the resignation, and exchanges the names in its input when the sides are exchanged |
| FibsLaws.TakenExactly | gnubg/drawboard.c:995-1024 | a record is taken exactly when neither score has reached the length of a limited match and its turn, colour and direction are not 0 |
| FibsLaws.CrawfordExactly | gnubg/drawboard.c:1114-1126 | the Crawford flag is 1 exactly when the match is limited, one of the players needs one point by the length and scores of the record, and its non-Crawford and post-Crawford flags are both 0 |
| FibsLaws.DiceExactly | gnubg/drawboard.c:1087-1090 | the dice are those of the player in the record, or the opponent's when the player's first is 0 and the opponent's is not |
| FibsLaws.CubeExactly | gnubg/drawboard.c:1033-1128 | the cube, whether it was turned, and who owns it, on the numbers of the record |
| FibsLaws.SidesExactly | gnubg/drawboard.c:1006-1052 | names, scores and length of the two players, exchanged when the opponent is on turn, on the numbers of the record |
| FibsLaws.BoardExactly | gnubg/drawboard.c:1054-1086 | how many chequers each side has on each point and on the bar, by the sign and the place of the numbers of the record |
| FibsBoard.WrittenAccepted | gnubg/drawboard.c:997-1024 | a written record is accepted exactly when the match is unlimited or longer than both scores |
| FibsBoard.RoundTrip | gnubg/drawboard.c:912-1131 | reading a written record keeps scores, copied names and cube owner, or moves all of them to the other side, which happens exactly when just one of "opponent on turn" and "cube turned" holds; the board follows them if and only if no point is shared |
| FibsBoard.CrawfordForgotten | gnubg/drawboard.c:953-954 | a written record is never read as a Crawford game |
| FibsBoard.ColoursDoNotMatter | gnubg/drawboard.c:1036-1081 | negating colour, turn and all board entries changes nothing |
| FibsBoard.DirectionDoesNotMatter | gnubg/drawboard.c:1054-1081 | reversing direction and board order changes nothing |
| FibsBoard.LongMatch | gnubg/drawboard.c:1000-1018 | a match that is too long is cut to 64, and each player needs the smaller of the old need and 64; scores stay between 0 and the length |
| Statistics.CubeSound | gnubg/analysis.c:344-544 | one record adds cube counts that agree with each other |
| Statistics.MovesSound | gnubg/analysis.c:399-443 | one record adds as many moves as skills, and an unforced move only with a move |
| Statistics.DeltaBalanced | gnubg/analysis.c:383-394 | the luck of a record moves the adjusted results of the players by opposite amounts |
| Statistics.RunConsistent | gnubg/analysis.c:291-576 | over every run skills sum to the moves, the counts of cube decisions are ordered, errors never exceed their decisions, results cancel, and the adjusted result is the result less own luck plus the other's |
| Statistics.BalancedCancels | gnubg/analysis.c:383-394 | the adjusted results of the two players cancel |
| Ledger.ErrorsExactly | gnubg/analysis.c:335-555 | a cube decision that is judged adds its shortfall against the best decision, and what that is worth, to the kind of its error and to nothing else, and counts an error exactly when there is one; the split is at a take above 1 for a missed double, and at no double above 1 for a wrong one; any other record adds no cube error |
| Ledger.CountsExactly | gnubg/analysis.c:335-555 | which decisions are counted: close ones are doubles and answers, and where there was no double those with the optimum less than 0.16 above both the take and 1 |
| Ledger.SkillExactly | gnubg/analysis.c:265-276 | for thresholds in order, the skill of a move by the range that its loss lies in |
| Ledger.CostExactly | gnubg/analysis.c:430-430 | what an equity costs: it times the cube for money, and times half the difference between winning and losing in a match |
| Ledger.MoveExactly | gnubg/analysis.c:398-443 | an analysed move adds what its first candidate falls short of the best, if there was a choice, and counts in the class of that loss |
| Ledger.LuckExactly | gnubg/analysis.c:380-395 | luck is added to the roller, and its worth moves from the roller's adjusted result to the other |
| MatchStates.AfterDoublesIs | gnubg/play.c:260-279 | after n doubles in a row the next one is on turn, and the player on move is the first doubler for the analysis and the last one for stored games |
| MatchStates.AfterDoubles | gnubg/analysis.c:1597-1604 | after an odd number of doubles both walks are in the same state; after an even number the stored game has the other player on move, the board turned and the cube on the other side |
| MatchStates.OwnersDiffer | gnubg/play.c:281-290 | after a take of an even number of doubles the two walks have different owners of the cube |
| MatchStates.CubeAlike | gnubg/play.c:217-368 | whether a double is pending, and the value of the cube, are the same for both walks in every game |
| MatchStates.GameStarts | gnubg/play.c:239-258 | a game starts in the same state for both walks, whatever the state before it |
| MatchStates.KindAtAnswer | gnubg/eval.h:218-233 | when n doubles are answered, the kind of double that could come next is a raccoon exactly for the analysis after an even number, and otherwise a beaver |
| DoubleAnswers.TakeCounts | gnubg/analysis.c:488-517 | the analysis counts a judged take of a player who is analysed after n doubles if and only if n is odd; the statistics of a stored game count it always |
| DoubleAnswers.DropCounts | gnubg/analysis.c:784-801 | the same for a pass |
| DoubleAnswers.DoubleCounts | gnubg/analysis.c:447-486 | of n doubles in a row exactly the first one counts |
| DoubleAnswers.WalksAgree | gnubg/analysis.c:760-801 | the two do the same with a take or a pass, in counts, errors and costs, if and only if it is not judged, or its player is analysed and it answers an odd number of doubles |
| StatisticsMatch.FoldPermuted | gnubg/analysis.c:335-567 | records may be added in any order |
| StatisticsMatch.RunPermuted | gnubg/analysis.c:335-567 | the statistics of a game are the same for every order in which the tasks run |
| StatisticsMatch.TasksPermuted | gnubg/analysis.c:914-930 | the statistics are the same for every order of tasks that each hold several records in an order of their own |
| StatisticsMatch.CostNegative | gnubg/analysis.c:357-360 | with a win worth more than a loss, losing equity costs winning chances or points |
| StatisticsMatch.RunPaid | gnubg/analysis.c:344-544 | at such stakes a kind of cube error has cost something, in equity and at the stakes, exactly when it was made |
| StatisticsMatch.GameConsistent | gnubg/analysis.c:305-333 | the game record starts a consistent run |
| StatisticsMatch.GamePaid | gnubg/analysis.c:305-544 | the same for the cost of errors |
| StatisticsMatch.BalancedHasResult | gnubg/analysis.c:1093 | results that cancel always pass the test for a calculated result |
| StatisticsMatch.AddedConsistent | gnubg/analysis.c:1040-1109 | adding a game keeps the match consistent |
| StatisticsMatch.MatchSumsUp | gnubg/analysis.c:1040-1109 | after any games the match holds the sums and exactly the sample variances of their results and adjusted results, and is consistent |
| Variance.DeviationsAboutMean | gnubg/analysis.c:1028-1035 | moving the centre away from the mean adds n times the square of the move |
| Variance.StepIsVariance | gnubg/analysis.c:1015-1038 | one step of the recurrence turns the sample variance of a list into that of the list with one more value |
| Variance.UpdateVariance | gnubg/analysis.c:1015-1038 | the same for the program, for every list with that sum, size and variance |
| StatContext.FindSkill | gnubg/analysis.c:417-427 | the loss of the first candidate with the key of the move, and 0 when there is none |
| StatContext.StatContext.Ini | gnubg/analysis.c:1227-1283 | all entries are zero |
| StatContext.StatContext.CountNoDouble | gnubg/analysis.c:337-374 | the entries for a decision not to double |
| StatContext.StatContext.CountDouble | gnubg/analysis.c:447-486 | the entries for a double |
| StatContext.StatContext.CountTake | gnubg/analysis.c:488-517 | the entries for a take |
| StatContext.StatContext.CountDrop | gnubg/analysis.c:519-544 | the entries for a pass |
| StatContext.StatContext.CountLuck | gnubg/analysis.c:380-394 | the entries for a roll, of both players |
| StatContext.StatContext.CountMove | gnubg/analysis.c:398-443 | the entries for a move |
| StatContext.StatContext.SetResult | gnubg/analysis.c:305-333 | the result of the game for both players |
| StatContext.StatContext.Update | gnubg/analysis.c:291-576 | a record adds exactly its entries, and the game record sets the results |
| StatContext.StatContext.AnalyzeMove | gnubg/analysis.c:576-905 | the match state is fixed, turned to the player of a move, a resignation or set dice, and advanced; the record is counted in that state unless its player is not analysed, it is no normal double, or it answers an even number of doubles |
| StatContext.StatContext.AddResult | gnubg/analysis.c:1096-1104 | result, adjusted result and variances of one player |
| StatContext.StatContext.Add | gnubg/analysis.c:1040-1109 | the whole context after one more game |
| StatContext.StatContext.UpdateStatisticsMove | gnubg/analysis.c:1579-1626 | the match state is fixed, turned to the player of a move or a double, and advanced; the record is counted in that state unless it is of a kind that is skipped |
| StatContext.StatContext.UpdateStatisticsGame | gnubg/analysis.c:1630-1649 | the context is the fold of the game's records, each in the state that the records before it lead to, and consistent |
| StatisticsMatch.GameIsSettled | gnubg/analysis.c:305-331 | after a game that has a winner the winner's result is the gain in a match and the points for money, and the loser's is its negative; without a winner both are 0 |
| StatContext.StatContext.UpdateStatisticsMatch | gnubg/analysis.c:1655-1677 | every game gets its own context, with the statistics of its records; the match sums them up, and its results and their sample variances are those of the games' results |
| StatisticsMatch.ResultsOfGames | gnubg/analysis.c:305-333 | the results that the match sums up are those of the records that open its games |
| StatisticsMatch.ResultsAreWon | gnubg/analysis.c:305-331 | the match result of a player is the sum of the games won minus the sum of the games lost, in gains or points of the records that open them |
| StatisticsMatch.MatchOfGames | gnubg/analysis.c:1655-1677 | results, sample variances and consistency of the match of any games |
| StatDifference.KeptAgrees | gnubg/analysis.c:1583-1615 | the records of a walk that the stored game keeps give the statistics of all of them if and only if no dice with known luck were set and not played |
| StatDifference.KeptDiffers | gnubg/analysis.c:1583-1615 | they have counted exactly as many rolls fewer as there are such dice |
| StatDifference.DiceSetAndNotPlayed | gnubg/analysis.c:546-568 | one such record is enough |
| TwoWalks.PairedNext | gnubg/analysis.c:1594-1615 | record after record the two walks are in the same state, but for an even number of pending doubles |
| TwoWalks.CubeShows | gnubg/analysis.c:760-801 | the stored game counts a cube decision that the analysis does not exactly at a judged decision of a player who is not analysed, a judged answer to an even number of doubles, and a judged normal double without an answer; the converse never happens |
| TwoWalks.MoveShows | gnubg/analysis.c:604-605 | it counts a move that the analysis does not exactly when its player is not analysed; and otherwise the analysis counts one roll more exactly at dice of known luck that were set |
| TwoWalks.GatheredIs | gnubg/analysis.c:914-930 | in whatever order the tasks run, the analysis gathers the records of the list that it submits and counts, one after the other |
| TwoWalks.AgreeOnlyIf | gnubg/analysis.c:1579-1649 | two equal statistics of a game mean that no record differs |
| TwoWalks.AgreeExactly | gnubg/analysis.c:1579-1649 | in a regular game, with takes of an even number of doubles judged, the analysis and the stored game give the same statistics if and only if no record differs |
| AnalyzeGame.AnalyseMoveMT | gnubg/analysis.c:914-930 | a task analyses its own record and then the linked one |
| AnalyzeGame.Next | gnubg/analysis.c:991-997 | the match state after one more record |
| AnalyzeGame.OneRecord | gnubg/analysis.c:963-989 | one turn of the loop: a normal double waits, any other record is submitted with the double that waits, and submitted tasks never change again |
| AnalyzeGame.AnalyzeGame | gnubg/analysis.c:932-999 | the queue is the list of tasks of the specification, each job with the match state of the records before it |
| AnalyzeGame.TasksInOrder | gnubg/analysis.c:953-998 | which records are analysed, and in which order, depends only on which are doubles and normal doubles |
| AnalysisOrder.JobsInOrder | gnubg/analysis.c:953-998 | one after the other the tasks hold the jobs of the analysed records, in order |
| AnalysisOrder.AnyOrder | gnubg/analysis.c:914-930 | in whatever order the tasks of the queue run, the statistics are the fold over the records that are analysed and counted, in the order of the list |
| Linking.DoubleBeforeIs | gnubg/analysis.c:974-989 | a record answers the last normal double with only other doubles between them |
| Linking.InOrder | gnubg/analysis.c:953-998 | records are analysed in the order of the list, none of them twice |
| Linking.Exactly | gnubg/analysis.c:953-998 | a record is analysed if and only if it is no double or is a double with an answer |
| Linking.UnlessLast | gnubg/analysis.c:974-989 | when normal doubles are separated, only beavers, raccoons and doubles followed by nothing else are left out |
| Linking.EarlierDoubleLost | gnubg/analysis.c:963-989 | the earlier of two normal doubles in a row is not analysed |
| AnalyzeGame.BelowTheLimit | gnubg/play.c:265-277 | while the cube is below its limit at normal doubles there is another kind of record between any two of them |
| AnalyzeGame.LeftOut | gnubg/analysis.c:974-989 | then a record is analysed if and only if it is no double, or a normal one that is not followed by doubles only |
| AnalyzeGame.AtTheLimit | gnubg/play.c:268-269 | a double right after a normal one is normal if and only if the cube had reached its limit, and then the earlier of the two is not analysed |
| AnalyzeGame.LostAtTheLimit | gnubg/analysis.c:974-984 | such a list: a cube at its limit and two doubles |
| FileFormats.FirstStops | gnubg/file.c:174-199 | a scan ends at the first character that stops it, the end of the file at the latest |
| FileHelper.FileHelper.DataGetChar | gnubg/file.c:139-158 | after the call the byte at the cursor is in the buffer, which shows the first 5120 bytes of the file and terminators after them |
| FileHelper.FileHelper.PeekNextChar | gnubg/file.c:160-165 | the byte of the file at the cursor |
| FileHelper.FileHelper.ReadNextChar | gnubg/file.c:167-172 | the same, and the cursor moves on |
| FileHelper.FileHelper.SkipWS | gnubg/file.c:181-186 | the cursor moves to the first character that is no blank |
| FileHelper.FileHelper.SkipToEOL | gnubg/file.c:188-199 | the cursor moves over the end of the line, and the result tells whether there is one |
| FileHelper.FileHelper.ReadString | gnubg/file.c:201-222 | true exactly when the word is there; then the cursor is behind it |
| FileHelper.FileHelper.PeekStringNC | gnubg/file.c:224-239 | the same without moving |
| FileHelper.FileHelper.ReadNumber | gnubg/file.c:241-253 | the cursor moves over the digits, and the result tells whether there are any |
| FileHelper.FileHelper.ReadAnyAlphNumString | gnubg/file.c:255-267 | the cursor moves over a name, and the result tells whether a blank follows |
| FileHelper.FileHelper.IsSGFFile | gnubg/file.c:269-283 | the verdict is a function of the first 5120 bytes, whatever was read before |
| FileHelper.FileHelper.IsSGGFile | gnubg/file.c:285-300 | the same |
| FileHelper.FileHelper.IsTXTFile | gnubg/file.c:354-365 | the same |
| FileHelper.FileHelper.IsMATFile | gnubg/file.c:302-332 | the same, line after line, and the loop ends |
| FileHelper.FileHelper.IsTMGFile | gnubg/file.c:334-352 | the same, line after line, and the loop ends |
| FileHelper.FileHelper.IsJFPFile | gnubg/file.c:367-382 | the same |
| FileHelper.FileHelper.IsGAMFile | gnubg/file.c:384-399 | the same |
| FileHelper.FileHelper.IsPARFile | gnubg/file.c:401-414 | the same |
| FileHelper.FileHelper.IsBGRFile | gnubg/file.c:416-431 | the same |
| FileHelper.ReadFilePreview | gnubg/file.c:433-465 | the type is the first in the chain whose recogniser accepts the first 5120 bytes |
| FileLanguages.SgfExactly | gnubg/file.c:270-283 | the texts accepted: `(`, `;`, `FF`, `[`, `4`, `]`, `GM`, `[`, `6`, `]` in this order, with blanks before each |
| FileLanguages.SggExactly | gnubg/file.c:286-300 | the texts accepted: a name, `vs.` and a name, with a blank after each name |
| FileLanguages.TxtExactly | gnubg/file.c:355-365 | the texts accepted: a number, a semicolon, a number and a semicolon |
| FileLanguages.JfpExactly | gnubg/file.c:368-382 | the files accepted: a byte from 124 to 126, with a zero byte or nothing after it |
| FileLanguages.GamExactly | gnubg/file.c:385-399 | the texts accepted: two names with a blank after each, and `1)` |
| FileLanguages.ParExactly | gnubg/file.c:402-414 | the texts accepted: `boardid=` in either case and a line, and `creator=` at the start of the next line |
| FileLanguages.BgrExactly | gnubg/file.c:417-431 | the texts accepted: `bgf version` in either case, after blanks |
| FileLines.MatExactly | gnubg/file.c:303-332 | the texts accepted: any number of ignored lines, and then a comment in brackets or the length of the match |
| FileLines.TmgExactly | gnubg/file.c:335-352 | the texts accepted: any number of lines with a name or nothing in front of a colon, and then the number of a game with a colon after it |
| FileLines.PreviewExactly | gnubg/file.c:434-465 | the type of any file by its first 5120 bytes: the first of the nine languages, in the order of the source, that they are in |
| FileOverlap.OnlyOverlaps | gnubg/file.c:269-431 | two recognisers that accept the same file are the match recogniser with one of six others, or the recognisers of empire and room files |
| FileOverlap.PreviewAccepts | gnubg/file.c:444-461 | a type is found if and only if some recogniser accepts, it is one that accepts, and which others could accept as well |
| Tokenizer.SkipSpaces | gnubg/gnubg.c:670-672 | the position of the first character that is no blank |
| Tokenizer.ReadChar | gnubg/gnubg.c:680-741 | one round of the loop consumes one or two characters as specified |
| Tokenizer.ScanToken | gnubg/gnubg.c:674-742 | the token is written in place; the write position never passes the read position and the text that was not read stays |
| Tokenizer.NextTokenGeneral | gnubg/gnubg.c:652-757 | a call returns the first of the remaining tokens and leaves the others in the unread text, which does not change |
| Tokenizer.TokensAreWords | gnubg/gnubg.c:759-777 | without double quotes and backslashes the tokens are exactly the words |
| Tokenizer.QuotedTokens | gnubg/gnubg.c:684-732 | any list of texts, quoted and escaped, reads back unchanged |
| TokenPieces.TokenExactly | gnubg/gnubg.c:678-742 | what the first token is and what it leaves: characters of their own, any character after a backslash, inside quotes or outside, and quotes, up to the end of the text or a terminator where no quote is open; a backslash at the end stands for itself |
| Tokenizer.ScanQuoted | gnubg/gnubg.c:684-732 | one quoted and escaped text is one token |
| Tokenizer.SingleQuotesSplit | gnubg/gnubg.c:689-709 | a text in single quotes is one token, with its single quotes, if and only if it holds no blank |
| Tokenizer.SingleQuotesStay | gnubg/gnubg.c:689-709 | a text in single quotes never reads back as that text |
| Tokenizer.CountTokens | gnubg/gnubg.c:785-804 | the number of words |
| Dice.BitSource.GetTrit | gnubg/dice.c:236-281 | the digit and the number of bits read are those of the automaton |
| Dice.CountStep | gnubg/dice.c:247-279 | the strings with an outcome, split by their first bit |
| Dice.StringsComplete | gnubg/dice.c:228-234 | every bit string is counted |
| Dice.StringsDistinct | gnubg/dice.c:228-234 | no bit string is counted twice |
| Dice.TritsUniform | gnubg/dice.c:236-281 | of the strings of 2k+1 bits every digit gets a third of all but two, and those two are left in states 1 and 2 |
| DiceCost.TritCost | gnubg/dice.c:236-281 | over all strings of 2k+1 bits the automaton reads three bits each, less four in all |
| DiceCost.PairsAre | gnubg/dice.c:240-242 | pairs of bits give every digit as often, and read a third of 8 times 2 to the 2k+1 less 10 bits |
| DiceCost.FewerBits | gnubg/dice.c:240-242 | so the automaton does not use the fewest bits on average |
| Dice.BitSource.RollDie | gnubg/dice.c:796-797 | the die is made of the digit and the bit that follows its bits |
| Dice.BitSource.RollDice | gnubg/dice.c:796-798 | the second die is made of the bits after those of the first one |
| Dice.DieIsTrit | gnubg/dice.c:796-797 | from any state, as many strings of n+1 bits give a face as strings of n bits give its digit |
| Dice.DieUniform | gnubg/dice.c:796-797 | of the strings of 2k+2 bits every face from 1 to 6 gets the same number, a third of 2 to the 2k+1 less two |
| DicePairs.DigitExactly | gnubg/dice.c:236-281 | bits give a digit exactly when two neighbours are equal: 1 for a first pair at an odd place, and otherwise 0 for zeros and 2 for ones; no bit after the pair is read |
| DicePairs.DieExactly | gnubg/dice.c:791-797 | they give a face exactly when a bit follows the pair: 1 more than the digit, and 3 more if that bit is set |
| Dice.Exp232 | gnubg/dice.c:776-777 | the constants are a sixth of 2 to the 32, rounded down, and six times that |
| Dice.FaceRange | gnubg/dice.c:783-786 | a word gives a face exactly when it lies in that face's range of q words |
| Dice.FacesUniform | gnubg/dice.c:783-786 | every face has exactly q words below the limit |
| Dice.RngContext.RollDie | gnubg/dice.c:848-850 | the first accepted word gives a face from 1 to 6 |
| Dice.RngContext.RollDice | gnubg/dice.c:770-853 | the first two accepted words give the dice, and the counter goes up by two |

## Left out

- Reading bearoff files from disk, memory mapping, headers, MD5 sums, progress output and the failure of an allocation: a database is a sequence of bytes.
- The normal-distribution lookup and the numeric contents of the gammon and race tables.
- Move generation, evaluation, rollouts and match equity tables: equities, lucks, candidate lists and the two match equities behind a conversion are inputs.
- Applied: what ApplyMoveRecord does to the turns, the cube, its owner and the pending double is modelled, with the swaps of the board; moves on the board, the dice and the score are parameters. ApplyMoveRecord also writes the winner into the record that opens a game; that record is taken as it is afterwards.
- AnalyzeMove: the evaluations are not part of this model; a record comes as the analysis leaves it.
- Threads: a task is a step that runs as a whole, and the order of such steps is arbitrary.
- Rounding of floating point numbers: sums, costs and variances are exact.
- GetRaceBGprobs: requires a chequer on the board, because the source would read before its table for an empty one.
- ParseMove: is modelled on the texts of `MoveGuard.Safe`: at every bracket that the reading gets to, the count less one and the number of points that the check for room compares fit an int, and something comes after a count that is accepted, where the source would step over the terminator.
- PositionBearoff and PositionFromBearoff: words and coefficients have no bound; `PositionWords` has the 32-bit versions for at most 32 points and chequers, and the bearoff database uses 6 points and 15 chequers.
- GetDistCompressed: an entry whose gammon window leaves its half is left out, where the source would write past its 64 words.
- GetDistUncompressed: 64 bytes follow the file in memory, and the buffer of the disk branch holds 64 bytes of its own; what they are is arbitrary. The failure to read from the disk is not part of this model.
- KindAtAnswer, TakeCounts and DropCounts: the cube is below its limit at every double, and no double is pending before the first.
- LoadMove, SortRows and SortPairs: qsort is taken to sort by its comparison, and strtol to read decimal digits and to saturate at 32 bits, the width of a long in the WebAssembly build (build.sh).
- FormatMove: the array of row pointers is modelled by cell numbers, with -1 for the null pointer, and the set of starred points as a set of numbers.
- FormatMovePlain, DrawBoard and all other output of boards.
- FIBSBoard: the lexer that reads the text of a record is not part of this model, nor is the Jacoby flag of the reader, which it does not set.
- IniStatcontext and AddStatcontext: counters that are never compared are unbounded; the counters of skills and kinds of luck are multisets.
- CommandAnalyseMatch, ratings, error rates and their output.
- BitSource.RollDie: the digit is drawn before the bit; C leaves the order of the two draws open.
- RngContext.RollDice: the branch for MD5, which draws its two words together and rejects the pair when one of them is too large, is not part of this model.
- GetTrit, RollDie and RollDice: bits and words come from finite lists and running out of them is a result of its own; the generators and dice from files, from the network or by hand are not part of this model.
- NextTokenGeneral: the null pointer as input, the build without backslash escapes, and characters that are blanks only in other locales.
- DataGetChar: a failure to open or to read the file; the warning about the version of a room file.
