# What the trading pipeline decides, proved

The repository watches prediction markets: it fetches prices, books and tags, scores markets into an
edge board, allocates paper capital under risk limits, and replays all of it on history. This project
models the parts that decide something and proves what they promise, for every input, every run and
every interleaving.

- `Alloc`, `Greedy`, `RiskConfig`, `BoardReplay`: the capital allocator. It screens names, keeps the best
  per market, ranks by opportunity and fills greedily under two caps. With one size for all names (the
  board replay), or whenever better names never take more room, the fill is optimal, by an exchange
  argument; with mixed sizes it need not be.
- `RiskBook`, `RiskManager`, `Sizing`, `Halts`: the paper-trading manager, as a class whose fields are updated
  in place and as the state machine it implements; the size a signal gets, halts, drawdowns and exposure
  over every run.
- `WarmPrices`, `Refresh`, `Batching`: which tokens a price refresh asks for, in which batches, from when, and why no
  other way of batching needs less look-back.
- `Router`, `RouterFlow`: the requeue router's loop and workers as atomic steps under any interleaving.
- `SqlText`, `SqlSplit`, `SqlLexemes`, `SqlJoin`: the schema splitter, proved against a grammar of whole lexemes;
  which texts come back as statements, cutting and joining as inverses, and exactly which lists of
  statements survive joining and splitting.
- `FillPrices`, `Interpolation`, `FillBooks`, `NeededBooks`: gap filling of price and book history, what is
  added where, and exactly when book filling adds only the books it needs.
- `AsOf`, `Series`, `Samples`, `Snapshots`, `PitBoard`, `Universes`, `NoLookAhead`: as-of reads, features and the
  universe at a time, on the samples they come from; the candidate board at a time cannot look ahead of it.
- `Scoring`, `Cost`, `Verdicts`, `Board`: neg-risk fair value, the cost stack with the order-book walk, edges, and
  board selection, offline and live.
- `Portfolio`: period metrics of a label set, with the online drawdown loop.
- `Strategy`: strategy versions, the active pointer and its log, as a class over three tables.
- `TagTree`: the breadth-first category walk, in both programs that have it.
- `Sorting`, `Filters`, `Totals`, `Products`, `Basics`: sorting, bisection, filtering, sums, products and optional
  values that the others use.

Prices, basis points and dollars are `real`; times are integers, nanoseconds unless a contract says
otherwise. Every sort the program leaves unstable is specified only as a sorted permutation, except where
the comparison is total. Where the program mutates an object or accumulates in a loop, the model is a class
or a method with a loop, tied by its contract to a function on values; the lemmas are about that function.
What the function means is stated a second time without it: on the fields of the input, by products where the
program divides, by "some sample such that" where it searches, by conditions on positions where it scans.

Where the code and its own words differ, the model follows the code:

- The allocator's cap test has a tolerance, so gross exposure may exceed `MaxGrossUSD` by up to 1e-9. It does
  exactly when, filling under the cap alone, some name in its turn finds a place left and passes the cap by
  at most that much; otherwise the tolerance changes nothing.
- "Payload-optimal" warm batching holds request by request: the plan's i-th earliest start is never earlier
  than any other plan's. Counted per token it holds exactly when the tokens of each batch, cut from the
  sorted marks, need the same start; two tokens with different marks already show that they need not.
- With `RequireFV`, board replay takes nothing: replayed rows carry no fair value.
- Joining and splitting give a list of statements back exactly when all but the last lex back to plain mode
  and none has a top-level semicolon; one that ends in a line comment swallows the separator after it.
- An idle reading says nothing about a result that has left one pool and not yet entered the next.
- The price options allow a floor above the ceiling; the range promise then fails, and exactly then, unless no
  sample is usable and the output is empty.
- Book filling searches its list while unsorted and can miss a recent book, adding one it did not need. For
  an ascending grid this happens exactly where the bisection over venue books and added books ends in the
  stale one of the two blocks. Every priced grid time still ends up with a recent book.
- Below a dollar of visible depth the capacity can exceed the impact cap.
- Live and offline boards agree with distinct condition ids; with repeated ids exactly when each row within
  the cut is the last candidate of its id and, if anything is cut off, no id repeats within. Two candidates
  with one id already show that they can differ.
- Inserting a version directly as active, where the unique index allows it, bypasses the pointer, and over
  every run only that breaks the tables' invariant.
  Promoting the version that is already live does not bring a used-up undo back.
- The fractional Kelly size never falls as a stated conviction rises, but one that is not stated counts as one
  half, so stating a low one lowers the size.

## Model

| member | source | states |
|---|---|---|
| Alloc.EligibleExactly | internal/alloc/alloc.go:85-158 | a name competes exactly when it is on the board, meets the bar on its own fields and is not held |
| Alloc.AllocationDecides | internal/alloc/alloc.go:71-158 | on the names' own fields: taken names have an edge of at least a positive minimum, a spread of at most a positive limit, a stated fair value off the proxy path when required, are not held and are of different markets; a name is rejected as unworthy exactly when it misses that bar, as held exactly when it meets it and is held |
| Alloc.SameMarketExactly | internal/alloc/alloc.go:160-170 | two names compete for one market exactly when their conditions, or without them their tokens, or without those their instants agree |
| Alloc.LoserIsOutdone | internal/alloc/alloc.go:160-192 | a dropped duplicate has a kept name of the same market scoring at least as much |
| Alloc.RelaxingKeepsCompeting | internal/alloc/alloc.go:144-158 | relaxing a limit turns no competing name away |
| Alloc.ScreeningLosesNothing | internal/alloc/alloc.go:85-97 | screening splits the board: eligible and screened names together hold each name as often as the board |
| Alloc.RankedIsRanking | internal/risk/rank.go:45-80 | ranking is a permutation of the kept names, in descending opportunity score, one per market |
| Alloc.KeptIsSound | internal/alloc/alloc.go:160-192 | dedupe keeps one name per market, loses none that is not outscored in its own market, and conserves names |
| Alloc.LosersHaveBetter | internal/alloc/alloc.go:160-192 | every dedupe loser competed and has a kept name of its market scoring at least as much |
| Alloc.KeptIsFirstBest | internal/alloc/alloc.go:160-192 | the kept name of a market is its first best: none of the market scores higher, and none before it as high |
| Alloc.OutcomeIsSound | internal/alloc/alloc.go:99-142 | taken names are in rank order, distinct per market, within the count cap and within the gross cap plus its tolerance of 1e-9; each outranked name would break one of these if added to the final set |
| Alloc.EveryNameAccountedFor | internal/alloc/alloc.go:71-142 | conservation: taken, rejected and dedupe losers together are the input |
| Alloc.AllocationIsSound | internal/alloc/alloc.go:71-142 | the same for the whole result: taken names admissible, in order, within the count cap and the gross cap plus 1e-9; every name rejected as outranked would break one of these |
| Alloc.AllocationFillsCaps | internal/alloc/alloc.go:101-142 | in dollars: what is taken stays within the configured count and gross cap plus 1e-9, and with any outranked name added it would not |
| Alloc.GrossCapExactly | internal/alloc/alloc.go:114-142 | gross exposure stays within `MaxGrossUSD` itself if and only if no rank is in the tolerance, a condition on the fill under the cap alone, and the result is then that fill |
| Alloc.GrossCanPassCap | internal/alloc/alloc.go:114-142 | it can fail: one name of size cap plus 1e-9 is taken |
| Alloc.SmallerBetterAreOptimal | internal/alloc/alloc.go:71-142 | when no competing name takes more room than one it outscores or ties, no admissible selection within the caps has a higher total opportunity score than the one taken |
| Alloc.EqualSizesAreOptimal | internal/alloc/alloc.go:71-142 | in particular when all names have one size |
| Alloc.MixedSizesCanMissOptimum | internal/alloc/alloc.go:71-142 | otherwise it need not be: a board of three names where the two smaller ones fit, score more, and are not taken |
| Alloc.DedupeBest | internal/alloc/alloc.go:160-192 | the map-updating loop computes the per-market winners in order of first appearance |
| Alloc.Run | internal/alloc/alloc.go:71-142 | the program's loops compute exactly the specified allocation, and its lists say of each name what `Decides` says on the fields |
| Alloc.Screen | internal/alloc/alloc.go:85-97 | the screening loop computes the eligible names and the reasons for the rest, each characterised on the names' fields |
| Alloc.FillInOrder | internal/alloc/alloc.go:114-142 | the greedy loop computes the fill, given a rank order |
| Greedy.WinnersDistinct | internal/alloc/alloc.go:160-192 | per-market winners have distinct markets |
| Greedy.MarketHasWinner | internal/alloc/alloc.go:160-192 | every item's market has a winner that scores at least as much |
| Greedy.FillIsSound | internal/alloc/alloc.go:114-142 | the fill splits the ranking, respects both caps, and leaves out only what would break a cap at the end |
| Greedy.CapHoldsExactly | internal/alloc/alloc.go:114-142 | a fill whose cap test has slack meets the cap itself if and only if no rank is in the slack, and is then the fill without slack |
| Greedy.FillKeepsOrder | internal/alloc/alloc.go:114-142 | what the fill takes keeps the ranking's order and distinctness |
| Greedy.SmallerFirstTakesPrefix | internal/alloc/alloc.go:114-142 | when sizes never decrease down the ranking, the fill takes a prefix and stops only at a cap |
| Greedy.FrontIsBest | internal/risk/rank.go:45-80 | exchange: in a descending ranking no set of positions outscores the same number of front positions |
| Greedy.FrontIsLightest | internal/alloc/alloc.go:114-142 | and, with sizes that never decrease, the front positions take the least room |
| Greedy.SelectionHasPositions | internal/alloc/alloc.go:160-192 | any one-per-market selection maps onto distinct ranked positions that score at least as much and take no more room |
| Greedy.SmallerFirstOptimal | internal/alloc/alloc.go:99-142 | then the greedy fill is optimal among selections that fit the caps |
| RiskConfig.NormalizeRepairs | internal/risk/config.go:104-157 | whatever the settings, normalising yields positive caps and valid fractions, and changes nothing exactly when the settings were usable already |
| RiskConfig.OpportunityScore | internal/risk/rank.go:19-42 | the score is never negative |
| RiskConfig.OpportunityGrows | internal/risk/rank.go:19-42 | a larger edge either way, a higher conviction or urgency never lowers the score, and a larger edge raises it |
| RiskConfig.OpportunityAddsUp | internal/risk/rank.go:19-42 | the score is the edge weight per 100 bps either way, plus the conviction weight in proportion up to full conviction, plus a tenth of a positive urgency |
| RiskConfig.RankOrderIsRanking | internal/risk/rank.go:45-80 | the rank order is a permutation of the indices, strictly ordered by descending score and then by index |
| BoardReplay.ReplayIsOptimal | internal/signaleval/board_source.go:25-52 | replay gives every name one positive size, so its allocation is optimal on every board |
| BoardReplay.RequireFVTakesNothing | internal/signaleval/board_source.go:87-112 | replayed rows have no fair value, so requiring one takes nothing |
| BoardReplay.NamesAreRows | internal/signaleval/board_source.go:87-112 | each row enters with its own market and edge, a conviction of one at 200 bps and in proportion below, and the common size |
| BoardReplay.AllocateFromBoardSnapshots | internal/signaleval/board_source.go:25-52 | one board per publication; the loop returns what each allocation takes, and its four counters are exact: taken, turned away and outdone names are the rows seen |
| BoardReplay.GroupSnapshotsBySelectedAt | internal/db/board_snapshots.go:180-202 | the loop cuts the rows into runs of one publication instant |
| BoardReplay.BoardsKeepRows | internal/db/board_snapshots.go:180-202 | the boards together are the rows, in order |
| BoardReplay.BoardsSplitByInstant | internal/db/board_snapshots.go:180-202 | each board is of one instant, neighbouring boards of different ones |
| RiskBook.AcceptedSizeIsBounded | internal/risk/manager.go:109-228 | an accepted size lies between the minimum and the position cap, within the stated capacity's share, the signal's own size where that binds, and the gross room, in all three sizing modes |
| Sizing.AcceptsExactly | internal/risk/manager.go:109-228 | a signal is accepted exactly when it is welcome and the smallest size is asked for and allowed, and then gets the greatest allowed size that is not more than asked for; what the three modes ask for is stated by products |
| Sizing.RawSizeIsAsked | internal/risk/manager.go:170-228 | each mode asks for one size: size times payoff is equity times fraction times conviction times expected gain, or the signal's lower share; a stated size weighted by conviction; the same scaled to the target volatility |
| Sizing.VolScaleIsScale | internal/risk/manager.go:230-261 | the scale takes the deviation of the last returns to the target, within a tenth and three |
| Sizing.KellyNeedsAdvantage | internal/risk/manager.go:194-208 | fractional Kelly accepts only with an expected gain and positive equity |
| Sizing.KellySizeGrows | internal/risk/manager.go:170-228 | neither acceptance nor size falls as win probability, payoff or a stated conviction rises |
| Sizing.DefaultSize | internal/risk/manager.go:109-228 | a new manager under the default configuration gives 250 dollars at full conviction and in proportion below |
| Sizing.StatedConvictionCanLowerSize | internal/risk/manager.go:172-181 | 125 dollars without a conviction, 25 with one of 0.1 |
| Sizing.ReasonsExactly | internal/risk/manager.go:109-168 | each reason is given exactly when it is the first that applies |
| RiskBook.EquityIsStartPlusGains | internal/risk/manager.go:278-286 | over every run equity is the start plus all gains and losses |
| RiskBook.PeakIsRunningMaximum | internal/risk/manager.go:278-286 | over every run peak equity is the maximum of all equity values so far |
| RiskBook.StepKeepsHalts | internal/risk/manager.go:319-359 | every call keeps: open means both drawdowns below limit; a final halt stays; a final halt is entered only at the limit |
| RiskBook.RunKeepsHalts | internal/risk/manager.go:319-359 | hence over every run from a new manager |
| RiskBook.HaltedDDExactly | internal/risk/manager.go:296-359 | the final halt is on exactly when some drawdown of the run reached the limit |
| Halts.FinalHaltExactly | internal/risk/manager.go:296-359 | on equity values: finally halted exactly when equity at some point fell from its highest value so far by the limit |
| Halts.GainHaltsExactly | internal/risk/manager.go:278-359 | after one booked gain: exactly when the final and the daily halt are on, as falls in dollars from the highest and from the day's first equity |
| Halts.DayStartsExactly | internal/risk/manager.go:319-337 | exactly which calls start a UTC day, at the equity they find, and end a daily halt |
| Halts.RecordKeepsLatest | internal/risk/manager.go:288-293 | a recorded return comes last, after the most recent ones, 500 in all |
| RiskBook.NothingAcceptedAfterDD | internal/risk/manager.go:109-134 | after it nothing is ever accepted, whatever follows |
| RiskBook.DayHaltEndsOnlyNextDay | internal/risk/manager.go:319-337 | a daily halt ends only on a strictly later UTC day or by becoming the final halt |
| RiskBook.AcceptedMeansBelowLimits | internal/risk/manager.go:109-168 | an accepting manager is below both drawdown limits, whatever run led there |
| RiskBook.ExposureStaysWithinCaps | internal/risk/manager.go:100-168 | in runs where each open directly follows the call that accepted it, gross exposure, open count and every size stay within bounds |
| RiskManager.Manager.constructor | internal/risk/manager.go:86-97 | a new manager is the opening book under a normalised configuration |
| RiskManager.Manager.GrossExposure | internal/risk/manager.go:100-106 | summing the positions in any map order gives the total absolute size |
| RiskManager.Manager.MaybeRollDay | internal/risk/manager.go:319-337 | updates exactly the day, the day-open equity and a daily halt, as the state machine says |
| RiskManager.Manager.Halt | internal/risk/manager.go:339-359 | applies the halt rules in place |
| RiskManager.Manager.AddPnL | internal/risk/manager.go:278-286 | roll, equity, peak and halts in the program's order equal one step of the state machine |
| RiskManager.Manager.OnOpen | internal/risk/manager.go:264-269 | adds or replaces the position, changes nothing else |
| RiskManager.Manager.OnClose | internal/risk/manager.go:272-275 | removes the position and books its result |
| RiskManager.Manager.RecordPeriodReturn | internal/risk/manager.go:288-293 | keeps the last 500 period returns |
| RiskManager.Manager.AcceptSignal | internal/risk/manager.go:109-168 | decision, size and reason are the state machine's judgement, and the one the asked-for size, the caps and the book call for; the book changes only by the day roll |
| RiskManager.Manager.ComputeSize | internal/risk/manager.go:170-228 | the three sizing modes and the caps compute the greatest size that is asked for and allowed |
| WarmPrices.SortByMarkAscends | internal/enrich/prices.go:501-519 | warm tokens come out ordered by high-water mark |
| WarmPrices.ChunkTokenIDs | internal/enrich/prices.go:522-538 | the slicing loop cuts the list into consecutive full batches and a rest, a non-positive size meaning the default |
| WarmPrices.EarliestHWM | internal/enrich/prices.go:466-478 | the loop finds the smallest positive mark, 0 when there is none |
| WarmPrices.EarliestStartTS | internal/enrich/prices.go:482-498 | the start is that mark less the overlap, not before a positive floor |
| WarmPrices.EnsurePrices | internal/enrich/prices.go:288-451 | without its I/O: tokens without an id dropped, exactly which of the rest are cold, fresh and warm, and every request with its start |
| WarmPrices.Partition | internal/enrich/prices.go:341-357 | the loop sorts each token into its kind, in input order |
| Refresh.PlanExactly | internal/enrich/prices.go:288-451 | on table timestamps: a token without one is in a cold request only, one younger than the age in none, any other in a warm one only, and no other token is asked for |
| Refresh.ColdStartExactly | internal/enrich/prices.go:415-424 | cold requests start the look-back before now, to the second below |
| Refresh.WarmStartIsNeeded | internal/enrich/prices.go:466-498 | a warm request starts an hour before its oldest token's timestamp, not before the cold start |
| Refresh.MarkInSeconds | internal/enrich/prices.go:466-478 | a mark is the timestamp in whole seconds, whichever unit the table uses |
| WarmPrices.PartitionLosesNothing | internal/enrich/prices.go:341-357 | cold, fresh and warm together hold each token as often as the input |
| WarmPrices.WarmRequestsCover | internal/enrich/prices.go:425-440 | warm requests ask for exactly the warm tokens, at most `size` at a time, each at or before the time it needs |
| WarmPrices.WarmPlanIsPointwiseOptimal | internal/enrich/prices.go:425-440 | for any other split of the warm tokens into batches of at most `size`, its i-th earliest start is no later than this plan's i-th start |
| WarmPrices.WarmPlanMinimisesLookBack | internal/enrich/prices.go:425-440 | so total look-back over requests is minimal, for marks and floor not after now |
| WarmPrices.WarmPlanLeastPerTokenExactly | internal/enrich/prices.go:425-440 | counted per token, the plan is least if and only if the tokens of each batch, cut from the sorted marks, need the same start |
| WarmPrices.WarmPlanCanLookBackTooFar | internal/enrich/prices.go:425-440 | it need not be: two warm tokens with marks 5 and 9 |
| WarmPrices.MissingMarksMissOptimum | internal/enrich/prices.go:341-440 | four warm tokens, two with a negative table timestamp: the plan's starts are 1 and 5, another split's 5 and 9 |
| Batching.ChunksCut | internal/enrich/prices.go:522-538 | the batches join up to the list, each non-empty and within size |
| Batching.OldestIsMinimum | internal/enrich/prices.go:466-478 | on positive marks the batch mark is their minimum |
| Batching.OldMembersNeedOldBatches | internal/enrich/prices.go:425-440 | pigeonhole: members with marks at most h never outnumber `size` times the batches that start as early as h requires |
| Batching.ChunksArePointwiseOptimal | internal/enrich/prices.go:425-440 | cutting a sorted list beats every other split pointwise |
| Batching.LeastPerMemberExactly | internal/enrich/prices.go:425-440 | for any batching, counted per token, least exactly when each token's batch starts where the token alone would |
| Batching.ChunksLeastPerMemberExactly | internal/enrich/prices.go:501-538 | for the batches cut from a sorted list, exactly when the members of each batch need the same start |
| Batching.MissingMarksBreakOptimality | internal/enrich/prices.go:466-478 | the same on lists of marks, two of them missing |
| Router.EveryInterleavingKeepsInv | internal/pipeline/router.go:19-198 | under every interleaving, closed outputs and late submits included, the counter is exact, every request is in exactly one place, buffers respect their capacities, and nothing is dropped without a reason |
| Router.CounterStep | internal/pipeline/router.go:33-127 | every atomic step keeps: routerInflight equals channel, overflow, worker hands and loop hand, plus one inside an item |
| Router.EachOnceStep | internal/pipeline/router.go:33-195 | every atomic step keeps each request in exactly one place |
| Router.SubmittedAtMostOnce | internal/pipeline/router.go:33-127 | a request is taken by the fetcher at most once, and then waits nowhere |
| Router.NothingLost | internal/pipeline/router.go:33-127 | unless cancelled, stopped or overflowing, every request that entered was taken or still waits |
| RouterFlow.EveryInterleavingKeepsOrder | internal/pipeline/router.go:33-127 | under every interleaving channel and overflow list stay in order of entry |
| RouterFlow.OldestFirst | internal/pipeline/router.go:47-87 | a worker gets the oldest request of the list it looks at, and the list loses just that one |
| RouterFlow.TakenUntilEnded | internal/pipeline/router.go:33-127 | every request the fetcher took is in a later stage until a failure, or the loop taking or skipping its output, has ended it |
| RouterFlow.EveryInterleavingKeepsStages | internal/workerpool/workerpool.go:217-262 | the later stages never overlap and hold only requests the fetcher took |
| Router.NeverIdleWhileOutstanding | internal/pipeline/lifecycle.go:51-58 | while a request waits or is being fetched, an atomic idle reading is false |
| Router.IdleExactly | internal/pipeline/lifecycle.go:51-58 | an atomic idle reading is true exactly when no request waits or is in a pool and the loop is outside an item |
| Router.IdleWithResultInTransit | internal/workerpool/workerpool.go:247-262 | a run where a result is between two pools and the reading is nevertheless idle |
| SqlSplit.SplitSQLStatements | internal/db/init.go:100-161 | for every text the flag-driven scanner returns, in order, exactly the trimmed segments of the grammar in which some line's first visible character does not open a comment |
| SqlText.IsSQLCommentOnly | internal/db/init.go:163-172 | the line loop decides whether the text has no code |
| SqlText.CommentOnlyExactly | internal/db/init.go:163-172 | every line, trimmed, is empty or begins with two dashes exactly when no line's first visible character starts anything else |
| SqlText.TrimIsMiddle | internal/db/init.go:145-159 | trimming cuts a text at its first and last visible characters |
| SqlLexemes.CommentComesBackWithStatement | internal/db/init.go:100-172 | a closed statement comes back together with the comment line above it, and what follows its semicolon is split on its own |
| SqlLexemes.NoCodeNoStatements | internal/db/init.go:100-172 | a text of blank lines and comments gives no statement |
| SqlLexemes.QuotedIsClosed | internal/db/init.go:131-141 | a quoted text is never cut, whatever semicolons it has |
| SqlLexemes.DollarQuotedIsClosed | internal/db/init.go:124-129 | nor is a dollar-quoted one |
| SqlLexemes.CommentIsClosed | internal/db/init.go:109-122 | nor a line comment |
| SqlLexemes.ClosedConcat | internal/db/init.go:100-161 | closed texts one after another are closed, unless the second opens with a dash, a dollar or a quote |
| SqlSplit.AddStatement | internal/db/init.go:145-159 | a finished segment is kept, trimmed, exactly when it has code |
| SqlSplit.JoinUndoesCut | internal/db/init.go:100-161 | rejoining the raw segments with semicolons gives back the text, character for character |
| SqlSplit.CutUndoesJoin | internal/db/init.go:100-161 | cutting a joined list of closed pieces gives back the list |
| SqlSplit.ClosedPartsAreCut | internal/db/init.go:100-161 | every non-empty list of closed pieces is one a text can be cut into |
| SqlSplit.SegmentsAreCut | internal/db/init.go:100-161 | every text is cut into such a list, so the two are inverse bijections |
| SqlJoin.CutUndoesJoinExactly | internal/db/init.go:100-161 | cutting a joined list of raw segments gives back the list if and only if a text can be cut into it |
| SqlJoin.SplitUndoesJoin | internal/db/init.go:100-172 | splitting the ";\n" join of trimmed statements, all but the last lexing back to plain mode and none with a top-level semicolon, returns exactly the list |
| SqlJoin.ClosedStatementsComeBack | internal/db/init.go:100-172 | in particular when every statement lexes back to plain mode without a top-level semicolon |
| SqlJoin.SplitUndoesJoinExactly | internal/db/init.go:100-172 | and those lists, with the empty one, are the only ones that come back |
| SqlJoin.OnlyCutListsComeBack | internal/db/init.go:100-172 | counting semicolons: what comes back has lost no segment, so each statement was a whole segment |
| SqlJoin.TrailingCommentSwallowsSeparator | internal/db/init.go:110-125 | a statement ending in a line comment is joined to the next one, so the list does not come back |
| AsOf.SearchAtOrBefore | internal/eval/series.go:27-34 | the binary search equals the scan on ascending times, and ends at a boundary on any list |
| AsOf.BisectionIsScan | internal/eval/series.go:27-34 | on ascending times bisection and scan find the same index |
| AsOf.ScanIgnoresLater | internal/eval/series.go:27-34 | samples after the time asked for do not change the answer |
| FillPrices.ClampInRangeExactly | internal/datagap/prices.go:185-193 | clamping puts every price in range if and only if the floor is not above the ceiling |
| FillPrices.InvertedRangeEscapes | internal/datagap/prices.go:20-46 | with floor 0.9 and ceiling 0.5 a sample of 0.4 is kept at 0.9 |
| FillPrices.InterpolationIsBetween | internal/datagap/prices.go:139-183 | an interpolated price lies between its two neighbours, on the line through them |
| Interpolation.SynthExactly | internal/datagap/prices.go:139-183 | a price is interpolated exactly between two samples at most MaxGap apart, and missing exactly when there are none and no sample is within HoldMax |
| Interpolation.HeldExactly | internal/datagap/prices.go:170-182 | a held price is the latest sample's when that is within reach, else the next one's |
| Interpolation.AddedIsOnLine | internal/datagap/prices.go:56-77 | every point added as interpolated lies on the line through the samples around it, at most MaxGap apart |
| Interpolation.AddedFollowSamples | internal/datagap/prices.go:56-77 | two points interpolated in one gap are ordered as its samples |
| Interpolation.AddedExactly | internal/datagap/prices.go:56-77 | points are added at exactly the uncovered grid times that can be interpolated or held |
| Interpolation.ToleranceExactly | internal/datagap/prices.go:112-121 | covered means within the largest time that is at most a minute and a quarter of the step |
| Interpolation.SampleSurvives | internal/datagap/prices.go:20-46 | a usable sample in range that is alone at its instant is in the output unchanged |
| Interpolation.AnchorHasSample | internal/datagap/prices.go:20-46 | each kept sample is a usable one at its instant, at the nearest bound if out of range |
| Interpolation.DefaultFill | internal/datagap/prices.go:19-110 | with default options 0.2 at 10:00 and 0.8 at 20:00 give 0.26 at 11:00, and prices are held for six hours |
| FillPrices.SynthIsJustified | internal/datagap/prices.go:139-183 | a synthetic price is an interpolation between neighbours or a sample's price held at most HoldMax, and in range |
| FillPrices.AddedOnlyWhereUncovered | internal/datagap/prices.go:56-77 | points are added only at grid times no sample covers |
| FillPrices.HasVenueNear | internal/datagap/prices.go:112-137 | the search decides whether a sample lies within the tolerance of a time |
| FillPrices.FindSynth | internal/datagap/prices.go:139-183 | search and branches compute the specified synthetic price |
| FillPrices.Anchors | internal/datagap/prices.go:20-46 | cleaned samples: usable, clamped, one per instant, every usable instant kept |
| FillPrices.KeepLastPerInstant | internal/datagap/prices.go:35-46 | the in-place compaction keeps the last of each run of equal times |
| FillPrices.LastPerInstantAscends | internal/datagap/prices.go:35-46 | the compacted list is strictly increasing |
| FillPrices.AddToGrid | internal/datagap/prices.go:56-77 | the grid loop appends exactly the specified points, and its counters balance |
| FillPrices.NothingShadowed | internal/datagap/prices.go:79-108 | after sorting, no synthetic point shares an instant with a sample |
| FillPrices.DropShadowed | internal/datagap/prices.go:86-108 | the last pass is then the identity |
| FillPrices.Fill | internal/datagap/prices.go:19-110 | on every grid: all samples and added points, once each, in time order, counters balancing against grid and output; strictly increasing on a strictly increasing grid |
| FillPrices.OutputInRangeExactly | internal/datagap/prices.go:19-110 | every output price is in range if and only if the range is not inverted or no sample is usable |
| FillBooks.BookCovers | internal/datagap/books.go:96-118 | the bisection, even on an unsorted list, ends on a book at or before the time or on none |
| FillBooks.InOrderCoversExactly | internal/datagap/books.go:96-108 | while the list is in order, it sees a recent book exactly when there is one |
| FillBooks.NewBook | internal/datagap/books.go:56-88 | an added book has floor at most bid, bid below ask, whatever spread is reused |
| FillBooks.NewBookStandsAroundMid | internal/datagap/books.go:56-88 | an added book stands around the mid, as far apart as the book it is modelled on or as configured, up to the bounds of the price range |
| FillBooks.NewBookDepths | internal/datagap/books.go:56-88 | its depths are that book's, or the configured one |
| FillBooks.VenueBooksExactly | internal/datagap/books.go:23-40 | kept are, in order, exactly the samples with a time and both prices |
| FillBooks.AddedBooksSuffice | internal/datagap/books.go:48-92 | for every grid, each priced grid time ends up with a book at or before it no older than the step |
| FillBooks.AddToGrid | internal/datagap/books.go:48-91 | the loop appends exactly the specified books, although it searches the growing list |
| FillBooks.Fill | internal/datagap/books.go:23-93 | venue books kept, the specified books added, result in order, coverage and counters as promised |
| NeededBooks.SeesRecentUnlessMisled | internal/datagap/books.go:96-118 | at one grid time the search sees a recent book exactly when there is one and it does not end in the block whose last book is stale |
| NeededBooks.AddsOnlyNeededExactly | internal/datagap/books.go:48-91 | for every ascending grid, books are added at exactly the priced times without a recent book if and only if no priced grid time is misled, a condition on venue times, grid, mids and step |
| NeededBooks.VenueBeforeGridAddsOnlyNeeded | internal/datagap/books.go:48-91 | in particular when no venue book is later than a grid time |
| NeededBooks.FillCanAddNeedlessly | internal/datagap/books.go:23-93 | otherwise it can fail: venue books at 100 and 200, grid 10 and 12, a second book at 12 although the one at 10 is recent |
| Series.FindMidAsOf | internal/eval/series.go:18-34 | the as-of mid is the last sample at or before the time |
| Series.CountIsDifference | internal/eval/series.go:50-64 | counting a window is a difference of two as-of positions |
| Series.CountPoints | internal/eval/series.go:50-64 | the two searches count the samples in the window |
| Series.SumPathActivity | internal/eval/series.go:67-92 | the loop sums the absolute moves within the window |
| Series.FindBookAsOf | internal/eval/series.go:102-117 | the last book at or before the time, if not too old |
| Samples.MidExactly | internal/eval/series.go:18-34 | a positive mid is the price of the last sample at or before the time |
| Samples.AbsRetIsReturn | internal/eval/series.go:37-47 | the earlier price times the return is the move between the two prices, none unless both are there |
| Samples.PointCountExactly | internal/eval/series.go:50-64 | the count is the number of samples in the window |
| Samples.ActivityExactly | internal/eval/series.go:67-92 | the activity is the sum of all moves between neighbouring samples in the window |
| Samples.BookExactly | internal/eval/series.go:102-117 | the book found is the last one at or before the time, if its age is allowed |
| Series.MidIsPast | internal/eval/series.go:18-34 | no look-ahead: a read at or before t is the same on the samples known at t |
| Series.AbsRetIsPast | internal/eval/series.go:37-47 | the same for absolute returns |
| Series.CountIsPast | internal/eval/series.go:50-64 | the same for point counts |
| Series.ActivityIsPast | internal/eval/series.go:67-92 | the same for path activity |
| Series.BookIsPast | internal/eval/series.go:102-117 | the same for books |
| Snapshots.BuildSnapIndex | internal/eval/snapshots.go:21-42 | the index holds the distinct times in order and each time's rows in input order |
| Snapshots.NearestAtOrBefore | internal/eval/snapshots.go:45-63 | the search finds the latest snapshot time at or before the time, with its rows |
| Snapshots.LookupCond | internal/eval/snapshots.go:75-95 | the lookup is the first row of the condition in the nearest snapshot |
| Snapshots.NearestIsLatest | internal/eval/snapshots.go:45-63 | what is found is at or before the time, and no snapshot lies between |
| Snapshots.LookupExactly | internal/eval/snapshots.go:75-95 | a lookup finds the first row of the condition in the latest snapshot at or before the time, and nothing when there is none |
| Snapshots.LookupIsPast | internal/eval/snapshots.go:75-95 | no look-ahead: rows after the time do not change the lookup |
| PitBoard.GroupMidsAtT | internal/eval/features.go:93-144 | the loops compute the group's mids, own and related legs first, none unless two are observed |
| PitBoard.ReadFeatures | internal/eval/features.go:38-80 | the feature vector equals the specified as-of reads |
| PitBoard.BuildUniverse | internal/eval/runner.go:222-285 | the market loop builds the specified universe at a time |
| Universes.UniverseExactly | internal/eval/runner.go:228-300 | in market order exactly one candidate for each market with a positive last price at or before the time and no end date or a later one, each with the fields `Fits` says |
| Universes.CandidateFits | internal/eval/features.go:38-80 | a candidate's mid, returns over a minute, five minutes, an hour and a day, activity, book fields and time left are those of the samples, book and facts they come from |
| Universes.FactsExactly | internal/eval/runner.go:241-262 | the facts are those of the condition, with what the latest snapshot row states |
| Universes.GroupFits | internal/eval/features.go:93-144 | group mids are the last positive prices of the market itself, its related legs and the markets of its group, if at least two have one |
| Universes.VolumeFits | internal/eval/runner.go:274-277 | the volume is the snapshot's when positive, else the number of samples of the day |
| Universes.CutKeepsBusiest | internal/eval/backtest.go:161-167 | a universe above the cap keeps that many candidates, none with less volume than one left out |
| Universes.CandidateBoardExactly | internal/eval/backtest.go:161-174 | the backtest's board is the best of the cut universe, and drops exactly the quoted candidates with an extreme mid, never one for want of a book |
| PitBoard.GroupMidsAreKnown | internal/eval/features.go:93-144 | group mids depend only on what is known at the time |
| PitBoard.FeaturesArePast | internal/eval/features.go:38-80 | features depend only on samples at or before the time |
| PitBoard.UniverseIsKnown | internal/eval/runner.go:228-285 | the universe depends only on what is known at the time |
| PitBoard.BoardCannotLookAhead | internal/eval/backtest.go:161-174 | two histories that agree up to a time have the same candidate board at it |
| NoLookAhead.BoardSeesNoFuture | internal/eval/backtest.go:161-174 | on the samples themselves: histories with the same markets and the same prices, books and snapshot rows dated at or before a time have the same board at it, whatever comes later |
| Scoring.QuoteNegRisk | internal/edge/fv_negrisk.go:27-86 | summing in any map order gives the specified quote, or none |
| Verdicts.QuoteExactly | internal/edge/fv_negrisk.go:27-86 | fair value and other legs' prices make one, up to the clamp; confidence is the share of the group seen, moved by 0.15 when all prices are close to one or far from it |
| Verdicts.FairValueExactly | internal/edge/fv.go:53-109 | from the group's prices: exactly when a candidate has a fair value (enabled, enough other legs, confidence at least the minimum), and that it is then what the other legs leave of one, up to the clamp |
| Scoring.EveryLegHasResidualEdge | internal/edge/fv_negrisk.go:27-86 | in a fully observed group, at any minimum confidence its quote meets, every leg's raw model edge is one minus the sum of mids |
| Scoring.LegEdge | internal/edge/score.go:101-122 | a leg's edge is that residual less its own costs |
| Verdicts.VerdictExactly | internal/edge/score.go:45-125 | exactly which candidates are dropped, and that edge, costs, penalties and buffer add up to what fair value or opportunity makes of the rest |
| Scoring.LegsRankByCost | internal/edge/board_select.go:86-91 | among equally fresh legs the board orders by total cost alone, then tie-break |
| Cost.ImpactWalkBps | internal/edge/cost.go:96-124 | the loop over levels computes the specified walk, early stop included |
| Verdicts.CostExactly | internal/edge/cost.go:47-94 | the half spread takes the mid to the ask, and the four parts of the cost add up |
| Verdicts.WalkImpactExactly | internal/edge/cost.go:96-124 | shares at the mid, marked up by the impact, cost what was paid |
| Verdicts.WalkSpends | internal/edge/cost.go:96-124 | a walk spends the whole size, but for a billionth of a dollar, when the admissible levels offer it, and otherwise all they offer |
| Verdicts.SmallOrderPaysAsk | internal/edge/cost.go:47-124 | an order the best ask can fill costs the half spread |
| Verdicts.RootImpactExactly | internal/edge/cost.go:47-94 | without levels the squared impact grows with the size in shares of the visible depth |
| Cost.PaidWithinPrices | internal/edge/cost.go:96-124 | dollars paid lie between the lowest and the last price times the shares |
| Cost.ImpactGrowsWithSize | internal/edge/cost.go:96-124 | on ascending levels the average price never falls as size grows, despite the early stop |
| Cost.AverageWithinLevels | internal/edge/cost.go:96-124 | the average price paid lies between two admissible level prices |
| Cost.CapacityMeetsCapExactly | internal/edge/cost.go:126-147 | the impact at capacity meets the cap if and only if a dollar is visible or the cap is generous for the depth |
| Verdicts.CapacityIsLargest | internal/edge/cost.go:126-147 | from a dollar of depth up, the capacity is the largest size within the depth whose impact meets the cap |
| Cost.CapacityCanBreakCap | internal/edge/cost.go:47-147 | a concrete book whose stated capacity has twice the capped impact |
| Board.SelectBoard | internal/edge/board_select.go:33-96 | scoring, sorting and cutting give the cut of the ranked survivors |
| Board.SurvivorsExactly | internal/edge/board_select.go:40-84 | in order, exactly the candidates with a verdict survive, each with its id, edge and activity |
| Board.BoardHasBest | internal/edge/board_select.go:86-96 | the board is the best fifty, or as many as asked for: best first, and none left out is better than one on it |
| Board.RankedIsRanking | internal/edge/board_select.go:86-96 | the ranking is a permutation of the survivors, in order |
| Board.SelectTopNByEdge | internal/edgescan/select.go:18-65 | the two passes and the final sort compute the sticky cut |
| Board.StickyCutKeepsBest | internal/edgescan/select.go:18-65 | full size, all sticky survivors or the best of them, every kept non-sticky ahead of every dropped one, sorted |
| Board.PlainCutExactly | internal/edgescan/select.go:18-65 | without sticky ids it is the plain cut if and only if the rows within the cut have distinct ids |
| Board.BuildEdgeBoard | internal/edgescan/stage2.go:134-255 | the live scan publishes the sticky cut of the shared ranking, or nothing when books are required and none was seen |
| Board.LiveEqualsOffline | internal/edgescan/stage2.go:198-231 | parity: with distinct ids and no sticky set the live board is the offline board, row for row |
| Board.LiveEqualsOfflineExactly | internal/edgescan/stage2.go:198-231 | parity for all candidates: if and only if each row within the cut is the last candidate of its id and, when rows are cut off, those within have distinct ids |
| Board.RepeatedIdBreaksParity | internal/edgescan/stage2.go:198-231 | it can fail: of two candidates with one id the live board publishes the later one under the edge of the better one |
| Board.LiveWithSticky | internal/edgescan/stage2.go:198-231 | with a sticky set: same size, sorted, and the sticky cut's promises |
| Portfolio.BuildPortfolioMetrics | internal/eval/engine.go:74-156 | the labels have exactly one list of decision times; total is the last prefix sum of its period means, and the online drawdown is the largest fall between prefix sums |
| Portfolio.PeriodsExactly | internal/eval/engine.go:74-112 | the periods are exactly the times of labels of the horizon and policy |
| Portfolio.MeanIsBetween | internal/eval/engine.go:92-112 | a period's mean return lies between its labels' returns |
| Portfolio.RunCurve | internal/eval/engine.go:114-136 | one pass with a running peak finds the largest fall over all pairs |
| Portfolio.PeakIsHighest | internal/eval/engine.go:114-136 | the running peak is the highest prefix sum |
| Portfolio.FallIsLargest | internal/eval/engine.go:114-136 | the running drawdown is reached by some pair and by none exceeded |
| Portfolio.MetricsIgnoreOrder | internal/eval/engine.go:74-156 | permuting the labels changes neither periods, curve nor drawdown |
| Strategy.IndexHoldsThroughout | internal/db/strategy_versions.go:359-479 | after every statement of an activation at most one version per family is active |
| Strategy.ActivationHeals | internal/db/strategy_versions.go:359-479 | from any tables meeting that index, an activation leaves its version as the only active one, with the pointer on it |
| Strategy.ActivateKeepsGood | internal/db/strategy_versions.go:359-479 | an activation keeps pointer, statuses, undo target and log consistent |
| Strategy.InsertKeepsGoodExactly | internal/db/strategy_versions.go:130-163 | an insert keeps them consistent if and only if it does not insert as active |
| Strategy.InsertExactly | internal/db/strategy_versions.go:130-163 | exactly when an insert fails, and that it otherwise adds one row with the given fields under the next id and changes nothing else |
| Strategy.FailuresExactly | internal/db/strategy_versions.go:359-503 | exactly when an activation and a rollback fail, and with what |
| Strategy.FirstPromotion | internal/db/strategy_versions.go:359-479 | the first promotion of a family points to its version without an undo target and logs it as coming from nowhere |
| Strategy.StepKeepsGoodExactly | internal/db/strategy_versions.go:130-503 | one step keeps them consistent if and only if it is not an insert as active that succeeds |
| Strategy.EveryRunIsGoodExactly | internal/db/strategy_versions.go:130-503 | every run of inserts, activations and rollbacks keeps throughout one active version per family, the pointer on it, a different undo target of the same family, and a from/to chain whose replay is the pointer, if and only if no insert as active succeeds along it |
| Strategy.PointerMove | internal/db/strategy_versions.go:422-470 | a pointer move changes two statuses, the pointer and one log entry, nothing else |
| Strategy.RollbackUndoesPromote | internal/db/strategy_versions.go:482-503 | promote then rollback restores the pointer, with both moves logged |
| Strategy.SecondRollbackFails | internal/db/strategy_versions.go:482-503 | directly after a rollback a second one fails |
| Strategy.RollbackFailsUntilRearmed | internal/db/strategy_versions.go:359-503 | over every run after a rollback, inserts as active included, every further rollback fails for want of a target exactly as long as no promotion has moved the family's pointer |
| Strategy.StepRearmsExactly | internal/db/strategy_versions.go:359-503 | from any tables, one step brings a used-up undo back exactly when it is such a promotion |
| Strategy.UndoNeedsPointerMove | internal/db/strategy_versions.go:359-503 | from any tables, only an activation that moves the pointer brings a used-up undo back, and the version it leaves is the target |
| Strategy.Store.constructor | internal/db/strategy_versions.go:71-126 | fresh tables are empty |
| Strategy.Store.InsertStrategyVersion | internal/db/strategy_versions.go:130-163 | the insert with its checks is one step on the tables |
| Strategy.Store.ActivateStrategyVersion | internal/db/strategy_versions.go:359-479 | statement by statement it is one step on the tables, and the unique index holds in between |
| Strategy.Store.RollbackStrategyActive | internal/db/strategy_versions.go:482-503 | the rollback with its two failure cases is one step on the tables |
| TagTree.FetchCategories | cmd/top-markets/main.go:463-500 | the walk ends and fetches no tag twice; it fails if and only if some expandable reachable tag cannot be fetched, and otherwise has fetched them all and returns the tree |
| TagTree.Expand | internal/catalog/tags.go:244-284 | visiting one tag's related tags keeps levels, parents and coverage |
| TagTree.VisitRelated | internal/catalog/tags.go:244-284 | one related tag: catch-alls listed under the root and not queued, first visit deciding the parent |
| TagTree.ReachedIsCovered | cmd/top-markets/main.go:463-500 | everything reachable is listed, no later than its distance allows |
| TagTree.ChainIsShortest | cmd/top-markets/main.go:484-496 | a tag's parent chain reaches the root in exactly its shortest distance, and not before |
| TagTree.EveryChainReachesRoot | internal/catalog/tags.go:215-287 | with catch-all tags every chain still reaches the root |
| Sorting.Search | internal/eval/series.go:27-34 | the library's binary search ends at a boundary of any predicate |
| Sorting.StableSortIsStable | internal/edgescan/select.go:56-65 | a stable sort keeps equal items in their order |

## Left out

- HTTP, SQL text, JSON, logging, metrics and flags: transport only; related-tag answers are a finite graph and tables are maps.
- Floating point: prices, scores and sizes are exact reals, so nothing here speaks about rounding.
- Square roots, standard deviation and the root of 252 are parameters; of the volatility scale only its clamp matters.
- The logarithmic part of the opportunity mix, annualised Sharpe, median, random baselines and hashing.
- RiskConfig.NormalizeRepairs: `Normalize` is a function on a configuration value, because the manager receives its configuration by value; overwriting fields in place is not modelled.
- Sorts and slice compactions that reuse a backing array are modelled on values, so aliasing between a slice and its source is not visible.
- The manager's event list, nil receivers and markets, and a price refresh without a database connection.
- Router.NeverIdleWhileOutstanding: idle is one atomic reading; the program reads its counters one after another, and nothing is claimed about that.
- Router liveness: an overflow request appended after all workers block on the channel has no wake-up, so only safety is proved; the last-cursor map is not modelled.
- WarmPrices.WarmPlanIsPointwiseOptimal: the marks of warm tokens are required to be positive, because the table writer skips points without a positive time; without that it fails, as `WarmPrices.MissingMarksMissOptimum` shows.
- Strategy.EveryRunIsGoodExactly: transactions run one at a time; two concurrent first promotions of a family and `SetStrategyStatus` are outside it.
- TagTree.EveryChainReachesRoot: sports edges are empty, and a tag's catch-all status is taken as a function of its id.
- PitBoard.BoardCannotLookAhead: synthetic fill is outside it, since interpolation looks at the next sample by design; the list of markets and their end dates is taken as known in advance.
- Copying market fields back by token after offline selection, and the row and report building around boards.
- Live-only features (open interest, flow, residual) enter scoring only through the opportunity parameter.
