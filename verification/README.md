# Alephium indexer and Linx points, modelled and proved

This project models the parts of the Bento indexing framework and of the Linx indexer built on it that
carry state and arithmetic, and proves what they keep. One module per component:

- `LendingSweep`, `DailyPoints`, `PointsService`, `DayFigures`, `PointsLedger`, `Scheduler`, `Accounts`: the daily
  points. A sweep over position snapshots gathers dollar-seconds, a map of activities goes through the phases of a
  day, rows are upserted into a ledger with carry-forward, and a daemon decides which days are run; over any
  such history a user's total behaves as an account that restarts after a missing day.
- `MainChain`: the reorganisation walk over the block and transaction tables.
- `Pipeline`: the two-stage pipeline as a step protocol over two bounded channels, with failures and a
  processor that may read what the run has stored. `DexPipeline`: the swap processor in it.
- `Backfill`, `Gaps`: cutting a time range into windows and workers, and detecting and closing gaps in
  the stored heights.
- `Transfers`, `Swaps`: reading transfers out of inputs and outputs, and aggregating swaps.
- `LendingPositions`, `Series`: positions as a fold over events, snapshots of whole markets, and the
  time series shown for them.
- `Numbers`, `Sums`, `Lists`, `StableSort`, `Options`: what the others share.

## How the source's terms are read

- `BigDecimal` is an exact real: `with_scale` truncates toward zero, `round(0)` takes ties to the even
  integer, and `to_i32().unwrap_or(0)` gives 0 outside the 32-bit range. Times are integers
  (nanoseconds in the sweep, milliseconds in backfill and series, day numbers in the ledger).
- Going through a hash map is a loop that picks keys in an arbitrary order. Where a contract still names
  one result, the order cannot matter. Maps that the source orders (`BTreeMap`) are kept in order.
- Tables are maps or lists with the unique keys of the migrations. What comes from outside (node, prices,
  decimals, database contents, clock) is a parameter, and a failed lookup or request is a value of it.
- Strings are used as keys only. Lists from queries come in the order the query fixes, or in any order.

## What the code does differently from what it says

- `Pipeline`: the batches are sent into a channel of capacity 100 before its consumer is spawned, so more
  than 100 batches, and hence more than 100 workers, make `run` wait for ever.
- `Transfers`: what a gas payer puts in counts as the sender's, so a sender's transfers can exceed its input.
- `MainChain`: the walk ends only at an ancestor that is not stored; with complete history it reaches
  height 0 and panics on the missing parent.
- `Backfill`: `start == stop` asks for nothing, although a range includes its ends. A window whose fetch
  fails is skipped without the run failing. In `run_sync` the comment speaks of being behind by more than
  backstep, but the code starts at `remote - backstep` as soon as the node is ahead at all.
- `Gaps`: a height counts as failed if any processor fails, and "re-run to retry" is advised; but once its
  block is stored it is no gap any more, and is not retried.
- `PointsLedger`: re-running a past day is provided for by the upsert, but leaves later totals as they are;
  and a day's store overwrites a bonus already awarded on a row of that day. `Accounts` says when.
- `Scheduler`: a day counts as run even if its calculation failed, and is not tried again. A day without a
  stored run also makes every total start again the day after.
- `Swaps`: the order of a transaction's swaps is taken from the event index, which is a constant of the
  exchange, so chains over both exchanges can be turned round. A pool created twice is read by its last
  definition in memory, but the pools table keeps the first.
- `DexPipeline`: batches are processed ahead of storage, so a swap whose pool an earlier batch creates is
  dropped if that batch is not stored yet, and `run` still returns Ok.
- `LendingPositions`: paging stops at the first page without an open position, not at the last page.
- `Series`: the aggregate truncates figures that the single-market series shows as they are.

## Model

| member | source | states |
|---|---|---|
| LendingSweep.ExactSweepIsIntegral | examples/linx-indexer/src/services/points_calculator_service.rs:370-412 | The period-by-period sweep over all markets at once, with exact durations, equals the sum over snapshots of amount times the time until the same market's next snapshot in stable order, or the end; so the last of several writes at one moment wins |
| LendingSweep.SweepExactOnWholeSeconds | examples/linx-indexer/src/services/points_calculator_service.rs:387-412 | With whole-second timestamps, truncating each period to seconds loses nothing: dollar-seconds, times 10^9, are the exact integral |
| LendingSweep.SweepBounds | examples/linx-indexer/src/services/points_calculator_service.rs:396-412 | With any timestamps and non-negative amounts the truncated sweep never exceeds the integral, and falls short by at most one second of every non-empty period's aggregate amount |
| LendingSweep.SweepUser | examples/linx-indexer/src/services/points_calculator_service.rs:355-417 | The loop over the deduplicated boundaries, with its running snapshot index and state map, computes the sweep's totals and volumes of the stably sorted snapshots; every snapshot is applied exactly once |
| LendingSweep.SweepPeriod | examples/linx-indexer/src/services/points_calculator_service.rs:382-416 | One period: applies the snapshots at its start, adds the aggregate for its truncated length, and skips lengths that are not positive |
| LendingSweep.Aggregate | examples/linx-indexer/src/services/points_calculator_service.rs:389-394 | Summing the states in any order of the map gives what is held over all markets |
| DailyPoints.ActivityTable.CalculateSwapPoints | examples/linx-indexer/src/services/points_calculator_service.rs:207-293 | The map after the swap phase as a function of the map before and the swaps, for every iteration order; without a rate, or for a swap without token data or price, nothing changes |
| DailyPoints.ActivityTable.CalculateLendingPoints | examples/linx-indexer/src/services/points_calculator_service.rs:298-437 | The map after the lending phase as a function of the map before, the period's snapshots and the rates, for every iteration order of the users |
| DailyPoints.ActivityTable.ApplyMultipliers | examples/linx-indexer/src/services/points_calculator_service.rs:441-472 | Every activity gets the rounded share of its base points for the multiplier found, and nothing else changes |
| DailyPoints.BestMultiplierIsHighest | examples/linx-indexer/src/services/points_calculator_service.rs:449-462 | The multiplier found is the first among those with the highest threshold the volume reaches; none is found exactly if no threshold is reached |
| DailyPoints.ActivityTable.CalculateReferralPoints | examples/linx-indexer/src/services/points_calculator_service.rs:475-520 | For every order of the referrers the map afterwards is the same function of the map before, although the loop inserts into the map it reads |
| DailyPoints.ReferralsOnlyTouchReferralPoints | examples/linx-indexer/src/services/points_calculator_service.rs:510-518 | The referral phase changes referral_points only, and adds only activities that are otherwise empty |
| DailyPoints.EarnedStable | examples/linx-indexer/src/services/points_calculator_service.rs:489-503 | What a referrer's users earn is the same before and after other referrers have been credited |
| DailyPoints.GroupingConserves | examples/linx-indexer/src/services/points_calculator_service.rs:482-505 | Grouped by referrer or not, the referred users' points have the same sum |
| DailyPoints.ReferredAtMostBase | examples/linx-indexer/src/services/points_calculator_service.rs:489-503 | With each user referred at most once, what all referred users earn is at most the sum of all base points |
| DailyPoints.ReferralsRiseByAwards | examples/linx-indexer/src/services/points_calculator_service.rs:510-518 | The referral points in the map rise by exactly the sum of the awards |
| DailyPoints.ReferralBudget | examples/linx-indexer/src/services/points_calculator_service.rs:475-520 | With each user referred at most once, non-negative base points and percentage: the awards, and the rise of the referral points in the map, are at most the percentage of all base points plus one half per referrer |
| PointsService.DayActivitiesAreOf | examples/linx-indexer/src/services/points_calculator_service.rs:99-139 | A day has an activity for exactly those with a swap of known value, with a snapshot of that day, each as far as rewarded, and those who referred somebody |
| PointsService.DayActivitiesWellKeyed | examples/linx-indexer/src/services/points_calculator_service.rs:512-514 | After all phases every activity's address is the key it is filed under |
| DayFigures.VolumeIsTotal | examples/linx-indexer/src/services/points_calculator_service.rs:236-279 | A user's volume is the sum over that user's swaps with known decimals and price of the value v for which v times ten to the decimals is amount times price |
| DayFigures.VolumesConserve | examples/linx-indexer/src/services/points_calculator_service.rs:236-279 | All users' volumes add up to the sum of the values of all swaps of known value |
| DayFigures.SwapPointsAreOfTotal | examples/linx-indexer/src/services/points_calculator_service.rs:282-290 | Through all phases: a user with a swap of known value has that sum as volume, and as swap points the least integer not below the rate times it, or 0 if that does not go into 32 bits |
| DayFigures.LendingPointsAreIntegral | examples/linx-indexer/src/services/points_calculator_service.rs:337-429 | Through all phases: with whole-second snapshots a user's supply points, and the borrow points, are within one half of the integral in dollar-nanoseconds times the daily rate over 86400 times 10^9, or 0 if that does not go into 32 bits |
| DayFigures.LendingPointsBounds | examples/linx-indexer/src/services/points_calculator_service.rs:337-429 | With any snapshots of non-negative amounts and non-negative rates, the points are within one half of the range from the pay for the integral less one second of every period's aggregate amount up to the pay for the integral |
| DayFigures.OnePosition | examples/linx-indexer/src/services/points_calculator_service.rs:337-429 | A user whose only snapshot of the day is some whole seconds before midnight gets, rounded, amount times rate times seconds over 86400, on either side, and the amount as volume once |
| DayFigures.FivePastMidnight | examples/linx-indexer/src/services/points_calculator_service.rs:760-782 | 1000 dollars supplied from five past midnight at 10 points a dollar and day give 9965 points |
| DayFigures.BasePointsAre | examples/linx-indexer/src/services/points_calculator_service.rs:441-472 | Every activity's volume is that of swaps, supplies and borrows; its base points are those for the three, plus, within one half, their product with a multiplier of the highest threshold the volume reaches, if there is one |
| DayFigures.ReferralPointsAre | examples/linx-indexer/src/services/points_calculator_service.rs:475-520 | A referrer's referral points are within one half of the percentage of the summed base points of all users referred that have swap, supply or borrow points; everybody else has none |
| PointsService.PointsRepository.BuildRows | examples/linx-indexer/src/services/points_calculator_service.rs:540-603 | The rows built have pairwise distinct keys and are exactly those of today's active users and of the previous day's users; the carried-forward count is a difference that never underflows |
| PointsService.UpsertIsStored | examples/linx-indexer/src/repository/points_repository.rs:667-699 | Upserting rows with distinct keys is the table update the ledger lemmas are about |
| PointsService.PointsRepository.InsertSnapshots | examples/linx-indexer/src/repository/points_repository.rs:667-699 | The upsert succeeds exactly if no key repeats, and then inserts or replaces row by row; otherwise the table is unchanged |
| PointsService.PointsRepository.StoreSnapshots | examples/linx-indexer/src/services/points_calculator_service.rs:526-605 | A day's store always succeeds and leaves exactly the specified table |
| PointsService.PointsRepository.AwardBonusPoints | examples/linx-indexer/src/repository/points_repository.rs:726-775 | The bonus goes to the season's latest row, or to a new row for yesterday |
| PointsService.PointsRepository.CalculatePointsForDate | examples/linx-indexer/src/services/points_calculator_service.rs:99-139 | Fails exactly without an active season, changing nothing; otherwise stores the day's activities of all phases |
| PointsService.PointsRepository.CalculatePointsForRange | examples/linx-indexer/src/services/points_calculator_service.rs:143-150 | The loop over days is the composition of the days' stores |
| PointsLedger.RowShows | examples/linx-indexer/src/services/points_calculator_service.rs:540-595 | The day's row shows the figures of the user's activity, or, for a user of the day before without one, that row with everything but total and multiplier set to zero |
| PointsLedger.DayKeepsLaw | examples/linx-indexer/src/services/points_calculator_service.rs:540-595 | Storing a day keeps `total = yesterday's total + base + referral` for every row exactly if, for every next-day row, the new total, computed from the table before and the activities, is the one that row was made from; it does if the season has no next-day row |
| PointsLedger.RerunOfPastDayBreaksLaw | examples/linx-indexer/src/services/points_calculator_service.rs:540-595 | Re-running one past day alone can leave the next day's row with a total that no longer adds up |
| PointsLedger.RangeKeepsLaw | examples/linx-indexer/src/services/points_calculator_service.rs:143-150 | Recomputing a range of days up to the last stored one restores the law, whichever rows of those days do not add up, as long as each of those has a row before it |
| PointsLedger.RangeMendsRerun | examples/linx-indexer/src/services/points_calculator_service.rs:143-150 | Whatever a re-run of a past day broke, running the days from it, or from the day after, up to the last stored one restores the law |
| PointsLedger.BonusShows | examples/linx-indexer/src/repository/points_repository.rs:726-775 | A bonus raises referral points and total of the season's latest row and nothing else; a user without a row gets one for yesterday that holds the bonus only |
| PointsLedger.BonusKeepsLaw | examples/linx-indexer/src/repository/points_repository.rs:726-775 | A bonus keeps the law, whatever the table |
| PointsLedger.BonusForgottenIff | examples/linx-indexer/src/repository/points_repository.rs:667-699 | After storing a day the row a bonus went to is the same whatever the bonus, exactly if that row is one the day writes |
| PointsLedger.SignUpBonusLost | examples/linx-indexer/src/repository/points_repository.rs:726-775 | A bonus on a new row for yesterday is gone once yesterday is run for the first time |
| PointsLedger.RunKeepsLaw | examples/linx-indexer/src/services/points_calculator_service.rs:526-605 | Every table reached by any run of allowed day stores and bonuses obeys the law |
| PointsLedger.TotalsTelescope | examples/linx-indexer/src/services/points_calculator_service.rs:545-554 | Over contiguous days a total is the total before the first plus all base and referral points since |
| PointsLedger.TotalsNeverFall | examples/linx-indexer/src/services/points_calculator_service.rs:545-554 | With non-negative base points, referral points and bonuses no total of any run is below the day before's |
| Scheduler.RunScheduler | examples/linx-indexer/src/services/points_calculator_service.rs:153-197 | The dates processed and, of those, the dates stored, over any number of ticks with any calculations failing |
| Scheduler.DueFromTargetOn | examples/linx-indexer/src/services/points_calculator_service.rs:175-177 | A moment is due exactly if its minutes since midnight have reached those of the target, so every later moment of the day is |
| Scheduler.ProcessedIff | examples/linx-indexer/src/services/points_calculator_service.rs:175-185 | A day is processed if and only if some tick of the day after is at or past the target time |
| Scheduler.ProcessedIncreasingIff | examples/linx-indexer/src/services/points_calculator_service.rs:175-195 | Processed dates are strictly increasing exactly if the days of due ticks never go back |
| Scheduler.ScheduleComplete | examples/linx-indexer/src/services/points_calculator_service.rs:167-197 | With a clock that goes forward the dates are strictly increasing, and contiguous exactly if every day between the first and the last has a due tick on the day after |
| Scheduler.StoredIff | examples/linx-indexer/src/services/points_calculator_service.rs:175-195 | With a clock that goes forward a day is stored exactly if the calculation at the first due tick of the next day succeeds |
| Scheduler.DayLost | examples/linx-indexer/src/services/points_calculator_service.rs:190-194 | A day whose calculation fails is lost although it would succeed five minutes later |
| Scheduler.LedgerGetsStoredDates | examples/linx-indexer/src/services/points_calculator_service.rs:184-194 | The days the ledger gets, among any bonuses, are the dates stored |
| Scheduler.LedgerAddsUp | examples/linx-indexer/src/services/points_calculator_service.rs:167-197 | Started on a ledger of earlier days with a clock that goes forward, the daemon keeps the ledger's law, whichever calculations fail and whatever bonuses are awarded in between |
| Accounts.LatestRowIsAccount | examples/linx-indexer/src/services/points_calculator_service.rs:540-595 | Under the daemon, over any history of ticks, failures, seasons and bonuses, a user's latest row of a season is the account: a day's points are added if the row before is of the day before, and replace it otherwise; a bonus is added to it, or opens it on the day before the award |
| Accounts.TotalIsSinceRestart | examples/linx-indexer/src/services/points_calculator_service.rs:545-554 | That total is everything earned and awarded since the last step that stored points of the user although the latest row was not of the day before |
| Accounts.KeepsAllIff | examples/linx-indexer/src/services/points_calculator_service.rs:545-554 | With non-negative points and bonuses a user's total never exceeds what was credited, and is all of it exactly if no restart finds points on the account |
| Accounts.RestartNeedsHole | examples/linx-indexer/src/services/points_calculator_service.rs:545-554 | In one season, if bonuses go to users with a row or are awarded once the day before is stored, an account restarts only after a hole in the stored days |
| Accounts.SignUpBonusLostIff | examples/linx-indexer/src/repository/points_repository.rs:726-775 | Under the daemon a bonus to a user without a row is gone after the next store exactly if that stores points of the user for another day than the day of the award; for the day before, only if the award came before any due tick of its day |
| Accounts.ScheduledTotalsCumulativeIff | examples/linx-indexer/src/services/points_calculator_service.rs:167-197 | For the daemon's own histories over given ticks, with any points and settled bonuses of one season: everybody's latest total is always everything earned and awarded, exactly if for every day from the first stored to the last the calculation at the first due tick of the next day succeeds |
| MainChain.Database.UpdateMainChain | crates/bento-types/src/repository/mod.rs:39-79 | The walk terminates, ends as specified, and marks exactly the visited blocks and their rivals, in the block and the transaction table |
| MainChain.Database.UpdateMainChainStatus | crates/bento-types/src/repository/mod.rs:82-107 | Sets the flag of all given blocks and of their transactions, in any order, and of nothing else |
| MainChain.ReturnsIffAncestorMissing | crates/bento-types/src/repository/mod.rs:48-78 | Called for a block of the named chain, the walk returns exactly if some ancestor is missing before genesis, and returns that ancestor; otherwise, with usable dependencies, it ends in the unwrap at height 0 |
| MainChain.CompleteHistoryPanics | crates/bento-types/src/repository/mod.rs:48-78 | A complete history of a genesis block and its child: the walk visits both and ends in the unwrap |
| MainChain.VisitedIsPath | crates/bento-types/src/models/block.rs:30-40 | The visited blocks are a path: each lists the next, and the last the hash returned, as its dependency at the group number, 4 without one; the hash returned is not stored, and the walk panics over dependencies only at a block where some are absent or the number is outside the list |
| MainChain.VisitedAloneInSlot | crates/bento-types/src/repository/mod.rs:58-72 | After the walk a visited block is main and the only main block of its chain and height |
| MainChain.OthersUntouched | crates/bento-types/src/repository/block.rs:58-78 | Only flags change, and only in the named chain at heights that were visited |
| MainChain.WalkKeepsOneMain | crates/bento-types/src/repository/mod.rs:58-72 | If no slot had two main blocks before the walk, none has afterwards |
| MainChain.WalkKeepsInStep | crates/bento-types/src/repository/mod.rs:88-105 | Transactions that carried their block's flag still do, and those of every block whose flag is set do |
| Pipeline.StepKeepsInv | crates/bento-core/src/workers/pipeline.rs:28-95 | Every step of every interleaving, failing or not, keeps the invariant that nothing is lost, doubled or reordered, and that each output was made from its batch and a prefix of the earlier outputs in the database |
| Pipeline.StoredInOrder | crates/bento-core/src/workers/pipeline.rs:28-95 | In every interleaving what is stored is a prefix of the outputs made, one for each batch in order, each made with some of the earlier ones written, and run returns Ok exactly if all batches' outputs are stored |
| Pipeline.PureStoredInOrder | crates/bento-core/src/workers/pipeline.rs:28-95 | For a processor that does not read what the run writes, what is stored is an in-order prefix of the processed batches, whatever the interleaving |
| Pipeline.NeverStuck | crates/bento-core/src/workers/pipeline.rs:34-91 | With at most 100 batches some step is possible until run has returned |
| Pipeline.ReturnsIffFits | crates/bento-core/src/workers/pipeline.rs:29-38 | A run that cannot go on has returned exactly if there were at most 100 batches; with more, run hangs in its own send because no consumer exists yet |
| Pipeline.HangsWhenFull | crates/bento-core/src/workers/pipeline.rs:29-38 | For any more than 100 batches there is a run that cannot go on and has not returned |
| Pipeline.RunsAreFinite | crates/bento-core/src/workers/pipeline.rs:45-91 | No run has more than 8 steps per batch and 4 more |
| Pipeline.Run | crates/bento-core/src/workers/stage.rs:18-52 | An execution with an arbitrary scheduler and arbitrary failures terminates; every output is made from its batch and earlier outputs, what is stored is a prefix of them; Ok exactly if everything is stored |
| Backfill.WorkersChained | crates/bento-core/src/workers/fetch.rs:14-30 | The workers' ranges are the window cut at chunk boundaries, contiguous, and only the last is longer, by the remainder |
| Backfill.FetchParallel | crates/bento-core/src/workers/fetch.rs:9-62 | Succeeds exactly if every worker's fetch does, with the batches in order |
| Backfill.WindowPassesLimit | crates/bento-core/src/workers/fetch.rs:66-73 | If the node answers everything, a window is fetched exactly if chunk plus remainder is within the limit of a request |
| Backfill.BackfillCovers | crates/bento-core/src/workers/worker.rs:109-121 | The flattened worker ranges are contiguous from start to stop, and hold every time of the closed interval exactly if start is before stop: for start == stop nothing is asked for |
| Backfill.BlockHandedIff | crates/bento-core/src/workers/worker.rs:109-121 | A block reaches the pipeline exactly if its time lies in a window all of whose fetches succeed and before which no window's pipeline failed or hung |
| Backfill.BackfillComplete | crates/bento-core/src/workers/worker.rs:109-121 | If the node answers every request and shares stay within the limit: the run is done exactly with at most 100 workers and the pipeline succeeding on every window, and then every block of the closed interval has reached the pipeline; with more workers it hangs on the first window |
| Backfill.DoneHandsOverIff | crates/bento-core/src/workers/worker.rs:109-121 | A run that is done has handed over exactly the blocks in fetched windows; so every block of the interval exactly if each lies in a window that was fetched |
| Backfill.StopsAt | crates/bento-core/src/workers/worker.rs:109-121 | A run that fails does so at the first fetched window whose pipeline fails, with at most 100 workers; one that hangs does so at the first fetched window, with more |
| Backfill.SkippedWindowStillDone | crates/bento-core/src/workers/worker.rs:109-121 | A run that is done although its window was not fetched and a block of the interval was not handed over |
| Backfill.RunBackfill | crates/bento-core/src/workers/worker.rs:109-121 | How the loop ends - done, failed at a window, or hung at one - and what it hands over: exactly the fetched windows up to and including the first whose pipeline does not succeed |
| Backfill.WindowEndsIffFewWorkers | crates/bento-core/src/workers/worker.rs:167-184 | A fetched window's pipeline run comes to an end exactly if there are at most 100 workers |
| Backfill.SyncCoversIff | crates/bento-core/src/workers/worker.rs:132-150 | Over any number of turns, fetches failing or not: every time from the start to the latest stored one is fetched exactly if at every turn that fetches the node is ahead of what is stored by at most backstep and a millisecond |
| Backfill.HoleAfterLongPause | crates/bento-core/src/workers/worker.rs:132-150 | One turn, with the node far ahead, after which a time between the start and the latest stored one is not fetched |
| Gaps.DetectsGaps | examples/linx-indexer/src/services/gap_detection_service.rs:54-82 | The heights the query finds for a chain are strictly increasing and exactly the absent ones between two stored heights at or above the minimum, duplicates or not |
| Gaps.DetectBlockGaps | examples/linx-indexer/src/services/gap_detection_service.rs:84-112 | One entry for each chain with a gap, with exactly its missing heights, whatever the order of chains in the query result and of the map |
| Gaps.Transpose | examples/linx-indexer/src/services/gap_detection_service.rs:157-162 | From chains with heights to heights with chains, losing and doubling nothing |
| Gaps.ChainsMissingAreGaps | examples/linx-indexer/src/services/gap_detection_service.rs:157-162 | Each height's list holds each chain with a gap there once, and no other |
| Gaps.Indexer.SyncAtHeight | crates/bento-core/src/workers/worker.rs:195-306 | All blocks of a height are fetched before any processor runs; then each processor runs its own pipeline, the height fails if any does, and its blocks are stored exactly if the block processor succeeds |
| Gaps.Indexer.BackfillGaps | examples/linx-indexer/src/services/gap_detection_service.rs:148-208 | Visits each (height, chain) pair with a gap once, in height order, goes on after failures, stores inside gaps only, and counts successes and failures; the gaps left are the pairs not fetched or whose blocks were not stored |
| Gaps.SecondDetection | examples/linx-indexer/src/services/gap_detection_service.rs:54-117 | Storing blocks inside gaps opens no new gap: a second detection finds exactly the gaps still without a block |
| Gaps.GapsLeftAre | examples/linx-indexer/src/services/gap_detection_service.rs:148-208 | After a backfill a second detection finds exactly the pairs whose fetch failed or whose blocks were not stored |
| Gaps.GapLeftIff | examples/linx-indexer/src/services/gap_detection_service.rs:148-208 | A gap is left exactly if the node does not serve the block of some chain with a gap at its height, or the block processor fails there |
| Gaps.FailedFoundAgainIff | examples/linx-indexer/src/services/gap_detection_service.rs:180-213 | A failed height is found again exactly if its blocks were not stored; running again retries all failures exactly if none failed after its blocks were stored; nothing is found if all succeeded |
| Gaps.FailedHeightLost | examples/linx-indexer/src/bin/gap_detector.rs:77-91 | An input where a height fails in another processor after its block was stored, so that running again does not retry it |
| Transfers.Accumulate | examples/linx-indexer/src/processors/transfer_processor.rs:125-157 | The map built holds exactly the sum of every token at every address that shows it, ALPH at all of them |
| Transfers.OneSender | examples/linx-indexer/src/processors/transfer_processor.rs:137-148 | After the early exits at most one input address is not a gas payer |
| Transfers.TransferUnique | examples/linx-indexer/src/processors/transfer_processor.rs:171-222 | A receiver and a token make at most one transfer |
| Transfers.ExtractTokenTransfers | examples/linx-indexer/src/processors/transfer_processor.rs:115-226 | The records are one sender/receiver pair for each transfer: sender distinct from the receiver and no gas payer, amount equal to the receiver's summed output, above its own input, within the sender's input, and above dust for ALPH |
| Transfers.OrderDoesNotMatter | examples/linx-indexer/src/processors/transfer_processor.rs:171-222 | The multiset of records is the same for every order in which the maps are gone through |
| Transfers.PaymentRecordedIff | examples/linx-indexer/src/processors/transfer_processor.rs:125-222 | A payment of ALPH and of a token in two amounts each: the summed token is recorded exactly if it is positive and covered, the summed ALPH exactly if it is above 10^15 and covered |
| Transfers.TransfersWithinInputs | examples/linx-indexer/src/processors/transfer_processor.rs:171-222 | If no more of a token comes out than is put in, its transfers and the change back to the sender together stay within what the sender and the gas payers put in |
| Transfers.TransfersExceedSender | examples/linx-indexer/src/processors/transfer_processor.rs:137-148 | A transaction whose two transfers together exceed what their sender put in, a gas payer having paid part |
| Transfers.AmountIsGainIff | examples/linx-indexer/src/processors/transfer_processor.rs:177-193 | A recorded amount is what the receiver gains exactly if the receiver put in none of the token; it is never less, and a receiver that put some in is a gas payer |
| Swaps.AggregateMultiHopSwaps | examples/linx-indexer/src/processors/dex_processor.rs:282-418 | Exactly one row per transaction id, and it is the aggregate of that transaction's swaps in the order found |
| Swaps.OrderDoesNotMatter | examples/linx-indexer/src/processors/dex_processor.rs:298-300 | The rows are the same for every order of the map of transactions |
| Swaps.OrderedEnds | examples/linx-indexer/src/processors/dex_processor.rs:323-324 | The sorted and reversed list starts with the latest swap of the highest event index and ends with the earliest one of the lowest |
| Swaps.ReverseEmissionIff | examples/linx-indexer/src/processors/dex_processor.rs:320-324 | The list is the reverse of the emission order exactly if event indexes never decrease in emission order |
| Swaps.EndsIff | examples/linx-indexer/src/processors/dex_processor.rs:323-324 | The ordered list starts with the swap emitted last and ends with the one emitted first exactly if no event index is outside those two |
| Swaps.RouteEndsIff | examples/linx-indexer/src/processors/dex_processor.rs:383-410 | A route emitted in reverse that gives and gets no token twice is shown from its first token to its last exactly if no event index is outside those at its ends |
| Swaps.MixedRouteMisread | examples/linx-indexer/src/processors/dex_processor.rs:122-255 | As the event index only tells the exchange, the events of a route from Ayin to Elexium become a row from the middle token to itself |
| Swaps.SplitConserves | examples/linx-indexer/src/processors/dex_processor.rs:344-382 | Swaps over one token pair keep the pair and their summed amounts in and out, and count all of them |
| Swaps.MultiHopEnds | examples/linx-indexer/src/processors/dex_processor.rs:383-410 | Swaps over different pairs show the input of the first and the output of the last of the ordered list, and count all of them |
| Swaps.RowNamesPools | examples/linx-indexer/src/processors/dex_processor.rs:325-410 | The row of several swaps is of the user of the first of the ordered list, and lists the pools in the list's order |
| Swaps.JoinPoolsConcat | examples/linx-indexer/src/processors/dex_processor.rs:325-410 | The pools of two lists one after the other are those of both with a comma between |
| Swaps.HopsAddUp | examples/linx-indexer/src/processors/dex_processor.rs:282-418 | The hop counts of all rows add up to the number of swaps read |
| Swaps.ExtractedShape | examples/linx-indexer/src/processors/dex_processor.rs:122-255 | Every swap read has hop count 1, and event index 2 or 3 |
| Swaps.ReadAsTradedIff | examples/linx-indexer/src/processors/dex_processor.rs:122-255 | An event is read exactly if its pool is known and it has the number of the exchange's swap event, as its sender's swap in its transaction and pool; the swap shows what went in and came out of every token exactly if one token only went in and the other only came out |
| Swaps.MirrorReadsTheSame | examples/linx-indexer/src/processors/dex_processor.rs:139-168 | If exactly one token was put in, exchanging the tokens' roles in the pool and the event changes nothing |
| Swaps.SecondTokenSold | examples/linx-indexer/src/processors/dex_processor.rs:139-168 | 5 of the pool's second token sold for 3 of its first, from the event to the row |
| Swaps.ProcessBlocks | examples/linx-indexer/src/processors/dex_processor.rs:454-481 | Each block is read with the stored pools and those of all blocks up to and including it, later ones replacing earlier ones |
| Swaps.BatchesCompose | examples/linx-indexer/src/processors/dex_processor.rs:460-467 | Reading two batches, the second with the first one's pools in memory as they are within a batch, gives the pools and swaps of reading them as one |
| Swaps.ComposesOverTableIff | examples/linx-indexer/src/repository/pool_repository.rs:21-35 | With the first batch's pools stored in the table, which keeps the first definition of an address: every later batch reads as if both were one exactly if no pool is redefined in a way that is read differently |
| Swaps.RedefinedPoolReadTwice | examples/linx-indexer/src/repository/pool_repository.rs:21-35 | An address created twice: the same swap shows the second definition's token in memory and the first one's after a store |
| Swaps.RowsCompose | examples/linx-indexer/src/processors/dex_processor.rs:470 | If no transaction is in both, the rows of two batches are the rows of both together |
| DexPipeline.SwapLostIff | examples/linx-indexer/src/processors/dex_processor.rs:454-481 | With each pool defined in one way: a swap is lost exactly if its pool is created in an earlier batch not yet in the table when its batch is processed, and neither stored before the run nor created in what is in the table or in its own batch so far; otherwise it is read the same |
| DexPipeline.RunStoresAllIff | crates/bento-core/src/workers/pipeline.rs:28-95 | In any interleaving in which run returns Ok, with each pool defined in one way: what is stored is all swaps of the batches read as one exactly if none is lost, and never more |
| DexPipeline.SwapLost | examples/linx-indexer/src/processors/dex_processor.rs:454-498 | An interleaving in which the second batch is processed before the first is stored: run returns Ok and the swap is not stored |
| LendingPositions.CalculateUserPosition | examples/linx-indexer/src/repository/lending_repository.rs:396-486 | The loop computes plain signed sums for shares and collateral, clamped amounts and the latest time; no position exactly without events or with shares and collateral all zero |
| LendingPositions.PositionIffNotSquare | examples/linx-indexer/src/repository/lending_repository.rs:408-476 | There is no position exactly if the shares supplied are those withdrawn, the shares borrowed those repaid or liquidated, and the collateral supplied that withdrawn or liquidated; a position holds the three differences, and the latest event time |
| LendingPositions.RunningIsMaxSuffix | examples/linx-indexer/src/repository/lending_repository.rs:413-449 | For non-negative amounts the clamped amount is the largest sum of signed changes over any suffix of the events, the empty one included |
| LendingPositions.PositionAmounts | examples/linx-indexer/src/repository/lending_repository.rs:403-486 | With non-negative amounts a position's supplied amount is the largest suffix sum of amounts supplied less withdrawn, and its borrowed amount that of amounts borrowed less repaid and less the assets repaid in liquidations, where these can be read |
| LendingPositions.ClampBitesIff | examples/linx-indexer/src/repository/lending_repository.rs:413-449 | The clamped amount is never below the net, and is the net exactly if no prefix of the events nets below zero |
| LendingPositions.PositionOfPermuted | examples/linx-indexer/src/repository/lending_repository.rs:403-467 | Whether there is a position, its shares, collateral and time do not depend on the order of the events |
| LendingPositions.LastTimeIsMax | examples/linx-indexer/src/repository/lending_repository.rs:461-464 | updated_at is the largest event time |
| LendingPositions.CalculatePositionsForMarket | examples/linx-indexer/src/repository/lending_repository.rs:488-509 | The open positions of the page's addresses, in order |
| LendingPositions.ToAssetsMonotone | examples/linx-indexer/src/services/position_snapshot_service.rs:116-131 | More shares are never converted to fewer assets |
| LendingPositions.PoolNotExceeded | examples/linx-indexer/src/services/position_snapshot_service.rs:116-131 | If non-negative shares sum to at most the pool's, the truncated amounts sum to at most the pool's assets |
| LendingPositions.SnapshotShows | examples/linx-indexer/src/services/position_snapshot_service.rs:116-156 | A snapshot's amounts are the largest integers within shares times (pool assets + 1) over (pool shares + 1000000), and its dollar values are the whole cents of amount times price over the token's unit, in the loan token for supply and borrow and the other for collateral |
| LendingPositions.SnapshotsWithinPool | examples/linx-indexer/src/services/position_snapshot_service.rs:116-131 | The supply and borrow amounts of all snapshots are within the pool's totals |
| LendingPositions.UsdWithinPool | examples/linx-indexer/src/services/position_snapshot_service.rs:116-156 | The dollar values of all snapshots add up to no more than the pool's assets are worth |
| LendingPositions.GenerateSnapshots | examples/linx-indexer/src/services/position_snapshot_service.rs:101-170 | The paging loop terminates and stores the open positions of the pages before the first page with none open, in order |
| LendingPositions.CoveredIff | examples/linx-indexer/src/services/position_snapshot_service.rs:101-170 | No address is listed twice, and all open positions are covered exactly if none comes after the first page without one |
| LendingPositions.LatePositionMissed | examples/linx-indexer/src/services/position_snapshot_service.rs:101-170 | A market of 101 users in which only the last has a position: it gets no snapshot |
| Series.SingleMarketSeries | examples/linx-indexer/src/routers/lending_router.rs:589-622 | The columns hold the points' rows in stable order of their buckets |
| Series.AggregateSeries | examples/linx-indexer/src/routers/lending_router.rs:626-694 | The columns hold one row per bucket in ascending order, computed from the bucket's points |
| Series.SeriesShape | examples/linx-indexer/src/routers/lending_router.rs:626-694 | All columns are equally long, timestamps are the strictly ascending buckets, and every place shows its bucket's own figures |
| Series.RatesAre | examples/linx-indexer/src/routers/lending_router.rs:456-458 | Utilization times supply is borrow, and 0 without supply; the supply rate times supply is what borrowers pay less the fee in units of 10^-18 |
| Series.SingleSeriesShows | examples/linx-indexer/src/routers/lending_router.rs:589-622 | Every place of one market's columns shows its point's figures, the value locked with the digits beyond cents, and the utilization and supply rate with those beyond thousandths, dropped |
| Series.BucketShows | examples/linx-indexer/src/routers/lending_router.rs:409-454 | A bucket's figures are the sums over its points in whole cents and the means of the three rates, weighted by supply plus collateral, in whole thousandths, the rest dropped; so are the headline's, with the collateral sum and supply less borrow |
| Series.AggregateSeriesShows | examples/linx-indexer/src/routers/lending_router.rs:626-694 | Every place of the aggregate's columns shows these sums and means over the points of its time |
| Series.UtilizationShown | examples/linx-indexer/src/routers/lending_router.rs:589-694 | On one market's points, where value is locked, both series show borrow over supply less than 0.001 below |
| Series.BucketsPartition | examples/linx-indexer/src/routers/lending_router.rs:627-631 | Every point goes into exactly one bucket: any figure summed over the buckets is its sum over the points |
| Series.AverageBetween | examples/linx-indexer/src/routers/lending_router.rs:671-681 | With non-negative TVLs, not all zero, a weighted rate lies between any bounds on the rates of the markets that hold something; with all zero it is 0 |
| Series.SeriesAgreeIff | examples/linx-indexer/src/routers/lending_router.rs:589-694 | On one market's points the two series are the same exactly if every point has USD values of scale 2, borrow APY of scale 3 and, without TVL, no rates |
| Series.UnlockedMarketShownDifferently | examples/linx-indexer/src/routers/lending_router.rs:671-681 | On every market with nothing locked and a borrow rate the two series differ |
| Series.EmptiedMarketShownDifferently | examples/linx-indexer/src/routers/lending_router.rs:671-681 | One such market, as a concrete point |
| Series.BuildAggregate | examples/linx-indexer/src/routers/lending_router.rs:409-454 | The headline figures are those of a bucket of all snapshots, with the collateral sum and supply minus borrow as liquidity |
| Series.SupplyApyConserves | examples/linx-indexer/src/services/market_state_snapshot_service.rs:280-294 | What suppliers earn on their assets is what borrowers pay on theirs less the fee |
| Series.SupplyApyBounded | examples/linx-indexer/src/services/market_state_snapshot_service.rs:280-294 | The supply rate is between 0 and the borrow rate if no more is lent than supplied and the fee is a fraction |
| Series.ApyIsTaylor | examples/linx-indexer/src/services/market_state_snapshot_service.rs:269-275 | The scaled computation is x + x^2/2 + x^3/6, x being the rate per second times 31536000 over 10^18 |

## Left out

- HTTP, SQL and connection mechanics, logging, configuration and JSON decoding: records come decoded, and queries are functions of the tables.
- Integer widths: i32, i64 and u64 arithmetic is unbounded here, so overflow is not modelled (conversions by `to_i32().unwrap_or(0)` are); heights are not cast between signed and unsigned.
- The precision limit of `BigDecimal` division, and the conversion of the referral percentage from a float.
- Backfill.RunBackfill: requires a positive step and at least one worker; the source loops for ever on step 0 and divides by zero without workers. What a failed pipeline has stored of its window.
- Backfill.SyncCoversIff: is for times from which backstep can be taken off and a node whose latest block does not go back; subtractions wrap as in a release build, where a debug build panics.
- MainChain.Database.UpdateMainChain: requires stored parents to be lower than their children, without which the loop need not end.
- Gaps.Indexer.SyncAtHeight: an empty list of hashes, on which the source panics, counts as a failed fetch; the block processor's single insert is taken to have happened exactly if it reports success; the tables of the other processors.
- Pipeline.StoredInOrder: a store of several statements is seen by a reader wholly or not at all.
- Gaps.DetectBlockGaps: the order of chains in the report, which the source sorts; the report's total is the sum of the lengths and is not stated.
- LendingPositions.SnapshotsWithinPool: is about the positions listed, with their shares within the pool's; that the events' shares are, is the chain's affair.
- LendingPositions.GenerateSnapshots: is for one market and a table that does not change meanwhile; the loop over markets and its skips on failed lookups.
- The endless loops around `RunScheduler` and `run_sync`: they are followed over any finite number of ticks and turns.
- The classifier and `process_blocks` around the transfer extraction, pool event parsing, and the columns of stored records that are copied from the transaction and block.
- `liquidation_bonus_fraction`, `wad_to_fraction`, `build_market_item` and `get_groups`: single expressions, or loops without a property beyond their text.
- Leaderboards, referral codes, seasons, market discovery, price fetching, token metadata and image rendering.
