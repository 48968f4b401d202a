# Reconstruction and accounting engines, modelled and proved

This project models the stateful engines of the repository in Dafny and proves what they keep
over whole runs. Code that changes state in place is a class whose methods are proved to compute
a function on values; the theorems are about those functions.

- **Deshredder** (`Bitset`, `Shreds`, the `Slot*`, `Ring*`, `Recovery*`, `Honest*` and `Coded*`
  modules, `Decoding`, and those that build on them, up to `WholeStream`). Data and coding shreds
  arrive in any order, with duplicates; a ring of 256 slots holds cells, a bitset of data-set ends
  and FEC coding sets, and hands out data sets as they become complete. `SlotSpec` and `RingSpec`
  give the values, `Slots` and `Deshredding` the classes, `FullRescan` the naive decoder of
  `shreds-example`.
- **Aggregator and race scores** (`Positions` to `AggOrders`, `Findings`, `RunFindings`, and the
  `Live*` modules). FEC sets per provider against a moving window, judged against a truth table,
  and the scores of the races between providers.
- **Filter audit and checker** (`AuditSpec`, the `Window*` modules, `Comparison`, `Auditing`, and
  `CheckSpec` to `AuditSystem`). Windows hand sampled slots to a worker that fetches, compares,
  retries or gives up; `AuditSystem` interleaves all locked calls.
- **Signature registry** (`RegistrySpec` to `LatencyRelease`, `FirstReports`, `RegistryTips`) and
  **on-chain index** (`OnchainSpec`, `Sampling`, `OnchainLaws`, `OnchainTotals`).
- **Rotation** and **credit ledger** (`Rotation`; `CreditSpec`, `CreditStore`, `CreditLaws`,
  `CreditMeaning`).

The laws come in two kinds: what is kept over every run, and, in the modules named `...Meaning`,
`Findings`, `FirstReports` and `...Totals`, what each answer is in terms of the input alone, without
the functions that compute it.

Main results: `ExactlyOnce.HandedOutOnce`, `Decoding.GivenBackOnce`, `Refinement.SameAsFullRescan`,
`CodedRuns.HandedOutFromStream`, `AgreeingRuns.NothingLeftBehind`,
`Stranded.LeftBehindIffStranded`, `RecoveryBounds.AtMostThreeAttempts`,
`AggRuns.PendingOrEmitted`, `AggOrders.RunIgnoresOrder`, `RunFindings.RowOfItsShreds`,
`LiveRuns.ScoredAtOnce`, `AuditSystem.AlwaysBalanced`, `WindowTotals.TotalsAreTheComparisons`,
`WindowDeliveries.DeliveriesExactIff`, `Comparison.BalancedIffNoRepeat`,
`RegistryRuns.BooksBalance`, `FirstReports.ScoredByFirstReports`,
`LatencyRelease.ReleasedIsFinalIff`, `OnchainTotals.TotalsAreTheDifferences`,
`CreditLaws.LedgerHolds`.

What the code turns out not to promise, each with a concrete run and the exact condition under
which it does hold:

- A data set whose shreds are all in is handed out only once the end of the data set before it is
  known (`Refinement.WholeSetAloneIsNotEnough`; exactly then: `Refinement.HandedOutByReceived`).
- With coding shreds the order of arrival matters, even for a decoder that needs any k shreds: a
  data shred that was handed out no longer counts for recovery
  (`CodedOrder.OrderMattersWithCoding`; what gets in: `CodedRuns.KnownFromStream`).
- A data shred that names a FEC set not covering its index can leave its data set behind when its
  arrival lets that set be recovered (`AgreeingRuns.LeftBehindWhenHeadersDisagree`; exactly when:
  `Stranded.LeftBehindIffStranded`).
- A FEC set's expected total, and with it the missed count, depends on arrival order
  (`SetOrder.ExpectedTotalDependsOnOrder`; known exactly when:
  `SetOrder.ExpectedTotalNeedsCodingFirst`).
- A window that started silent can hand out slots before its start, and its first delivery can be
  missing from the check of its own slot (`WindowDeliveries.SilentWindowLosesDelivery`; exactly
  when not: `WindowDeliveries.TickInRangeIff`, `WindowDeliveries.DeliveriesExactIff`).
- A block that repeats a signature unbalances what was delivered
  (`Comparison.RepeatedSignatureUnbalances`; exactly when not: `Comparison.BalancedIffNoRepeat`).
- A connection that reports slot 0 can have its window released while its row is still unscored
  (`LatencyRelease.SlotZeroIsNotFinal`; exactly when not: `LatencyRelease.ReleasedIsFinalIff`).

`dafny verify dfyconfig.toml` checks everything.

## Model

| member | source | states |
|---|---|---|
| Bitset.SetBit | deshred/src/deshredder.rs:366-372 | the abstract set of the words gains exactly the index, for any index, growing the words as needed |
| Bitset.LastBitBefore | deshred/src/deshredder.rs:374-387 | the result is the largest member below the index, or none if there is none, also across word borders and beyond the words |
| Bitset.NextBitFrom | deshred/src/deshredder.rs:389-400 | the result is the least member at or above the index, or none if there is none |
| Slots.SlotState.constructor | deshred/src/deshredder.rs:160-171 | a new slot holds nothing |
| Slots.SlotState.InsertDataShred | deshred/src/deshredder.rs:180-197 | only a missing cell is filled; end flag, last index and the cell are recorded together, otherwise nothing changes |
| Slots.SlotState.InsertCodingShred | deshred/src/deshredder.rs:199-231 | a coding shred joins or opens its set unless nothing is missing, and never twice |
| Slots.SlotState.Recover | deshred/src/deshredder.rs:233-290 | recovery drops a full set, waits for enough shreds, counts attempts, inserts what was rebuilt and reports it |
| Slots.SlotState.InsertRecovered | deshred/src/deshredder.rs:265-280 | rebuilt data shreds fill missing cells only; failures are reported |
| Slots.SlotState.MissingDataShreds | deshred/src/deshredder.rs:355-364 | counts the missing cells of a range, cells beyond the vector included |
| Slots.SlotState.TakeCompletedDataSets | deshred/src/deshredder.rs:292-312 | the emission loop hands out the segments the specification hands out, in that order, decoded |
| Slots.SlotState.TakeDataSet | deshred/src/deshredder.rs:314-345 | the range is marked emitted and counted, full coding sets that overlap are dropped, and the slot finishes when all is out |
| Slots.SlotState.FinishSlot | deshred/src/deshredder.rs:347-352 | a finished slot keeps no shreds, ends or coding sets |
| Deshredding.Deshredder.StateOf | deshred/src/deshredder.rs:114-122 | the ring entry of the slot, none if a later slot has it, a new one if an earlier slot had it |
| Deshredding.Deshredder.InsertShred | deshred/src/deshredder.rs:65-107 | the ring becomes what the specification says; what is returned are, in order, the data sets of exactly the ranges taken whose payloads the codec decodes; each range it refuses is one decode error; the recovery counters move with the recovery |
| SlotLaws.TakeInSound | deshred/src/deshredder.rs:73-94 | intake keeps every slot law (cells carry their own index, ends are end flags, emitted cells are whole segments, counts agree) and emits nothing |
| SlotLaws.Emissions | deshred/src/deshredder.rs:292-352 | the loop stays sound, hands out known wholly held segments in order, marks exactly those, and misses none near the inserted range |
| ExactlyOnce.InsertEmits | deshred/src/deshredder.rs:65-107 | one insertion hands out whole data sets in ascending order, none of whose shreds was emitted before, and counts exactly them |
| ExactlyOnce.HandedOutOnce | deshred/src/deshredder.rs:65-122 | over any run of any shreds with any decoder: whole data sets only, no (slot, index) twice, and every slot in the ring counts exactly what was handed out of it |
| Decoding.GivenBackOnce | deshred/src/deshredder.rs:65-107 | over any run the data sets returned are, in order, those of the ranges handed out that decode, with that slot, start, end and entries; no shred is in two; the decode errors count exactly the ranges refused |
| Decoding.ComesBackUnique | deshred/src/deshredder.rs:336-344 | which data sets come back is settled by the ranges and the codec |
| Completeness.RecoverLocal | deshred/src/deshredder.rs:233-290 | recovery touches only the cells of its own set |
| Completeness.InsertCompletes | deshred/src/deshredder.rs:65-107 | with FEC headers that agree, an insertion never leaves a wholly held segment between known ends |
| Stranded.EmissionExact | deshred/src/deshredder.rs:292-312 | the loop leaves nothing whole behind exactly when everything wholly held met the searched range or started right behind it |
| Stranded.FillsIffRecovered | deshred/src/deshredder.rs:266-280 | a recovery counts a filled cell exactly when it is tried and gives back a data shred for a missing cell |
| Stranded.LeftBehindIffStranded | deshred/src/deshredder.rs:73-107 | for any data shred header, read off the slot with the shred put in place: something whole is left behind exactly when the set the shred names is recovered and fills a missing cell, a data set at or right behind the shred is whole, and that data set is away from the recovered range, unless the slot finishes |
| Stranded.AgreeingStrandsNothing | deshred/src/deshredder.rs:84-98 | a shred inside the set it names never does that |
| AgreeingRuns.NothingLeftBehind | deshred/src/deshredder.rs:65-107 | after every shred of a run with agreeing headers nothing whole waits, kept coding sets are distinct and miss a shred, and with an any-k decoder none could be recovered |
| AgreeingRuns.LeftBehindWhenHeadersDisagree | deshred/src/deshredder.rs:84-98 | a concrete run, all indices at or above the FEC index they name, in which a data shred naming a foreign set leaves its data set behind |
| RecoveryBounds.AtMostThreeAttempts | deshred/src/deshredder.rs:233-290 | one slot incarnation attempts a FEC set at most three times although sets are dropped and could be created again |
| RecoveryBounds.TakeInNoneRecoverable | deshred/src/deshredder.rs:233-290 | after intake no kept set has enough shreds for an any-k decoder |
| RecoveryBounds.EmissionNoneFull | deshred/src/deshredder.rs:322-328 | emission keeps it that no retained set is full |
| RecoveryMeaning.RecoveryMeans | deshred/src/deshredder.rs:244-289 | a tried recovery is given the held data shreds of the set in index order and then its coding shreds, reports failure exactly when the decoder or a rebuilt shred fails, and counts exactly the cells it fills |
| RecoveryMeaning.HandOutDropsFull | deshred/src/deshredder.rs:322-328 | a hand-out drops every coding set that overlaps what it hands out and misses nothing, and no set that misses something |
| HonestRuns.RunHonest | deshred/src/deshredder.rs:65-107 | over shreds of one block the slot holds only the block and hands out only its data sets |
| HonestRuns.HandedOutIffReady | deshred/src/deshredder.rs:65-107 | for any truthful decoder, an index is handed out exactly when its data set and the end before it got in, received or recovered; the slot finishes exactly when all indices are out |
| CodedRuns.TriedIff | deshred/src/deshredder.rs:233-263 | for any shreds and decoder: a recovery is tried exactly when the set is kept, tried fewer than three times, misses a data shred, and its coding shreds with the data shreds held and not emitted make up its size |
| CodedRuns.TriedFromStream | deshred/src/deshredder.rs:233-263 | with an any-k decoder, whether a shred makes the slot try a recovery, as a function of the stream before it |
| CodedRuns.KnownFromStream | deshred/src/deshredder.rs:65-107 | what is in the slot after any number of shreds of one block, coding shreds included, as a function of the stream: what came, and each set whose guard was met |
| CodedRuns.HandedOutFromStream | deshred/src/deshredder.rs:65-107 | an index is handed out exactly when its data set and the end before it are in what the stream gets in; the slot finishes exactly when that is the whole block |
| CodedOrder.OrderMattersWithCoding | deshred/src/deshredder.rs:244-252 | a coding and a data shred finish a block in one order and recover nothing in the other, with a decoder that needs any k: an emitted shred no longer counts |
| FullRescan.SlotDecoder.IngestShred | shreds-example/src/decode.rs:29-69 | storing a shred and visiting all ends in ascending order does what the rescan specification says |
| FullRescan.SlotDecoder.VisitAll | shreds-example/src/decode.rs:46-69 | the visit of all ends in ascending order hands out what the recursive visit does |
| Refinement.SameAsFullRescan | shreds-example/src/decode.rs:46-69 | for the data shreds of one block in any order with duplicates, each insert hands out the list the full rescan hands out |
| Refinement.HandedOutByReceived | deshred/src/deshredder.rs:292-352 | what is handed out, and whether the slot finished, depends only on the set of indices received |
| Refinement.OrderDoesNotMatter | deshred/src/deshredder.rs:65-107 | two streams with the same indices hand out the same |
| Refinement.WholeSetAloneIsNotEnough | deshred/src/deshredder.rs:297-298 | a whole data set alone is not handed out while the end before it is unknown |
| RingProjection.SlotSeesOnlyItself | deshred/src/deshredder.rs:114-122 | whatever other slots are interleaved, a slot that is not replaced behaves as if alone |
| WholeStream.HonestSlotInAnyStream | deshred/src/deshredder.rs:65-122 | in a stream of any slots, an honest slot that is not replaced hands out exactly the indices whose data set and the end before it were received |
| Positions.MarkMembers | shreds-audit/src/agg.rs:218-226 | marking adds exactly the position, says whether it was new, and the population count grows by one exactly then |
| Positions.OnesAreMembers | shreds-audit/src/agg.rs:243-244 | the population count is the number of positions held |
| Aggregation.Aggregator.Ingest | shreds-audit/src/agg.rs:126-186 | the sets, the truth table, the tips and the late counter become what the specification says |
| Aggregation.Aggregator.FinalizeSet | shreds-audit/src/agg.rs:228-281 | the row of a set, bad shreds judged against the truth known now |
| Aggregation.Aggregator.Harvest | shreds-audit/src/agg.rs:189-214 | each ripe set is emitted exactly once and removed, and the window moves |
| SetOrder.SortedPicksKth | shreds-audit/src/agg.rs:253-258 | the value at place k-1 has fewer than k arrivals below it and at least k not above it |
| SetOrder.EveryShredCounted | shreds-audit/src/agg.rs:126-186 | every shred of a set is exactly one of duplicate, invalid, unverifiable, accepted; one arrival per position held |
| SetOrder.RowLaws | shreds-audit/src/agg.rs:228-281 | invalid shreds split three ways; decode time present exactly when k positions arrived, the k-th smallest arrival, between first and last |
| Findings.RowMeans | shreds-audit/src/agg.rs:228-281 | the whole row by the shreds: failed first copies with the data of the truth, with other data, or with nothing to compare; repeats and unsure ones; accepted positions; first, last and decode time; validity; expected total and missed |
| RunFindings.RowOfItsShreds | shreds-audit/src/agg.rs:126-214 | the row a harvest emits is that of all shreds sent for its set, judged against what was taught last about each position |
| RunFindings.HarvestedIff | shreds-audit/src/agg.rs:189-203 | a harvest emits a set exactly when shreds of it came in time, it has not left, and a shred far enough ahead has come |
| RunFindings.TruthMeans | shreds-audit/src/agg.rs:160-164 | the truth of a position is the hash of the last first copy, leader-signed, that carried one |
| RunFindings.LatestMeans | shreds-audit/src/agg.rs:128-131 | a provider is as far as its latest leader-signed shred |
| RunFindings.DrainMeans | shreds-audit/src/agg.rs:205-213 | draining emits every pending set and forgets the truth |
| SetOrder.RowIgnoresOrder | shreds-audit/src/agg.rs:126-186 | distinct compatible shreds in two orders give rows with the same findings, first and last arrival |
| SetOrder.ExpectedTotalNeedsCodingFirst | shreds-audit/src/agg.rs:166-177 | the expected total is known exactly when a coding shred was the first to reveal the data count |
| SetOrder.ExpectedTotalDependsOnOrder | shreds-audit/src/agg.rs:166-177 | two compatible shreds in two orders: the total is known in one and not in the other |
| AggRuns.WindowMonotone | shreds-audit/src/agg.rs:189-214 | the edge of the window never moves back |
| AggRuns.OneBatchPerRace | shreds-audit/src/agg.rs:132-138 | no two harvests have rows of the same slot and FEC set, of any providers |
| AggRuns.PendingOrEmitted | shreds-audit/src/agg.rs:132-143 | a set that got shreds in time is pending or left in exactly one way, and no other set has a row |
| AggRuns.RowSumsItsSet | shreds-audit/src/agg.rs:126-214 | a harvested row is the sum of exactly the shreds of its set that came in time; the others are counted late |
| AggOrders.RunIgnoresOrder | shreds-audit/src/agg.rs:145-186 | two orders of the same distinct shreds end with the same truth, the same sets and the same findings, also when truth came after the bad copy |
| LiveScores.LiveStats.Ingest | shreds-audit/src/live.rs:64-72 | every provider gains one presence per row, one valid set per decoded row, and a race, perhaps won, per decoded row of a contested set |
| LiveScores.LiveStats.FoldSet | shreds-audit/src/live.rs:74-106 | one group scored: a solo delivery is no race, ties all win |
| LiveScores.GroupAdds | shreds-audit/src/live.rs:62-72 | scoring one group by itself adds what the whole batch says about its race |
| LiveRuns.ScoredAtOnce | shreds-audit/src/live.rs:62-72 | scoring harvest by harvest gives what scoring the whole ledger at once gives: no race is cut in two |
| LiveRuns.LiveScoresNest | shreds-audit/src/live.rs:74-106 | wins <= races <= valid <= present <= sets over any run |
| LiveRuns.ScoresNest | shreds-audit/src/live.rs:74-106 | each score is the number of distinct FEC sets with that property |
| LiveRuns.ContestedHasWinner | shreds-audit/src/live.rs:88-99 | every contested race has a winner |
| LiveMeaning.GainMeans | shreds-audit/src/live.rs:62-106 | scoring counts the rows of a provider, those valid with a decode time, those of these with a rival, and those no rival beat |
| LiveMeaning.ScoresMean | shreds-audit/src/live.rs:62-106 | the scores of a run are these counts over all rows it emitted, and the contested sets are those two rows ran for |
| Auditing.FilterAudit.OnDelivery | shreds-audit/src/filters/audit.rs:281-375 | the window after a delivery: delivered and repeated counts, first and latest slot, start, and the sampled deliveries with the latest mask per signature |
| Auditing.FilterAudit.HandOut | shreds-audit/src/filters/audit.rs:400-417 | the hand-out loop hands out what the specification does |
| Auditing.FilterAudit.TakeReady | shreds-audit/src/filters/audit.rs:377-421 | every window hands out its ready slots, in order, and is advanced; no window is visited twice |
| Auditing.FilterAudit.SettleTask | shreds-audit/src/filters/check.rs:180-185 | a returned task moves its window from in flight to checked, skipped or unchecked and adds its results; a released window is left alone |
| Auditing.FilterAudit.TakeFinished | shreds-audit/src/filters/audit.rs:436-464 | exactly the windows that are over leave, each with its open tasks as unchecked |
| AuditLaws.ReadyLaws | shreds-audit/src/filters/audit.rs:377-421 | one tick: at most 32 consecutive sampled slots from the cursor, up to the end of the range and lag behind the tip, and none exactly when the first is not that far; a jump is fully on record |
| AuditLaws.SettleLaws | shreds-audit/src/filters/check.rs:180-185 | a task coming back keeps the balance and the subtraction never clips |
| AuditLaws.FinishedAccounts | shreds-audit/src/filters/audit.rs:210-213 | a reported window accounts for every sampled slot its cursor passed |
| WindowRuns.CursorConserved | shreds-audit/src/filters/audit.rs:393-418 | in every state of a run the cursor distance is checked + skipped + unchecked + in flight |
| WindowRuns.HandedInOrder | shreds-audit/src/filters/audit.rs:400-417 | over a whole run the slots handed out are strictly increasing multiples of n |
| WindowRuns.BatchLimits | shreds-audit/src/filters/audit.rs:391-417 | each tick hands out at most 32 slots, up to the end of the range and lag behind the tip |
| WindowMeaning.RangeMeans | shreds-audit/src/filters/audit.rs:151-173 | start and end of the audited range as bounds on a slot |
| WindowMeaning.WaitsMeans | shreds-audit/src/filters/audit.rs:156-162 | when a tick leaves a window waiting for its start |
| WindowMeaning.HandFromMeans | shreds-audit/src/filters/audit.rs:391-399 | a tick hands out from the cursor, or the first sampled slot of the range, or, if that is too far behind the tip, from the first sampled slot that is not |
| WindowMeaning.WindowOfEvents | shreds-audit/src/filters/audit.rs:252-305 | opening and closing slot, first and latest delivery and their number are what the events say |
| WindowMeaning.DueMeans | shreds-audit/src/filters/audit.rs:303-366 | what is due for a slot: each signature delivered for it, with the filters its last delivery came for |
| WindowMeaning.DuplicateMeans | shreds-audit/src/filters/audit.rs:362-374 | a kept delivery is a duplicate exactly when its signature was already due for its slot |
| WindowMeaning.SpanMeans | shreds-audit/src/filters/audit.rs:414-415 | the audited span is from the first to the last slot ever handed out |
| WindowMeaning.PrunedMeans | shreds-audit/src/filters/audit.rs:417-418 | nothing is kept for slots behind the cursor |
| WindowMeaning.ReleasableMeans | shreds-audit/src/filters/audit.rs:436-464 | when a window is released, by its range, its open tasks, its latency and the time |
| WindowMeaning.ReleasedCoversRange | shreds-audit/src/filters/audit.rs:436-464 | when a window is released in time, the cursor has passed its whole range and nothing is out |
| WindowDeliveries.HeardFirstInRange | shreds-audit/src/filters/audit.rs:151-162 | if the first delivery came before the cursor was set, every slot handed out lies between start and end of the range |
| WindowDeliveries.TickInRangeIff | shreds-audit/src/filters/audit.rs:377-421 | in general a tick hands out no slot before the start exactly when it hands out nothing or the cursor stands at the start or behind it |
| WindowDeliveries.TaskDeliveries | shreds-audit/src/filters/audit.rs:362-421 | a task carries all deliveries due for its slot if the slot is not before the start known at hand-out, else nothing |
| WindowDeliveries.DeliveriesExactIff | shreds-audit/src/filters/audit.rs:362-421 | nothing is lost exactly when the slot is not before the start or nothing was due |
| WindowDeliveries.DeliveriesExact | shreds-audit/src/filters/audit.rs:151-162 | if the first delivery came before the cursor was set, every task carries exactly what was due |
| WindowDeliveries.SilentWindowLosesDelivery | shreds-audit/src/filters/audit.rs:151-162 | a concrete silent window that hands out a slot before its start, its first delivery counted as nothing delivered |
| Comparison.Compare | shreds-audit/src/filters/check.rs:260-352 | the totals of every filter for a fetched or skipped slot |
| Comparison.CompareFilter | shreds-audit/src/filters/check.rs:272-347 | expected, matched, missed and the two kinds of extras, as sizes of the sets they count |
| Comparison.ComparisonBalances | shreds-audit/src/filters/check.rs:272-347 | expected = matched + missed and delivered = matched + extra in block + extra not in block, for distinct signatures |
| Comparison.BalancedIffNoRepeat | shreds-audit/src/filters/check.rs:298-347 | for any block: expected = matched + missed, and the delivered balance holds exactly when no matched transaction has its signature again later in the block |
| Comparison.RepeatedSignatureUnbalances | shreds-audit/src/filters/check.rs:298-303 | a concrete block repeating a signature that breaks the delivered balance |
| Comparison.TotalsStayBalanced | shreds-audit/src/filters/audit.rs:55-64 | the balance survives summation into window totals |
| WindowTotals.TotalsMean | shreds-audit/src/filters/check.rs:260-352 | each total of a comparison is the size of the set of transactions or signatures it names |
| WindowTotals.TotalsAreTheComparisons | shreds-audit/src/filters/check.rs:369-381 | over any run each total of an open window, and so what it reports when released, is the sum of these sizes over its tasks that came back with an answer |
| WindowTotals.GroupSums | shreds-audit/src/filters/check.rs:134-185 | one group of tasks adds its comparisons with the block of its slot, or with no block, or nothing |
| Checking.Worker.Tick | shreds-audit/src/filters/check.rs:120-178 | one tick: take ready, add due retries, serve the slots in ascending order, release finished windows |
| Checking.Worker.WorkThrough | shreds-audit/src/filters/check.rs:129-170 | tasks are grouped by slot and each slot is served once, in ascending order |
| Checking.Worker.ServeSlot | shreds-audit/src/filters/check.rs:134-169 | cache, pause and call limit decide whether a slot is fetched, retried without spending an attempt, compared or given up |
| Checking.Worker.FetchSlot | shreds-audit/src/filters/check.rs:187-258 | a bounded cache, and a pause that doubles with every failure and clears on success |
| CheckLaws.GroupBalance | shreds-audit/src/filters/check.rs:134-169 | one group leaves every window in balance with the tasks still out |
| CheckLaws.GroupLimits | shreds-audit/src/filters/check.rs:134-169 | queue, cache, calls and pause stay within their limits |
| CheckLaws.GroupOutcome | shreds-audit/src/filters/check.rs:134-169 | each group is put off without an attempt, compared, tried again with one attempt more, or given up at the fifth; only then do the counters move |
| CheckLaws.PauseDoubles | shreds-audit/src/filters/check.rs:35-38 | failures double the pause from 5 seconds up to 2 minutes |
| CheckLaws.FailuresPause | shreds-audit/src/filters/check.rs:234-236 | the k-th failure in a row pauses for exactly that long |
| CheckMeaning.FetchMeans | shreds-audit/src/filters/check.rs:187-258 | what each answer does to cache and pause: any answer ends a pause, a failure starts one and doubles the next |
| CheckMeaning.PutOffMeans | shreds-audit/src/filters/check.rs:136-146 | a group that may make no request waits for the end of the pause or the next pass, its tasks unchanged |
| CheckMeaning.TriedAgainMeans | shreds-audit/src/filters/check.rs:156-164 | a group without an answer waits 4 seconds with one attempt more than its most attempted task |
| CheckMeaning.WorkKeepsTasks | shreds-audit/src/filters/check.rs:120-178 | through a whole pass no waiting task changes its window, slot or deliveries |
| CheckMeaning.DueMeans | shreds-audit/src/filters/check.rs:123-127 | exactly the retries whose time has come are due |
| CheckMeaning.RememberMeans | shreds-audit/src/filters/check.rs:216-219 | the cache keeps the newest block and drops only the oldest |
| CheckLaws.WorkLaws | shreds-audit/src/filters/check.rs:120-185 | a whole pass: at most 4 requests, no task beyond 5 attempts, every window in balance |
| AuditSystem.TickKeepsBalance | shreds-audit/src/filters/check.rs:120-178 | a whole tick leaves every window in balance with the retry queue |
| Checking.Worker.Shutdown | shreds-audit/src/filters/check.rs:108-117 | what is still queued is given up and every window is reported |
| AuditSystem.ShutdownAccounts | shreds-audit/src/filters/check.rs:108-117 | at shutdown no task is open: each queued one is on record as unchecked |
| AuditSystem.AlwaysBalanced | shreds-audit/src/filters/audit.rs:377-476 | in every interleaving of locked calls and for any fetched blocks, each window is in balance with the tasks the checker holds; its totals are too if no fetched block repeats a signature |
| AuditSystem.ReportsBalance | shreds-audit/src/filters/audit.rs:210-213 | whatever releases a window, it reports every sampled slot its cursor passed; totals in balance if no fetched block repeats a signature |
| Registering.SigRegistry.RecordFirst | shreds-audit/src/sigreg.rs:284-318 | the row, the tips and the counters after a report; a first sighting counts once |
| Registering.SigRegistry.Finalize | shreds-audit/src/sigreg.rs:342-358 | exactly the rows behind the floor are retired, each scored once, in some order |
| Registering.SigRegistry.Fold | shreds-audit/src/sigreg.rs:374-416 | a contested row is scored for each source that saw it |
| Registering.SigRegistry.TakeWindowLatency | shreds-audit/src/sigreg.rs:260-262 | a window share leaves as it is |
| RegistryRuns.FoldedSource | shreds-audit/src/sigreg.rs:389-416 | scoring a row touches each source that saw it, once |
| RegistryRuns.FoldedShare | shreds-audit/src/sigreg.rs:402-414 | a rotating source has the row counted in the window it came through, and in no other |
| RegistryRuns.EarliestIsLeast | shreds-audit/src/sigreg.rs:383-388 | the earliest sighting is no later than any of the sources it is taken over |
| RegistryRuns.WinnersAreNotBehind | shreds-audit/src/sigreg.rs:389-401 | no source is ahead of the first, and exactly the winners are level with it |
| RegistryRuns.BooksBalance | shreds-audit/src/sigreg.rs:284-416 | over any run: seen = retired + in flight, contested, wins and time behind tallied per source, window shares held and taken, distinct and versions counted once |
| RegistryRuns.WindowsSumToContested | shreds-audit/src/sigreg.rs:402-414 | the windows of all connections of a rotating source, held and taken, sum up to what it contended for |
| RegistryRuns.ContestsAreShared | shreds-audit/src/sigreg.rs:374-401 | the contested counts of all sources sum to at least twice, the wins to at least once, the contested signatures |
| FirstReports.RowsKeepFirstReports | shreds-audit/src/sigreg.rs:284-358 | each row, in flight or retired, has per source the time and data of its first report since the row was made, the number of later ones, and the first slot told |
| FirstReports.ScoredByFirstReports | shreds-audit/src/sigreg.rs:374-416 | contests, wins and time behind per source, and the shares of each window, as a function of the first reports alone |
| RegistryTips.TipsMean | shreds-audit/src/sigreg.rs:284-286 | the tips are the latest slots told, by anyone and by each source |
| RegistryTips.RetiredIff | shreds-audit/src/sigreg.rs:342-358 | a finalize retires exactly the signatures whose first told slot is more than 64 behind the tip, or all |
| RegistryTips.CountedOnce | shreds-audit/src/sigreg.rs:295-317 | distinct signatures, first sightings and versions are the numbers of reports that were the first of their kind |
| LatencyRelease.ReleasedIsFinalIff | shreds-audit/src/filters/audit.rs:436-464 | when a window is released in time, no unretired row was first seen through its connection exactly when every signature it first reported without a slot was later told one that a sweep then passed |
| LatencyRelease.ReleasedIsFinal | shreds-audit/src/filters/audit.rs:436-464 | a window released in time leaves no unretired row first seen through its connection, if that connection always told the slot |
| LatencyRelease.StaysFinal | shreds-audit/src/sigreg.rs:342-416 | from then on its share of contests and wins never changes |
| LatencyRelease.SlotZeroIsNotFinal | shreds-audit/src/sigreg.rs:307-310 | a concrete run of a connection reporting slot 0, and its window, released in time while the row is unretired |
| Sampling.SlotSigIndex.Record | shreds-audit/src/verification/onchain_signatures.rs:71-92 | a delivery is kept for its slot unless it fell behind, and a new tip drops what fell behind |
| Sampling.SlotSigIndex.Take | shreds-audit/src/verification/onchain_signatures.rs:95-97 | the slot leaves the index |
| Sampling.Worker.Sample | shreds-audit/src/verification/onchain_signatures.rs:201-239 | the slot lag behind the tip is claimed once and compared if it was delivered |
| Sampling.Worker.Compare | shreds-audit/src/verification/onchain_signatures.rs:242-265 | each source that is not skipped is compared with the block |
| OnchainLaws.SamplesAreExact | shreds-audit/src/verification/onchain_signatures.rs:71-97 | a sample compares exactly the distinct signatures delivered for its slot so far, repeats as duplicates; targets increase; at most retain + 1 slots are held |
| OnchainLaws.HitsAgree | shreds-audit/src/verification/onchain_signatures.rs:258-264 | over any run onchain_txns - missed = distinct delivered - corrupted |
| OnchainLaws.DuplicatesAreRepeats | shreds-audit/src/verification/onchain_signatures.rs:82-91 | every delivery is a new signature or a duplicate |
| OnchainTotals.SampleMeans | shreds-audit/src/verification/onchain_signatures.rs:201-219 | which slot a sample asks about, and that it compares all that each source delivered for it |
| OnchainTotals.TotalsAreTheDifferences | shreds-audit/src/verification/onchain_signatures.rs:201-265 | per source missed, corrupted, duplicated, checked and absent are sums of set sizes over the slots compared, by deliveries and answers alone; skipped sources stay as they are |
| OnchainTotals.ClaimedOnce | shreds-audit/src/verification/onchain_signatures.rs:205-214 | a claimed slot leaves the index and is never asked about again |
| Rotation.Rotator.Next | shreds-audit/src/filters/mod.rs:48-60 | refill, shuffle, pop and draw a duration |
| Rotation.EveryRoundIsPermutation | shreds-audit/src/filters/mod.rs:48-60 | for any seed each round of n calls returns each bundle exactly once |
| Rotation.EveryBundleOnce | shreds-audit/src/filters/mod.rs:48-60 | in each round every bundle comes exactly once |
| Rotation.DrawMeans | shreds-audit/src/filters/mod.rs:56-59 | a draw takes the last of the bag and hits the span of durations with the next number |
| Rotation.DurationsBounded | shreds-audit/src/filters/mod.rs:41-60 | every duration lies between the bounds and the generator never becomes zero |
| Rotation.NeverZero | shreds-audit/src/filters/mod.rs:41-46 | an xorshift step of a state that is not zero is not zero |
| Rotation.SeedNonZero | shreds-audit/src/filters/mod.rs:31-39 | no seed starts the generator at zero |
| Rotation.Reservoir.Push | shreds-audit/src/sigreg.rs:180-193 | a reservoir step: append while there is room, then replace at random |
| Rotation.ReservoirHolds | shreds-audit/src/sigreg.rs:180-193 | a reservoir keeps everything until full, then as many as it holds, never a value that was not pushed |
| Rotation.PushMeans | shreds-audit/src/sigreg.rs:180-193 | which value a push to a full reservoir replaces |
| CreditLaws.QuoteConsistent | postpack-tools/src/bin/preconf-admin-mock.rs:395-410 | 2000 * usd_cents <= credits < 2000 * (usd_cents + 1) for every quote |
| CreditStore.Ledger.ChangeCredits | postpack-tools/src/bin/preconf-admin-mock.rs:1226-1263 | an admin change is validated, applied and recorded, or nothing changes |
| CreditStore.Ledger.SetTier | postpack-tools/src/bin/preconf-admin-mock.rs:1180-1211 | a tier is set for a known key; a new client starts at zero |
| CreditStore.Ledger.RegisterPayments | postpack-tools/src/bin/preconf-admin-mock.rs:1513-1579 | a request registers its tips whose signature was never paid with, each once |
| CreditStore.Ledger.CreditPayments | postpack-tools/src/bin/preconf-admin-mock.rs:1641-1685 | waiting payments of clients are credited once, at a fresh price, and recorded |
| CreditStore.Ledger.GetHistory | postpack-tools/src/bin/preconf-admin-mock.rs:1444-1464 | one page of the rows other than usage, newest first |
| CreditLaws.AcceptedLaws | postpack-tools/src/bin/preconf-admin-mock.rs:1566-1578 | what is accepted is new and distinct, and everything else was paid with before |
| CreditLaws.TickCreditsExactly | postpack-tools/src/bin/preconf-admin-mock.rs:1641-1685 | a tick accounts for every payment of a client once and records a tip of exactly what it is worth |
| CreditLaws.LedgerHolds | postpack-tools/src/bin/preconf-admin-mock.rs:1513-1685 | over any run balances are never negative and equal the sum of non-usage changes less what saturation cut off; ids increase; each signature is credited at most once |
| CreditLaws.PageThenRest | postpack-tools/src/bin/preconf-admin-mock.rs:1444-1464 | a page followed by everything before its last id is everything there was |
| CreditLaws.PagesCoverHistory | postpack-tools/src/bin/preconf-admin-mock.rs:1444-1464 | reading page after page returns every non-usage row exactly once, newest first |
| CreditMeaning.QuoteMeans | postpack-tools/src/bin/preconf-admin-mock.rs:395-410 | credits and cents of a quote as rounded quotients, and when there is a quote |
| CreditMeaning.TickMeans | postpack-tools/src/bin/preconf-admin-mock.rs:1641-1685 | a tick records exactly what the lamports of each waiting payment of a client buy, and accounts for it |
| CreditMeaning.RegisterMeans | postpack-tools/src/bin/preconf-admin-mock.rs:1513-1579 | a request registers in order the first tip of each signature never paid with, for the key that asked |
| CreditMeaning.RefusedPayments | postpack-tools/src/bin/preconf-admin-mock.rs:1519-1564 | why a request is refused |
| CreditMeaning.ChangeMeans | postpack-tools/src/bin/preconf-admin-mock.rs:1226-1263 | a change succeeds exactly when it grants something and the balance stays in range; it is added and recorded |
| CreditMeaning.RefusedChange | postpack-tools/src/bin/preconf-admin-mock.rs:1234-1249 | why a change in order is refused |
| CreditMeaning.SetTierMeans | postpack-tools/src/bin/preconf-admin-mock.rs:1182-1211 | a tier moves no balance |
| CreditMeaning.PageMeans | postpack-tools/src/bin/preconf-admin-mock.rs:1444-1464 | a page holds the newest rows of the client that are not usage, as many as the limit lets it |
## Left out

Assumptions and abstractions:

- Shred parsing, merkle and signature checks, Reed-Solomon recovery, entry decoding and transaction parsing are arguments: parsed records and function values. Theorems that need a truthful decoder, one that stays inside its set, or one that any k shreds satisfy, say so.
- Fixed-width integers are unbounded, except where the width matters: the 64-bit and 128-bit bitmaps, the generator, the `u16` cast of the data count, and the `u64`, `u128` and `i64` limits of the credit arithmetic. Shred indices are capped by the parser far below the widths used.
- The clock, the tip read before a lock and the answers of RPC calls are arguments. All readings of the clock for one slot of a checker pass give the same time.
- Each locked call is one atomic step; `AuditSystem` takes them in any order, one window of a `take_ready` at a time.
- Hash maps are walked in an arbitrary order, so the order of rows, windows and retired signatures is any order.
- A window is a value in the map that owns it, as in the source; its `u32` filter masks are the sets of their bits, and a filter's `matches` is the set of filters that match a transaction.
- The registry's parallel per-source vectors are one sequence of records; the keys of signatures and API keys are numbers.
- Connection numbers are not reused, a connection subscribes once and before it delivers, and it reports nothing after it is closed, as `txncmp.rs` and `grpc.rs` arrange it.

Not modelled:

- Recovery time statistics, and the parse step of `insert_bytes`.
- Watched wallets and seen triggers of the full rescan, and its decoding of payloads.
- Rows drained early by a rotation of the aggregator: after `drain_all` a set can be created again, which the source itself names as a limitation; runs here harvest without draining.
- The race scorer's latency sums and maxima in floating point, histograms, and percentiles of the reservoir.
- Tag statistics of a window (tagged, false positives, missing, untagged, unknown), vote-flag mismatches, violation examples and reason texts.
- Waiting between requests, logging and database rows.
- Rows exported per transaction by the registry, and the call that forwards a report to the on-chain index.
- The key of the on-chain index being the first 16 bytes of a signature, and the codes that mean a skipped slot.
- Tier overrides, comments, settings, usage rows and deletion of a client in the credit service; none of them moves a balance.
- Sockets, gRPC, RPC, Parquet, Postgres, terminal and HTTP code, configuration and the bundle definitions.

Stated weaker than might be wished:

- Completeness.InsertCompletes: needs FEC headers that agree with one geometry; the exact condition without that is Stranded.LeftBehindIffStranded.
- HonestRuns.HandedOutIffReady: says what is in by the slot itself, because a decoder may fail on enough shreds; for one that any k shreds satisfy, CodedRuns.HandedOutFromStream says it by the stream.
- Comparison.ComparisonBalances: needs blocks of distinct signatures, which the chain guarantees and the code does not check; the exact condition for any block is Comparison.BalancedIffNoRepeat.
- LatencyRelease.ReleasedIsFinalIff: is about runs without a forced finalize, which sets the floor past every slot.
- AggOrders.RunIgnoresOrder: is about runs without a harvest in between, and leaves out the expected total and the missed count, which do depend on order.
- Auditing.FilterAudit.OnDelivery: leaves out the tag, unknown-tag, untagged and vote-mismatch counters and the violation examples of the same lines.
- Registering.SigRegistry.RecordFirst: leaves out the call that forwards the report to the on-chain index.
- CreditStore.Ledger.SetTier: leaves out tier overrides and the comment.
- RunFindings.RowOfItsShreds: takes coding shreds to carry both counts of their header, as the verifier fills them in.
- WindowMeaning.DuplicateMeans: is about deliveries for slots the cursor has not passed; what came for a slot behind it is dropped at the next tick.
