# Verified model of Mango v4's off-chain services

Mango v4 is a margin trading program with a set of services around it: a liquidator, a
settler, a keeper, feeds of fills and order book levels, and a client library. This
project models the parts of them that are state machines, in-place algorithms or
fixed-point arithmetic, and proves what they keep over all inputs and all runs.

| files | component |
|---|---|
| `Pools`, `Tasks`, `SharedState`, `WorkerProtocol`, `WorkerDrain`, `WorkerExecutions` | the liquidator's workers: shared candidate sets, wake-up tokens, a worker reserved for liquidations; exclusive execution, no lost wake-ups, draining, one execution per insertion |
| `Bits`, `LowPrecisionDivision`, `DivisionAccuracy`, `FirstBits`, `DivisionVerdict`, `FalseOverflows` | the fast I80F48 division: error bound, leading bits, overflow verdict |
| `EventQueue`, `FillFeed`, `FillChanges`, `FillFilter` | the event ring buffer, differences between observed versions, replay by a consumer |
| `StableSort`, `TopPnl` | selecting the accounts with the highest pnl while capping as few as possible |
| `TcsScheduler`, `TcsLimits`, `QuoteCache`, `QuoteProgress` | conditional swap execution: budgeted preparation, bank limits, the shared quote cache |
| `Settlement`, `SettleMarket`, `SettleCompleteness`, `SettleFees` | matching positive and negative pnl per market |
| `Batching`, `SettleBatch` | packing instructions into transactions (settler and keeper) |
| `LevelFeed`, `LevelStream` | price level differences and checkpoints, and subscribers that join at any time |
| `BumpAllocator` | the on-chain program's heap |
| `RecentMessages`, `ErrorTracking` | error counts and recent messages per key |
| `AccountCache`, `FetchProtocol`, `FetchCaching` | the caching, coalescing account fetcher |

Code that updates state in place is a class or a method with loops, proved against a
function or predicate; concurrent protocols are state machines whose actions are the
critical sections, and the theorems are about every interleaving of them. Outside
services (backend answers, swap quotes, serialized sizes, random picks, clocks) are
parameters or arbitrary actions.

Seven properties one might expect do not hold of the code. For each there is a concrete
input, and the exact condition is proved:

- The division's overflow verdict is that of exact division: `FalseOverflow`,
  `FalseOverflows.VerdictDisagreesIff`.
- The division's first 30 bits are correct, as its doc comment says: `FirstBitsWrong`,
  `FirstBitsIff`. Its own test also accepts an error in the last bit, which always holds:
  `ThirtyBitsOrLastBit`.
- The fill publisher handles every pair of versions; it crashes if one has its head at
  slot 0: `FirstEventOfNewQueue`, `FillFeed.PublishChanges`.
- A fill that a rollback drops is revoked once: `RevokedTwice`, `DroppedRevokedOnce`.
- An account or swap is executed after each insertion: `ReinsertedIsDropped`,
  `InsertedIsExecuted`.
- A route is dismissed only if no known pair of quotes admits it: `StaleDismissal`,
  `DismissalCurrentIff`.
- A settlement round leaves no fee-earning pair behind: `LostPairExample`,
  `AlwaysCompleteIff`.

`dafny verify dfyconfig.toml` checks the project.

## Model

| member | source | states |
|---|---|---|
| `Pools.ClaimTakesFront` | bin/liquidator/src/tx_sender.rs:145-210 | claiming the oldest unclaimed entries of an insertion-ordered set removes exactly those from the front of the unclaimed ones |
| `Pools.ReleaseKeepsUnclaimed` | bin/liquidator/src/tx_sender.rs:212-241 | releasing claimed entries leaves the unclaimed ones and their order alone |
| `Pools.ProcessingFits` | bin/liquidator/src/tx_sender.rs:145-210 | entries in processing never outnumber the candidates, so the count of open swaps cannot underflow |
| `Tasks.PullEffect` | bin/liquidator/src/tx_sender.rs:145-210 | a pull prefers the oldest unclaimed liquidation; otherwise a general worker gets the oldest swaps, at most 20, all of them if fewer; a reserved worker gives up swaps; no work only if nothing is unclaimed; nothing else is claimed |
| `Tasks.FinalizeEffect` | bin/liquidator/src/tx_sender.rs:212-241 | finishing a claimed task drops its entries and no unclaimed one |
| `SharedStateObject.SharedState.InsertLiquidation` | bin/liquidator/src/liquidation_state.rs:207-218 | inserts at the end and tells whether the candidate is new, which decides whether a token is sent |
| `SharedStateObject.SharedState.InsertTcs` | bin/liquidator/src/tcs_state.rs:46-57 | the same for conditional swaps |
| `SharedStateObject.SharedState.PullTask` | bin/liquidator/src/tx_sender.rs:145-210 | the in-place search and marking loops implement the pull that the protocol uses |
| `SharedStateObject.FirstOutside` | bin/liquidator/src/tx_sender.rs:159-169 | the search finds the oldest liquidation candidate nobody processes, or the end |
| `SharedStateObject.TakeOutside` | bin/liquidator/src/tx_sender.rs:184-192 | the collected batch is the oldest swaps nobody processes, at most the limit |
| `SharedStateObject.SharedState.FinalizeTask` | bin/liquidator/src/tx_sender.rs:212-241 | the in-place removals implement the release that the protocol uses |
| `WorkerProtocol.InitInv` | bin/liquidator/src/tx_sender.rs:43-60 | the invariant holds at the start for any number of workers, with or without a reserved one |
| `WorkerProtocol.StepExclusive` | bin/liquidator/src/tx_sender.rs:76-122 | every action keeps: entries in processing are exactly those held by workers, each by one worker only |
| `WorkerProtocol.StepCovered` | bin/liquidator/src/tx_sender.rs:76-127 | every action keeps: tokens, pending sends, woken workers and pending give-ups cover all unclaimed work, and liquidations are covered without swap tokens |
| `WorkerProtocol.RunInv` | bin/liquidator/src/tx_sender.rs:76-241 | the invariant holds in every state a run reaches, under every interleaving |
| `WorkerProtocol.ReachableSafety` | bin/liquidator/src/tx_sender.rs:27-122 | from the start, for any number of workers: no entry is executed by two workers, and there are at least as many wake-ups under way as unclaimed entries, for liquidations without those for swaps |
| `WorkerDrain.RunLengthBounded` | bin/liquidator/src/tx_sender.rs:76-122 | a run has at most ten steps per inserted candidate plus what was under way: no livelock |
| `WorkerDrain.QuiescentMeansDrained` | bin/liquidator/src/tx_sender.rs:76-122 | workers only come to rest when both candidate sets are empty: no candidate is stranded |
| `WorkerDrain.Draining` | bin/liquidator/src/tx_sender.rs:27-122 | after any past, once inserts stop, every continuation is finite with an explicit bound, and if it cannot be continued both candidate sets are empty |
| `WorkerDrain.CanDrain` | bin/liquidator/src/tx_sender.rs:76-122 | from every state the invariant allows there is a run that drains everything |
| `WorkerDrain.LiquidationsNeverWaitForSwaps` | bin/liquidator/src/tx_sender.rs:43-56 | with a reserved worker, liquidations are all claimed even if every other worker is stuck executing |
| `WorkerDrain.ReservedWorkerServes` | bin/liquidator/src/tx_sender.rs:43-66 | after any run from the start: a worker is reserved exactly if there are several and liquidation is enabled, and then liquidations are all claimed even if every other worker is stuck |
| `WorkerExecutions.StepCandidate` | bin/liquidator/src/tx_sender.rs:76-122 | an insertion makes its account or swap a candidate; it stays one until the worker that holds it finalizes |
| `WorkerExecutions.StepDue` | bin/liquidator/src/tx_sender.rs:76-122 | something becomes due exactly by being inserted while no candidate, and stops being due exactly by being executed |
| `WorkerExecutions.ExecutedOncePerAddition` | bin/liquidator/src/tx_sender.rs:27-122 | over every run an account or swap is executed once for each time it was inserted while no candidate, except that the latest may still be due; when the workers rest none is |
| `WorkerExecutions.InsertedIsExecuted` | bin/liquidator/src/liquidation_state.rs:207-218 | if the workers come to rest with no further insertion of it, an inserted account or swap has been executed since, exactly once, if and only if no worker was just finishing it at the insertion |
| `WorkerExecutions.CandidateUntilFinalized` | bin/liquidator/src/tx_sender.rs:112-121 | over every run a candidate that is no longer one was finalized by a worker holding it |
| `WorkerExecutions.ReinsertedIsDropped` | bin/liquidator/src/tx_sender.rs:76-122 | an account inserted again between its execution and the end of that task is dropped without another execution |
| `LowPrecisionDivision.DividendBounds` | programs/mango-v4/src/i80f48.rs:75-127 | the scaled dividend is the operand scaled to 64 bits, rounded down |
| `LowPrecisionDivision.DivisorBounds` | programs/mango-v4/src/i80f48.rs:75-127 | the scaled divisor keeps at least 31 bits or is exact, and is never zero |
| `LowPrecisionDivision.ScaledError` | programs/mango-v4/src/i80f48.rs:75-127 | the computed quotient is at most `q(1 + 2^-31)` and less than one unit in its last place below `q` |
| `DivisionAccuracy.Outcome` | programs/mango-v4/src/i80f48.rs:75-127 | no result exactly if the scaled quotient overflows 127 bits, otherwise the signed, shifted quotient; the final shift is at most 111 places either way and the word-sized shifts and casts lose nothing |
| `DivisionAccuracy.Accuracy` | programs/mango-v4/src/i80f48.rs:71-127 | for all operands the error is at most `q * 2^-31` plus one unit in the last place, and the sign is right |
| `DivisionAccuracy.ThirtyBitsOrLastBit` | programs/mango-v4/src/i80f48.rs:247-271 | the criterion of the random test, for all operands: 30 leading bits agree or the difference is at most the last bit |
| `FirstBits.FirstBitsWrong` | programs/mango-v4/src/i80f48.rs:71-74 | concrete operands whose result has no correct leading bit |
| `FirstBits.FirstBitsFrom31` | programs/mango-v4/src/i80f48.rs:71-74 | the first 30 bits are correct whenever the exact quotient has at least 31 |
| `FirstBits.FirstBitsIff` | programs/mango-v4/src/i80f48.rs:71-74 | they are correct if and only if the exact quotient has at least 31 bits, or its remainder plus the quotient times the bits dropped from the divisor is less than the kept part of the divisor |
| `FirstBits.HarmlessByDivisor` | programs/mango-v4/src/i80f48.rs:75-127 | what is dropped from the dividend never changes a quotient of at most 30 bits |
| `FirstBits.FirstBitsOfShortDivisor` | programs/mango-v4/src/i80f48.rs:71-74 | a divisor that loses no bits gives correct first bits for every dividend |
| `DivisionVerdict.PanicsOnlyOnMinimum` | programs/mango-v4/src/i80f48.rs:75-127 | the routine aborts exactly when an operand is the minimum bit pattern and the divisor is not zero; a zero divisor gives no result |
| `DivisionVerdict.VerdictBounds` | programs/mango-v4/src/i80f48.rs:75-127 | a value is only returned if the exact quotient fits; no result is only returned within `2^-31` of overflow |
| `DivisionVerdict.GuardTestsTruncated` | programs/mango-v4/src/i80f48.rs:75-127 | no result exactly if the truncated operands reach the sign bit |
| `FalseOverflows.VerdictDisagreesIff` | programs/mango-v4/src/i80f48.rs:75-127 | the verdict differs from exact division if and only if the divisor has more than 32 bits, the dividend 79 more than it, both share their leading 32 bits and the dividend has less behind them; an overflow is never missed |
| `FalseOverflows.ExactVerdictFromOneUp` | programs/mango-v4/src/i80f48.rs:75-127 | with a divisor of at least one the verdict is exact |
| `DivisionVerdict.FalseOverflow` | programs/mango-v4/src/i80f48.rs:75-127 | concrete operands whose exact quotient fits but for which the routine reports overflow |
| `DivisionVerdict.ExactForShortDivisor` | programs/mango-v4/src/i80f48.rs:75-127 | with a divisor of at most 32 significant bits the verdict is exact and the value is the exact one with the bits below the final shift cleared |
| `DivisionVerdict.PowersOfTwo` | programs/mango-v4/src/i80f48.rs:210-245 | the table of the sanity test, for all powers of two |
| `EventQueue.Queue.PushBack` | programs/mango-v4/src/state/orderbook/queue.rs:48-60 | appends any event, counts the sequence number up, and fails exactly when all 488 slots are used; events stamped with the number keep the window stamped |
| `EventQueue.Queue.PopFront` | programs/mango-v4/src/state/orderbook/queue.rs:76-88 | takes the oldest event, or fails on an empty queue, leaving all slots as they are |
| `EventQueue.PushStamped` | programs/mango-v4/src/state/orderbook/book.rs:174-201 | every slot of an observed queue holds the event whose number the slot belongs to in the window of the last 488 numbers; kept by every push |
| `FillFeed.PublishChanges` | bin/service-mango-fills/src/fill_event_filter.rs:37-218 | updates, then head update and checkpoint; crashes after the updates exactly if one of the two heads is 0 |
| `FillFeed.HeadSeqNumMeaning` | bin/service-mango-fills/src/fill_event_filter.rs:168-188 | the published head number is the next one to be consumed, except that a full queue publishes the number of all events and a liquidation event before the head gives 0 |
| `FillFeed.PublishDiff` | bin/service-mango-fills/src/fill_event_filter.rs:53-140 | the loop over the new window publishes the differences, number by number in order, and collects exactly the current fills; what they contain is stated by `FillChanges.DiffAbout` |
| `FillFeed.PublishSlot` | bin/service-mango-fills/src/fill_event_filter.rs:58-139 | for one number: nothing if both versions have the same fill or none, else the old fill revoked and then the new one sent; its current fill goes to the checkpoint |
| `FillFeed.UpdatesAtAreChange` | bin/service-mango-fills/src/fill_event_filter.rs:94-139 | no message for a number if and only if its fill is the same in both versions |
| `FillChanges.DiffAbout` | bin/service-mango-fills/src/fill_event_filter.rs:53-140 | for each number of the window the difference has exactly the change of its fill, once, and nothing about other numbers |
| `FillChanges.UpdatesAbout` | bin/service-mango-fills/src/fill_event_filter.rs:53-166 | everything a step sends about any one number: its change inside the window, revocations above the new end, nothing below the window |
| `FillChanges.DroppedRevokedOnce` | bin/service-mango-fills/src/fill_event_filter.rs:143-166 | a dropped fill is always revoked, and exactly once if and only if its number is less than 488 above the new end |
| `FillChanges.RevokedTwice` | bin/service-mango-fills/src/fill_event_filter.rs:143-166 | two versions for which a dropped fill is revoked twice |
| `FillChanges.SilentIff` | bin/service-mango-fills/src/fill_event_filter.rs:53-166 | a step sends no update if and only if both versions have the same fills from the start of the window on |
| `FillFeed.PublishDrops` | bin/service-mango-fills/src/fill_event_filter.rs:143-166 | the loop over dropped numbers revokes exactly the old fills there |
| `FillFeed.DropsEffect` | bin/service-mango-fills/src/fill_event_filter.rs:143-166 | revocations delete the rolled-back fills and nothing else |
| `FillFeed.StepAgrees` | bin/service-mango-fills/src/fill_event_filter.rs:53-166 | a table that agrees with the old version agrees with the new one after the updates, for growing and shrinking versions |
| `FillFeed.ReplayRun` | bin/service-mango-fills/src/fill_event_postgres_target.rs:108-137 | over any sequence of versions, replaying all updates leaves exactly the current fills in the window of the highest number ever seen |
| `FillFeed.CheckpointIsCurrent` | bin/service-mango-fills/src/fill_event_filter.rs:209-217 | a checkpoint lists exactly the current fills of the compared window, in order |
| `FillFeed.CheckpointMatchesTable` | bin/service-mango-fills/src/fill_event_filter.rs:209-217 | where the replayed table is guaranteed, checkpoint and table list the same fills |
| `FillFilter.Filter.OnAccount` | bin/service-mango-fills/src/fill_event_filter.rs:505-567 | stale versions change nothing; otherwise the version is cached and exactly the messages of the change are sent, none for the first version; the consumer that applies them is up to date again; crashes exactly if a newer version or the cached one has its head at slot 0 |
| `FillFilter.NewerIsAnOrder` | bin/service-mango-fills/src/fill_event_filter.rs:512-527 | versions are totally ordered, by slot first |
| `FillFilter.FirstEventOfNewQueue` | bin/service-mango-fills/src/fill_event_filter.rs:168-188 | a queue observed when new and again after its first event makes the publisher crash |
| `StableSort.SortSpec` | lib/client/src/perp_pnl.rs:73-81 | sorted, a permutation, and equal keys keep their order |
| `StableSort.FrontDecides` | lib/client/src/perp_pnl.rs:106-114 | if enough front entries are not above a bound that all back entries reach, the first ones after sorting do not depend on the back |
| `TopPnl.PrefixSuffices` | lib/client/src/perp_pnl.rs:86-115 | capping only a prefix gives the same first entries as capping everything, once that many capped entries are not above the next uncapped one |
| `TopPnl.CapLazily` | lib/client/src/perp_pnl.rs:86-115 | the loop with its early exit leaves an array whose first entries after sorting are those of capping every account |
| `TopPnl.FetchTop` | lib/client/src/perp_pnl.rs:43-119 | returns, sorted, as many accounts as asked for such that none left out has a larger amount, losses counted at what they can settle; the lazily capped selection equals the one that caps every account; an error only if an account could not be evaluated |
| `TopPnl.SettleableIsLargest` | lib/client/src/perp_pnl.rs:99-104 | the capped loss is the largest part of the loss that does not exceed what the account can settle |
| `TopPnl.RelevantExact` | lib/client/src/perp_pnl.rs:64-69 | considered are exactly the accounts whose pnl has the wanted sign, each once and in their order |
| `TopPnl.TopLossesAreLargest` | lib/client/src/perp_pnl.rs:73-118 | the returned losses are the largest after capping all |
| `TopPnl.TopProfitsAreLargest` | lib/client/src/perp_pnl.rs:73-118 | the returned profits are the largest |
| `TopPnl.AmountsAreOfFullCapping` | lib/client/src/perp_pnl.rs:73-115 | the selected amounts do not depend on the preliminary sort |
| `TcsScheduler.CompletedBooks` | bin/liquidator/src/trigger_tcs.rs:1040-1062 | completing a job releases its reservation and keeps every candidate accounted for |
| `TcsScheduler.StartBudget` | bin/liquidator/src/trigger_tcs.rs:1065-1101 | starting a job that fits keeps committed and reserved volume within the budget |
| `TcsScheduler.AwaitOne` | bin/liquidator/src/trigger_tcs.rs:1040-1062 | waiting for one job keeps books and budget and frees its slot |
| `TcsScheduler.Pick` | bin/liquidator/src/trigger_tcs.rs:1065-1090 | any candidate that fits the available volume is found, or none fits |
| `TcsScheduler.Start` | bin/liquidator/src/trigger_tcs.rs:1091-1101 | marking and starting a candidate keeps books and budget and leaves fewer unstarted |
| `TcsScheduler.PrepareExecutions` | bin/liquidator/src/trigger_tcs.rs:1002-1102 | for every order of picks and completions: at most 32 executions from distinct candidates; within budget if each stays within its reservation, else over it only by the last; stops only when slots or budget are used up or everything started is prepared and every candidate left has more volume than is left, none of them while nothing is committed |
| `TcsLimits.ClampToU64` | programs/mango-v4/src/i80f48.rs:19-27 | the nearest u64, fractions dropped |
| `TcsLimits.TwoStages` | bin/liquidator/src/trigger_tcs.rs:559-621 | reducing for the borrow limit and then for the deposit limit leaves the largest amount that respects both |
| `TcsLimits.MaxSellExact` | bin/liquidator/src/trigger_tcs.rs:571-618 | a sell amount is within both limits of the sell bank if and only if it is at most the computed maximum |
| `TcsLimits.MaxBuyExact` | bin/liquidator/src/trigger_tcs.rs:541-621 | a buy amount is within both limits of the buy bank, in every mode, if and only if it is at most the computed maximum |
| `TcsLimits.AvailableBorrowsCovered` | bin/liquidator/src/trigger_tcs.rs:563-569 | the tokens counted as available are worth no more than the remaining quote allowance, and one more would be unless the count is at its largest |
| `TcsLimits.AvailableBorrowsExact` | bin/liquidator/src/trigger_tcs.rs:563-569 | a number of tokens is available if and only if the remaining quote allowance covers its value |
| `TcsLimits.AvailableDepositsExact` | bin/liquidator/src/trigger_tcs.rs:594-595 | a number of tokens may be deposited if and only if the remaining deposits allow it |
| `TcsLimits.ExecutionRespectsLimits` | bin/liquidator/src/trigger_tcs.rs:490-634 | returned are exactly the largest buy and sell amounts whose new borrows the quote allowance covers and whose new deposits the bank takes; nothing is returned if and only if the limits cut one of them from above a dollar to below it |
| `TcsLimits.LargestExist` | bin/liquidator/src/trigger_tcs.rs:490-634 | every request has such largest amounts |
| `TcsLimits.WithheldOnlyByLimits` | bin/liquidator/src/trigger_tcs.rs:623-633 | nothing is returned only if a limit forbids the full amount |
| `QuoteCache.StepMinimums` | bin/liquidator/src/trigger_tcs.rs:162-171 | every action keeps: the cached price is the minimum of all quotes compared, or unset |
| `QuoteCache.StepLocks` | bin/liquidator/src/trigger_tcs.rs:132-149 | every action keeps: a pair is locked exactly by the call that fetches its first quote |
| `QuoteCache.RunInv` | bin/liquidator/src/trigger_tcs.rs:120-178 | running minimum, lock discipline and truthful answers in every reachable state |
| `QuoteCache.ReachableTruth` | bin/liquidator/src/trigger_tcs.rs:108-178 | from the empty cache, over every run: prices are minimums of the quotes compared, every answer is true, and a pair without a price has one quote in flight at most |
| `QuoteProgress.CheckDecides` | bin/liquidator/src/trigger_tcs.rs:132-149 | with the lock a call is turned away if and only if the pair has quotes and all exceed its limit; it keeps the lock to fetch if and only if there is none yet |
| `QuoteProgress.ReachableExplained` | bin/liquidator/src/trigger_tcs.rs:108-178 | over every run each call begun is known, is told only the quote that arrived for it or its own failure, and makes no query if the cache turned it away |
| `QuoteProgress.RunBounded` | bin/liquidator/src/trigger_tcs.rs:108-178 | a run has at most four steps per call |
| `QuoteProgress.RestMeansAnswered` | bin/liquidator/src/trigger_tcs.rs:108-178 | when only new calls are possible every call has its answer, no pair is locked, and no price is above a quote that arrived for its pair |
| `QuoteCache.RunGrows` | bin/liquidator/src/trigger_tcs.rs:162-171 | over a run the price of a pair only falls |
| `QuoteCache.AtMostOneFirstQuote` | bin/liquidator/src/trigger_tcs.rs:135-139 | until a pair has a price at most one quote for it is in flight |
| `QuoteCache.StepHonest` | bin/liquidator/src/trigger_tcs.rs:132-178 | every action keeps: a call is turned away by the cache only if every quote compared so far exceeds its limit, by a quote only if that quote does, and given a price only if it was compared and is within the limit |
| `QuoteCache.UncheckedNeverTurnedAway` | bin/liquidator/src/trigger_tcs.rs:204-228 | an unchecked quote is never turned away by the cache, and as bad only for an infinite price |
| `QuoteCache.DismissalJustified` | bin/liquidator/src/trigger_tcs.rs:264-271 | for every run between the two reads: a route is dismissed only if every pair of quotes known when its legs were read exceeds the limit |
| `QuoteCache.DismissalCurrentIff` | bin/liquidator/src/trigger_tcs.rs:264-271 | for every run between the two reads: all pairs of quotes known at the second read exceed the limit if and only if the first price at that moment does with the second, and if and only if no first-leg quote compared in between admits the route |
| `QuoteCache.StaleDismissal` | bin/liquidator/src/trigger_tcs.rs:264-271 | a run from the empty cache in which a cheaper first leg is stored between the two reads and the route is still dismissed |
| `Settlement.Classify` | bin/settler/src/settle.rs:98-190 | the loop computes the two sides |
| `Settlement.SidesAreExact` | bin/settler/src/settle.rs:152-188 | an account is on the positive side iff its amount is positive and its fee exceeds a tenth of the flat fee; on the negative side, with its negated amount, iff the amount is negative |
| `Settlement.SidesAreDisjoint` | bin/settler/src/settle.rs:152-188 | no account is on both sides or twice on one |
| `Settlement.PairingClosesASide` | bin/settler/src/settle.rs:234-249 | every pairing uses up the account or the counterparty |
| `Settlement.PeekDecides` | bin/settler/src/settle.rs:228-241 | if the counterparty with the most left earns no fee, none does |
| `Settlement.SettleOnce` | bin/settler/src/settle.rs:228-249 | one pairing with the counterparty that has the most left uses up a side; without one no counterparty would earn a fee |
| `Settlement.SettleAccount` | bin/settler/src/settle.rs:220-250 | moves only what both sides have, in fee-earning amounts, taking the counterparties with the most left first, and is left only when no remaining counterparty would earn another fee; at most one more pairing than counterparties closed |
| `Settlement.NoPartnerMeans` | bin/settler/src/settle.rs:224-241 | in numbers, when no counterparty would earn a fee |
| `Settlement.SettleFeeIsLargest` | programs/mango-v4/src/state/perp_market.rs:439-479 | the fee is the largest one within the flat fee from the threshold on, or within the low-health fee and twice the flat fee below it, and within the amount |
| `SettleMarket.ByFeeSpec` | bin/settler/src/settle.rs:202-203 | highest fee first, the same accounts, each once |
| `SettleMarket.NoPartnerStays` | bin/settler/src/settle.rs:225-250 | an account that ran out of partners never gets one again |
| `SettleMarket.SettleNext` | bin/settler/src/settle.rs:220-256 | serves the next account completely or ends the round |
| `SettleMarket.SettleRound` | bin/settler/src/settle.rs:220-257 | amounts taken equal amounts given, none negative; a prefix of the accounts is served, each until nothing is to be earned, and the round stops only at an account that cannot be settled |
| `SettleMarket.RoundIsBounded` | bin/settler/src/settle.rs:220-257 | at most as many pairings as accounts and counterparties, none of an account with itself |
| `SettleMarket.SettleAccounts` | bin/settler/src/settle.rs:98-257 | the whole of one market: sides, order, round; at most one pairing per account |
| `SettleCompleteness.SafeIsComplete` | bin/settler/src/settle.rs:220-257 | if no earning account is behind a non-earning one, and no other fee behind the flat fee, no fee-earning pair is left over |
| `SettleCompleteness.CompleteIffSafe` | bin/settler/src/settle.rs:220-257 | otherwise there are counterparties for which every round leaves a fee-earning pair: stopping at the first unsettled account is harmless exactly for safe positive sides |
| `SettleFees.PositivesHaveMarketFees` | programs/mango-v4/src/state/perp_market.rs:439-479 | every listed account has the flat fee from the threshold on, below it at most twice the flat fee, and never more than its amount |
| `SettleFees.LowerFeeIsSmall` | programs/mango-v4/src/state/perp_market.rs:470-476 | with a flat fee within the threshold only accounts below the threshold have a lower fee |
| `SettleFees.FlatsKept` | bin/settler/src/settle.rs:202-203 | sorting by fee keeps the accounts with the flat fee in order |
| `SettleFees.AlwaysCompleteIff` | bin/settler/src/settle.rs:220-257 | for every threshold: every round is complete against all counterparties if and only if no account is below the flat fee while one that can fail is at it, and among those at it the ones above the threshold come first; otherwise there are counterparties for which no round is |
| `SettleFees.StoppedCompleteIff` | bin/settler/src/settle.rs:251-257 | for given counterparties: a round that stopped early is complete if and only if they are used up, or every account behind has the flat fee and is not above the threshold or none has the threshold left |
| `SettleFees.LargeAccountsAreComplete` | bin/settler/src/settle.rs:152-257 | if every account worth settling is above the threshold, rounds are always complete |
| `SettleFees.LowHealthBesideLarge` | bin/settler/src/settle.rs:152-257 | an account at or above the threshold beside one of low health that is worth settling for less than the flat fee: there are counterparties for which no round is complete |
| `SettleFees.LostPairExample` | bin/settler/src/settle.rs:251-257 | three accounts with fees the market pays whose round loses a fee-earning pair |
| `Batching.GreedyIsLossless` | bin/settler/src/settle.rs:314-360 | batches concatenate to the instructions in order; each is a single instruction or passed the limits |
| `Batching.GreedyIsOptimal` | bin/settler/src/settle.rs:314-360 | if dropping end instructions keeps a batch within limits, no cutting of the same instructions into valid batches needs fewer transactions |
| `Batching.SendBatched` | bin/keeper/src/crank.rs:569-608 | the keeper sends the greedy batches, preceded by an empty one exactly if the first instruction alone does not fit |
| `SettleBatch.BatchProcessor.Send` | bin/settler/src/settle.rs:292-312 | sends what is held, if anything; keeps it if no transaction can be built |
| `SettleBatch.BatchProcessor.AddAndMaybeSend` | bin/settler/src/settle.rs:314-360 | joins the batch iff the result fits, else sends the old batch first; fails exactly if a transaction cannot be built or a lone instruction is too long |
| `SettleBatch.SettlePairs` | bin/settler/src/settle.rs:243-260 | without an error the transactions are the greedy ones, with one their beginning |
| `SettleBatch.PackedInNumbers` | bin/settler/src/settle.rs:331-351 | every transaction has one instruction, or at most 8, less than 1,400,000 compute units and less than 1232 bytes |
| `SettleBatch.NextFits` | bin/settler/src/settle.rs:329-351 | when an instruction still fits what is held |
| `SettleBatch.RejectsWhen` | bin/settler/src/settle.rs:329-358 | when adding an instruction ends in an error |
| `SettleBatch.FittingIsMonotone` | bin/settler/src/settle.rs:331-351 | the count, compute and size limits meet the condition for optimality if shorter batches serialize to no more bytes |
| `LevelFeed.LevelsAreDepths` | bin/service-mango-orderbook/src/orderbook_filter.rs:79-84 | the grouped levels show at each price the total quantity of its orders and list no other price |
| `LevelFeed.LevelUpdate` | bin/service-mango-orderbook/src/orderbook_filter.rs:117-153 | the two loops list removed levels with size zero, then new and changed ones |
| `LevelFeed.UpdateMentions` | bin/service-mango-orderbook/src/orderbook_filter.rs:117-153 | a price is in the update if and only if its size has changed |
| `LevelFeed.UpdateDistinct` | bin/service-mango-orderbook/src/orderbook_filter.rs:117-153 | no price is in the update twice |
| `LevelFeed.UpdateReplays` | bin/service-mango-orderbook/src/orderbook_filter.rs:117-153 | applying the update to the previous book, or to any book that is partly current already, gives exactly the current book |
| `LevelStream.BookFilter.OnBookside` | bin/service-mango-orderbook/src/orderbook_filter.rs:420-442 | remembers the side and publishes checkpoint, then difference, once the side and the other side are known |
| `LevelStream.CheckpointIsCurrent` | bin/service-mango-orderbook/src/orderbook_filter.rs:169-206 | the latest checkpoint of every run is the current book of both sides |
| `LevelStream.SubscribersAreCurrent` | bin/service-mango-orderbook/src/main.rs:205-262 | in every run, whoever joins between any two messages and applies the later differences to the latest checkpoint holds exactly the current book |
| `BumpAllocator.ClearLowIsMultiple` | programs/mango-v4/src/allocator.rs:49-50 | clearing the low bits rounds down to a multiple of the alignment |
| `BumpAllocator.AlignUpSpec` | programs/mango-v4/src/allocator.rs:45-50 | the aligned address is the first one from the position on, and the wrapping addition does not wrap |
| `BumpAllocator.Heap.Alloc` | programs/mango-v4/src/allocator.rs:34-64 | blocks are aligned, in order, behind the position word and below the end of the region; it aborts exactly if the block would reach the end; the probe byte is in no block |
| `BumpAllocator.Heap.Used` | programs/mango-v4/src/allocator.rs:73-84 | nothing before the first block, then the distance to the position |
| `BumpAllocator.BlocksAreDisjoint` | programs/mango-v4/src/allocator.rs:34-64 | no two blocks of a run share an address |
| `RecentMessages.RemoveFirst` | lib/client/src/error_tracking.rs:123-125 | finds and removes the first occurrence |
| `RecentMessages.DistinctSpec` | lib/client/src/error_tracking.rs:123-129 | the unbounded list holds each message of the history once, ordered by last occurrence |
| `RecentMessages.RememberRefines` | lib/client/src/error_tracking.rs:123-129 | recording into the bounded list gives the end of the unbounded list |
| `RecentMessages.KeptInOrder` | lib/client/src/error_tracking.rs:123-129 | the kept messages are of the history, without duplicates, ordered by last occurrence |
| `RecentMessages.ListedAreLatest` | lib/client/src/error_tracking.rs:123-129 | a message not kept last occurred before all that are, and the list is then full |
| `ErrorTracking.Tracker.HadTooManyErrors` | lib/client/src/error_tracking.rs:83-106 | answers iff the records since the last reset reach the threshold in force and the last one is within the duration in force, with the summary of exactly those records |
| `ErrorTracking.Tracker.Record` | lib/client/src/error_tracking.rs:108-135 | extends the history of its type and key only; every entry remains the summary of its history |
| `ErrorTracking.Tracker.Clear` | lib/client/src/error_tracking.rs:137-141 | resets one history only |
| `ErrorTracking.Tracker.WipeOld` | lib/client/src/error_tracking.rs:143-150 | resets exactly the histories whose last record is too old |
| `ErrorTracking.Tracker.Update` | lib/client/src/error_tracking.rs:153-161 | wipes at most once per log interval |
| `AccountCache.FinishedCovered` | lib/client/src/account_fetcher.rs:265-274 | finishing a job keeps every key of the program index present among the accounts |
| `AccountCache.CachedFetcher.Fetch` | lib/client/src/account_fetcher.rs:206-229 | answers from the cache, joins the job in flight or registers a new one; looking up indexed keys cannot fail |
| `AccountCache.CachedFetcher.Finish` | lib/client/src/account_fetcher.rs:260-276 | takes the job off the list and stores a success, in the order of the rows |
| `AccountCache.CachedFetcher.Clear` | lib/client/src/account_fetcher.rs:170-173 | empties accounts and index, not the jobs |
| `FetchProtocol.CachedIsDirect` | lib/client/src/account_fetcher.rs:249-254 | a cached answer is what the backend would answer |
| `FetchProtocol.StepJobs` | lib/client/src/account_fetcher.rs:139-155 | every action keeps: a job is running exactly if it is the registered one for its request |
| `FetchProtocol.RunInv` | lib/client/src/account_fetcher.rs:204-287 | in every reachable state answers are those of the backend, failures name a failed job, and the index is covered |
| `FetchProtocol.OneJobPerRequest` | lib/client/src/account_fetcher.rs:139-155 | two running jobs for one request are the same job |
| `FetchProtocol.CompletionsBounded` | lib/client/src/account_fetcher.rs:204-287 | over every run each fetch leads to at most two completions |
| `FetchProtocol.RestMeansAnswered` | lib/client/src/account_fetcher.rs:231-239 | once no completion is left every call has the rows of the backend or names the failed job it waited for |
| `FetchProtocol.ReachableAnswers` | lib/client/src/account_fetcher.rs:204-287 | from the empty cache, over every run: each call waits or has the answer of the backend or a failed job, no request has two running jobs, and no listed account is missing |
| `FetchProtocol.FailureIsRetried` | lib/client/src/account_fetcher.rs:220-228 | after a failure the next fetch starts a new job |
| `FetchCaching.CachedAfterStep` | lib/client/src/account_fetcher.rs:170-287 | a request is cached after a step if and only if the step brought its answer, or it was cached before and the step did not clear |
| `FetchCaching.CachedFetch` | lib/client/src/account_fetcher.rs:206-239 | a cached request is answered at once without a job; another waits for the running job or starts one |
| `FetchCaching.CachedUntilCleared` | lib/client/src/account_fetcher.rs:204-287 | over every run without clearing a cached request stays cached and no further job for it is started |
| `FetchCaching.ClearForgets` | lib/client/src/account_fetcher.rs:170-173 | clearing forgets every answer and leaves jobs and calls alone |
| `FetchCaching.CallsStay` | lib/client/src/account_fetcher.rs:204-287 | over every run a call stays known with its request, and an answer given stays |

## Left out

- The on-chain program apart from the event queue, the allocator and the fixed-point helpers: health, order matching, banks and instructions; health results, pnl and bank limits are inputs here.
- Network, RPC, database, metrics, logging and clock access; their results are parameters or arbitrary actions.
- Serum (spot) paths: the fills service has theirs commented out, and the order book service's reads another account format into the same level differences.
- `checked_div_f64_precision` and `clamp_to_i64`, and the queue's `revert_pushes`, which nothing calls.
- The liquidator's rebalance trigger and its panics after a failed channel operation.
- Order-by-order book updates of the order book service: they are sent only when both additions and removals exist, so replay of them is not claimed.
- `fetch_multiple_accounts` as an answer to its caller: on a partial hit it covers only the missing keys; its effect on the cache is modelled as the action `FetchMultiple`.
- Data that changes in the backend while a fetch is in flight.
- TcsScheduler.PrepareExecutions: requires at least one candidate, because the caller returns early on none; the sum of the sampling weights is not bounded to 64 bits.
- TcsLimits.ExecutionRespectsLimits: prices are positive, because dividing by a zero price aborts; the amounts before limits are inputs.
- QuoteCache.RunInv: prices are nonnegative reals, so a quote of no input and no output tokens, which has no price, is not covered.
- Settlement.SidesAreExact: the flat fee, which is not negative, and the threshold are bit patterns, compared without the rounding of single-precision floats; the fee for low health is an input, its health ratio is not modelled.
- LevelFeed.UpdateReplays: prices and quantities are exact numbers, without the rounding of double-precision sums.
- SettleBatch.BatchProcessor.AddAndMaybeSend: fetching the two accounts and building the instruction, which may fail before anything changes, are not modelled.
- SettleBatch.SettlePairs: an instruction that does not fit on its own is only rejected when it comes first in a batch, and is otherwise sent alone, as in the code.
- FillFilter.Filter.OnAccount: versions of one market's queue arrive one at a time, and the consumer applies updates in order.
- Widths of counters (sequence numbers, error counts, volumes) are unbounded except where a width decides a result.
