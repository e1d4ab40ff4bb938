# Verification of coin-service

A Dafny model of the parts of coin-service that carry state and invariants, and proofs
about them. `dafny verify dfyconfig.toml` checks the whole project.

- **Trading** (`SimplePaths`, `PoolGraph`, `TradePath`, `Pathfinder`, `SellAmount`): the
  liquidity graph, the capped depth-first search over it, the greedy choice of a pool per
  hop, the best path, and the binary search that inverts the receive curve. What a pool
  pays is an arbitrary function of pool, direction and amount; monotony is assumed only
  where a theorem says so.
- **Fees** (`FeeMath`, `FeeEstimator`): fees in the sold token and in PRV, with nested
  rounding up, and the arithmetic of "max" trades.
- **Routes** (`TokenRoute`): from pool names to tokens, and back to the bought token.
- **Version-1 rings** (`RingLayout`): real coins spliced in among decoys.
- **Pausing and backup** (`PauseGate`, `Backup`): interleaved steps of the coordinator, of
  the services' command threads and of their gated handlers, over FIFO links.
- **Chain synker** (`ChainSync`, `BulkInsert`, `CoinV1`, `PoolMirror`,
  `MirrorRuns`, `Rewards`): progress
  of any number of chain handlers with crashes and replay, insertion with its fallback,
  version-1 key totals, the mirror of the exchange state, and reward arithmetic.
- **OTA index worker** (`OtaWorker`): batches of coins without an owner, tested against
  keys and counted in their index.

Methods follow the loops and updates of the source and are proved against functions or
predicates; the lemmas say what those functions and predicates promise.

What the proofs found the code not to do, each with its exact condition or a run:

- `FindSellAmount` tries only powers of two until one of them pays. On a curve that is
  positive just between `a` and `b` it finds the least amount exactly when a power of two
  lies between them (always when `2a <= b`); otherwise it answers 0. It runs forever on a
  non-decreasing curve exactly when half of all amounts pays something and the largest
  amount does not reach the target; the condition for other curves is stated, too.
- Blocks two or more behind the tip are not written to the mirror, and the next block that
  is written is compared only with its immediate predecessor. So after a catch-up the mirror
  is exact exactly when all that went away since the last block written was still in the
  predecessor; otherwise rows of pools, orders, stakers or shares stay. The same holds of the
  first eleven blocks of the exchange, which are compared with nothing.
- A share row that only holds an order reward is never deleted from the mirror.
- Backups are safe exactly when requests do not overlap: otherwise two can both start, and
  the first to finish resumes the services under the second one's dump. And they are safe
  exactly when the services needed start paused: one that starts resumed, as the index
  worker does, is dumped while it runs.
- 10000 coins of index 0 that none of its keys takes stop the index worker's scan of their shard and token at 0;
  other shards and tokens are still completed.
- Two real coins of one commitment make the ring handler panic or reply with something
  that is not a ring, and so does a single real coin of index 0 in a shard with one other.

## Model

| member | source | states |
|---|---|---|
| SimplePaths.PathsFromMembers | pdexv3/pathfinder/pdexv3estimatetrade.go:126-159 | Without the cap, the search yields exactly the simple paths to the destination that avoid the visited tokens and fit the node limit |
| SimplePaths.PathsFromOrdered | pdexv3/pathfinder/pdexv3estimatetrade.go:126-159 | It yields them in the order of their branches in the sorted adjacency lists, hence without duplicates |
| PoolGraph.AddEdgesInv | pdexv3/pathfinder/pdexv3estimatetrade.go:41-69 | After any number of edges each directed edge is there once, with the maximum liquidity offered so far, although values are overwritten in shared big integers |
| PoolGraph.SortDescCorrect | pdexv3/pathfinder/pdexv3estimatetrade.go:91-96 | Sorting an adjacency list is stable, descending, and keeps its members |
| PoolGraph.BuildGraphCorrect | pdexv3/pathfinder/pdexv3estimatetrade.go:72-97 | The finished graph has an edge exactly between tokens some pool joins, in both directions, once, in descending order of the greatest liquidity of the token paid in among the pools that join them |
| Pathfinder.PriceCalculator.AddEdge | pdexv3/pathfinder/pdexv3estimatetrade.go:41-69 | One edge updates the graph map and the shared values as the specification does |
| Pathfinder.PriceCalculator.BuildGraph | pdexv3/pathfinder/pdexv3estimatetrade.go:72-97 | The graph in the object becomes the specified sorted graph |
| Pathfinder.PriceCalculator.FindPaths | pdexv3/pathfinder/pdexv3estimatetrade.go:99-124 | The result is the first 20 paths of the uncapped enumeration |
| Pathfinder.PriceCalculator.FindPath | pdexv3/pathfinder/pdexv3estimatetrade.go:126-159 | The recursive search appends the next paths of the enumeration until 20 are found and restores the visited marks |
| TradePath.AllPathsExact | pdexv3/pathfinder/pdexv3estimatetrade.go:99-159 | With at most 20 simple token paths, the paths found are all of them, each once |
| TradePath.DeepestFirst | pdexv3/pathfinder/pdexv3estimatetrade.go:256-267 | The search tries neighbours from the greatest to the least virtual reserve of the token paid in, scaled down by its pool's amplifier |
| TradePath.BestHopCorrect | pdexv3/pathfinder/pdexv3estimatetrade.go:208-241 | The pool chosen for a hop joins its tokens and pays at least as much as every other pool that does |
| TradePath.BestHopIs | pdexv3/pathfinder/pdexv3estimatetrade.go:208-241 | What a pool pays is its trade of the greatest part of the amount that leaves the rounded-up fee covered; the pool chosen is the first of those that pay most |
| Pathfinder.ChooseBestPoolFromAPair | pdexv3/pathfinder/pdexv3estimatetrade.go:208-241 | The loop over the pools finds that pool, and what it pays after the fee |
| TradePath.GreedyDominates | pdexv3/pathfinder/pdexv3estimatetrade.go:280-293 | Choosing greedily along a token walk pays at least what any pools along it pay, from any smaller amount |
| TradePath.GreedyReplays | pdexv3/pathfinder/pdexv3estimatetrade.go:280-293 | Trading through the chosen pools gives exactly the amount computed |
| TradePath.GoodTradePathIsBest | pdexv3/pathfinder/pdexv3estimatetrade.go:243-303 | For monotone pools the answer is no less than what any pool route along a simple token walk within the hop limit pays, if there are at most 20 such walks |
| TradePath.NoRoutePaysMore | pdexv3/pathfinder/pdexv3estimatetrade.go:243-303 | The same told hop by hop: no chain of pools along such a walk, each trading what the fee leaves of the last payment, ends with more |
| TradePath.GoodTradePathIsAnswer | pdexv3/pathfinder/pdexv3estimatetrade.go:243-303 | A positive answer is a simple walk within the hop limit with, at every hop, the first of the pools that pay most for what the hop before paid |
| TradePath.GoodTradePathReplays | pdexv3/pathfinder/pdexv3estimatetrade.go:243-303 | A positive answer comes with pools along a walk from source to destination that pay exactly it |
| TradePath.GoodTradePathMono | pdexv3/pathfinder/pdexv3estimatetrade.go:243-303 | The answer does not decrease with the amount sold |
| Pathfinder.FindGoodTradePath | pdexv3/pathfinder/pdexv3estimatetrade.go:243-303 | The whole procedure, from pools to best path, computes the specified route, and a positive result is such an answer |
| Pathfinder.FollowPath | pdexv3/pathfinder/pdexv3estimatetrade.go:280-293 | The loop along one path computes the greedy route |
| SellAmount.FoundIsLeast | pdexv3/pathfinder/pdexv3estimatetrade.go:305-336 | On a curve positive and non-decreasing just between a and b: the least amount that reaches the target, or 0 if none does, exactly when a power of two lies between a and b or nothing reaches it; 0 otherwise |
| SellAmount.WideBumpHasPowerOfTwo | pdexv3/pathfinder/pdexv3estimatetrade.go:313-333 | The condition holds whenever 2a <= b |
| SellAmount.FindSellAmount | pdexv3/pathfinder/pdexv3estimatetrade.go:305-336 | On every input on which the loop ends: the path for the amount found, and on every curve that is positive just between a and b the least amount that reaches the target, exactly when a power of two lies between them or nothing reaches it, and always when 2a <= b |
| SellAmount.NextBounds | pdexv3/pathfinder/pdexv3estimatetrade.go:317-332 | The branches of the loop body are one turn of the loop on uint64 values |
| SellAmount.WrapsExactly | pdexv3/pathfinder/pdexv3estimatetrade.go:313-333 | A bound wraps around to 0 exactly when every upper probe pays something short of the target |
| SellAmount.ReturnsExactly | pdexv3/pathfinder/pdexv3estimatetrade.go:313-333 | The loop ends unless all upper probes are short of the target and, after the wrap, no low probe pays or all late probes are short |
| SellAmount.NeverReturns | pdexv3/pathfinder/pdexv3estimatetrade.go:313-333 | In that case it runs forever |
| SellAmount.ReturnsOnNonDecreasing | pdexv3/pathfinder/pdexv3estimatetrade.go:313-333 | On a non-decreasing curve it ends exactly when half of all amounts pays nothing or the largest amount reaches the target |
| SellAmount.FoundOnNonDecreasing | pdexv3/pathfinder/pdexv3estimatetrade.go:313-333 | And it finds the least amount exactly when half of all amounts pays something or nothing reaches the target |
| SellAmount.MarketSearch | pdexv3/pathfinder/pdexv3estimatetrade.go:305-336 | Both conditions hold of the market's own curve when its pools are monotone and pay nothing for nothing |
| SellAmount.BumpReturns | pdexv3/pathfinder/pdexv3estimatetrade.go:313-333 | On a curve positive just between a and b the loop ends exactly when no bound wraps, and always when the largest amount pays nothing |
| SellAmount.FoundReaches | pdexv3/pathfinder/pdexv3estimatetrade.go:313-333 | On every curve an amount found pays something and reaches the target |
| SellAmount.FoundAfterWrap | pdexv3/pathfinder/pdexv3estimatetrade.go:313-333 | After a wrap it lies on the near side of the first low probe that pays, or of the first late probe that is not short, and is found whenever that probe reaches the target |
| FeeMath.CeilDivLeast | pdexv3/feeestimator/estimator.go:31-38 | The rounded-up quotient is the least that covers the dividend |
| FeeMath.NetExact | pdexv3/pathfinder/pdexv3estimatetrade.go:219-233 | Amount minus rounded-up fee never underflows for a rate of at most 10000 basis points, and is the greatest amount that leaves the fee covered |
| FeeMath.NetMono | pdexv3/pathfinder/pdexv3estimatetrade.go:219-233 | It does not decrease with the amount |
| FeeEstimator.PathRate | pdexv3/feeestimator/estimator.go:21-29 | The loop adds up each pool's own rate, or the default rate where it has none, as a machine word |
| FeeEstimator.EstimateFeeInSellToken | pdexv3/feeestimator/estimator.go:11-41 | Computes the fee or the error of the specification |
| FeeEstimator.SellFeeIsLeast | pdexv3/feeestimator/estimator.go:11-41 | The fee is the least that covers the path's total rate |
| FeeEstimator.SellFeeMono | pdexv3/feeestimator/estimator.go:11-41 | It is monotone in amount and total rate |
| FeeEstimator.SellFeeSplit | pdexv3/feeestimator/estimator.go:11-41 | Cutting a path in two changes the total fee by at most one unit |
| FeeEstimator.SelectionStep | pdexv3/feeestimator/utils.go:21-69 | A visited pool keeps the selection a lexicographic maximum of normalised liquidity and token/PRV rate |
| FeeEstimator.GetPriceAgainstPRV | pdexv3/feeestimator/utils.go:11-72 | Whatever the iteration order, the result is the reserves and scaled-down liquidity of a pool of the token and PRV with enough PRV, and no other is deeper, or as deep and of a higher token/PRV rate |
| FeeEstimator.PrvFeeOrderIndependent | pdexv3/feeestimator/utils.go:11-72 | All maxima have the same liquidity and rate and give the same fee, even with different reserves |
| FeeEstimator.EstimatedFeeInPRV | pdexv3/feeestimator/estimator.go:43-91 | The least PRV that, at the reserves of every such pool and without the discount, is worth the least weighted fee that covers the total rate; 1:1 for PRV; an error exactly without a path, amount or deep enough pool |
| FeeEstimator.PrvFeeCharges | pdexv3/feeestimator/estimator.go:72-90 | The nested rounded-up quotients are those least amounts |
| FeeEstimator.EstimateMaxInPRV | apiservice/pdexv3.go:1106-1136 | For a second route of no higher total rate, the quoted amount and fee fit the balance exactly when there is no fee or what is set aside is not more than the balance; the rest is quoted with the second route's own fee |
| FeeEstimator.MaxInPRVFits | apiservice/pdexv3.go:1106-1136 | With a second route of no higher total rate, reduced amount plus reported fee fits the balance when the first subtraction does not wrap; otherwise the amount alone exceeds it |
| FeeEstimator.EstimateMaxInSellToken | apiservice/pdexv3.go:1150-1180 | For a second route of no higher total rate, the quoted amount and fee fit the balance exactly when the first route's total rate is at most 10000 basis points; only the first fee is held back, and the rest is quoted with its own fee |
| FeeEstimator.MaxInSellTokenFits | apiservice/pdexv3.go:1150-1180 | With a second route of no higher total rate, reduced amount plus reported fee fits the balance exactly when the first route's total rate is at most 10000 basis points |
| TokenRoute.GetTokenRoute | apiservice/utils.go:478-492 | Each token shown is the other end of its pool's name |
| TokenRoute.RouteIsWalk | apiservice/utils.go:478-492 | Along a simple walk of pools the tokens shown are the walk's |
| TokenRoute.SplitName | apiservice/utils.go:482-490 | Splitting the name of a pool of two tokens gives the two tokens first |
| TokenRoute.CountMentions | processors/trade/trade.go:204-234 | The toggled map marks exactly the tokens mentioned once |
| TokenRoute.RecoverBuyToken | processors/trade/trade.go:204-234 | The token returned is one seen once that is not the sold token, whatever the map order |
| TokenRoute.WalkMentions | processors/trade/trade.go:204-234 | Along a simple walk both ends are mentioned once and every token between them twice |
| TokenRoute.RoundTrip | processors/trade/trade.go:204-234 | For any simple walk of pools the route shown is the walk and the recovered token is its end |
| TokenRoute.FoundRouteLeadsBack | pdexv3/pathfinder/pdexv3estimatetrade.go:243-303 | The pools of a paying answer name a simple walk from the sold token to the requested one |
| RingLayout.DrawDecoys | apiservice/coin.go:117-130 | The random indices are the first draws that are no real coin's index |
| RingLayout.UsablePositions | apiservice/coin.go:121-130 | Those draws are at increasing positions, and exactly the draws passed over hit a real coin |
| RingLayout.InsertReal | apiservice/coin.go:155-169 | For coins of different commitments every insertion is in range and both lists get the specified layout at the reported positions; in general one goes out of range exactly when coins outnumber the different commitments by more than one, or by one whose place does not come first |
| RingLayout.SpliceLaysOut | apiservice/coin.go:155-169 | One insertion completes one more group of the layout |
| RingLayout.IndexOfSize | apiservice/coin.go:95-110 | The map of indices by commitment has as many entries as coins exactly when no two share a commitment |
| RingLayout.GetRandomCommitments | apiservice/coin.go:75-170 | When the handler replies, draws on, rejects or panics; a reply is a ring of the real coins exactly when no two of them share a commitment, and its other places then hold, in order, the coins fetched, each index beside its own commitment; the reply for a single coin in a shard with one other is spelled out, and a ring exactly when its index is not 0 |
| RingLayout.LayoutIsRing | apiservice/coin.go:104-169 | Group j holds exactly one real coin, the j-th, at the reported index, beside its own commitment |
| RingLayout.DecoysAligned | apiservice/coin.go:104-169 | Decoy indices stay beside their commitments |
| PauseGate.StepKeepsInv | chainsynker/coordinator.go:46-95 | The invariant of flag, statuses and handlers survives every step |
| PauseGate.NoHandlerPastGate | chainsynker/coordinator.go:46-95 | For any number of chains and in every interleaving, between a pause acknowledgement and the next command no handler is past its gate |
| PauseGate.ParkedUntilResume | chainsynker/coordinator.go:119-137 | Only the start of a resume lets a handler through |
| PauseGate.ParkedFromAcknowledgement | chainsynker/coordinator.go:46-95 | Along every run from the acknowledgement of a pause until a resume begins every handler is parked |
| PauseGate.ReportIsExact | chainsynker/coordinator.go:97-113 | Between commands the reported status is that of the last command carried out |
| Backup.PausableAndPaused | coordinator/api.go:91-98 | A service whose flag says paused and for which no resume or stale status is under way is parked |
| Backup.CommandKeeps | chainsynker/coordinator.go:46-113 | Carrying out commands in order keeps what is known of the messages in flight |
| Backup.ActInv | coordinator/coordinator.go:27-169 | Every step of services, main loop and backup keeps the system invariant |
| Backup.DumpIsSafe | coordinator/coordinator.go:27-169 | If requests do not overlap and the required services start paused, in every run every gated loop of every required service is parked for as long as a backup dumps |
| Backup.SafeExactlyWithoutOverlap | coordinator/api.go:135-165 | From every start of a backup that needs a service, all runs are safe exactly when requests do not overlap |
| Backup.SafeExactlyIfAllStartPaused | coordinator/api.go:59-68 | Where required services start paused or resumed, single backups are safe in all runs exactly when all of them start paused |
| Backup.OverlappingRequestsAreUnsafe | coordinator/api.go:135-165 | From every start, a run of two overlapping requests in which any handler of any required service runs during a dump |
| Backup.RunningServiceIsUnsafe | coordinator/api.go:59-68 | From every start in which some required service is resumed, a run of a single backup that dumps while any handler of it runs |
| ChainSync.StepKeepsInv | chainsynker/shard.go:134-606 | Waiting, writing, committing, storing and crashing keep the invariant of heights, snapshots and documents |
| ChainSync.CutsAreConsistent | chainsynker/shard.go:134-155 | In every interleaving with crashes, heights in memory and in the stored snapshot are consistent cuts |
| ChainSync.HeightsOnlyGrow | chainsynker/state.go:20-28 | In a step the stored snapshot does not go back; heights do only in a crash, to the snapshot |
| ChainSync.SnapshotsOnlyGrow | chainsynker/state.go:20-28 | Nor along any run: later snapshots are never behind earlier ones, nor heights if there was no crash between |
| ChainSync.CaughtUpKeys | chainsynker/shard.go:549-606 | Once caught up, the collections hold the keys of exactly the processed blocks |
| ChainSync.CrashesLeaveNoTrace | chainsynker/shard.go:549-606 | Runs with and without crashes that reach the same heights leave the same keys |
| ChainSync.DocumentsAreKept | chainsynker/shard.go:549-606 | No step of a handler, crash or replay changes a document that is there |
| ChainSync.NewDocumentsAreWritten | chainsynker/shard.go:549-606 | Along any run a new key holds the body of a document of a block that has been started |
| ChainSync.SomeChainCanProceed | chainsynker/shard.go:134-155 | With acyclic references some chain's next block passes its wait |
| ChainSync.SomeHandlerMoves | chainsynker/beacon.go:48-61 | So the handlers never all wait for each other |
| ChainSync.CrossShardHeights | chainsynker/shard.go:89-132 | Comparing one height per shard is the same as checking every reference |
| BulkInsert.Collection.InsertMany | database/tx.go:17-55 | An ordered bulk insert stops at the first taken key with the prefix before it inserted |
| BulkInsert.Collection.Save | database/tx.go:17-55 | Bulk insert with one-by-one fallback is "insert each if its key is absent": every new key holds the body of its first document |
| BulkInsert.InsertAllExact | database/keyimage.go:16-55 | Saving adds exactly the list's keys, each new one with its first document, and changes no document that was there |
| BulkInsert.InsertAgain | database/tx.go:17-55 | At every moment of the fallback the collection holds a prefix of the list |
| BulkInsert.SaveTwice | database/mongo.go:35-112 | Saving a list again, after any part of it has been saved, is the same as saving it once |
| BulkInsert.SaveCoins | database/mongo.go:35-112 | Coins of version 2 go to one collection and all others to the other, in the order of the list, each by the same rule |
| CoinV1.AggregateBlock | chainsynker/shard.go:171-209 | A block's nested maps are its recount: least and greatest index and number per public key and token |
| CoinV1.RecountExact | chainsynker/shard.go:171-209 | The recount's entry is the minimum, maximum and number of the matching coins |
| CoinV1.RecountConcat | database/coinv1.go:37-116 | Merging two recounts is the recount of both |
| CoinV1.MergeDoc | database/coinv1.go:53-75 | The loop over a stored document merges each token's entry |
| CoinV1.KeyInfos.UpdatePubkeyInfo | database/coinv1.go:37-116 | Updating existing documents and inserting the others merges the block into the collection |
| CoinV1.NoUpdateIsLost | chainsynker/shard.go:568-581 | With concurrent read-modify-write by shard, the stored entry is the recount of all blocks, as a public key belongs to one shard |
| CoinV1.OrderDoesNotMatter | chainsynker/shard.go:568-581 | The order of blocks does not matter |
| PoolMirror.Upserts | chainsynker/beacon.go:538-615 | The rows of a state: one per pool, one per order, and one per NFT with a share or an order reward, holding the share's amount and fee and the order reward, with distinct keys |
| PoolMirror.Deletes | chainsynker/beacon.go:902-966 | Exactly the pools gone, the orders gone from their pool, and the shares (not mere order rewards) gone |
| PoolMirror.StakerUpserts | chainsynker/beacon.go:638-665 | One row per staker |
| PoolMirror.StakerDeletes | chainsynker/beacon.go:968-1001 | Exactly the stakers gone |
| PoolMirror.KeyAfter | database/pdex.go:776-829 | What a key holds after upserts and deletes by key is settled by the writes that touch it |
| PoolMirror.WritesSettle | chainsynker/beacon.go:404-497 | Every interleaving of the writers ends in the same collection |
| PoolMirror.RerunSettles | chainsynker/beacon.go:404-497 | If a block is written again after any part of its writes has been done the collection is the same as if it had been written once |
| PoolMirror.PoolsMirrored | chainsynker/beacon.go:538-966 | Whatever the collection held, after the writes it is exactly the new state's pools if and only if it held none but pools of the two states |
| PoolMirror.OrdersMirrored | chainsynker/beacon.go:538-966 | The same for orders, if order ids are unique |
| PoolMirror.StakersMirrored | chainsynker/beacon.go:638-1001 | The same for stakers |
| PoolMirror.SharesMirrored | chainsynker/beacon.go:538-966 | Whatever was there, all live share rows are there, and no others exactly when every row held before is live or belonged to an NFT with a share in the state compared with |
| PoolMirror.OrderRewardRowStays | chainsynker/beacon.go:930-948 | A state change after which a row of a mere order reward stays |
| PoolMirror.MirrorDiff | chainsynker/beacon.go:538-966 | The lists computed from two states have disjoint keys, and what they leave of any collection is exact under the conditions above |
| PoolMirror.StakerDiff | chainsynker/beacon.go:638-1001 | The same for stakers |
| MirrorRuns.WhoStays | chainsynker/beacon.go:278-282 | Over any run of written, skipped and interrupted blocks, the rows left are those put and not dropped since |
| MirrorRuns.MirrorAfterRun | chainsynker/beacon.go:278-282 | After a block that is written all its rows are there, and no others exactly when every other row put before has been dropped since |
| MirrorRuns.CatchUp | chainsynker/beacon.go:194-203 | From an exact mirror, after any number of skipped blocks, writing a block makes it exact exactly when that block deletes all that went away |
| MirrorRuns.NoSkipsStayExact | chainsynker/beacon.go:404-497 | With no block skipped it stays exact after every block, through any crashes and reruns |
| MirrorRuns.PoolsCatchUp | chainsynker/beacon.go:518-535 | For pools: exactly when every pool gone since the last block written was still in the immediate predecessor |
| MirrorRuns.OrdersCatchUp | chainsynker/beacon.go:518-535 | The same for orders |
| MirrorRuns.StakersCatchUp | chainsynker/beacon.go:518-535 | The same for stakers |
| MirrorRuns.SharesCatchUp | chainsynker/beacon.go:518-535 | For shares, when it was a share there |
| MirrorRuns.PoolsAfterRun | chainsynker/beacon.go:518-1004 | Over any run, pools are exact after a written block exactly when no pool lasts that its state has not |
| MirrorRuns.OrdersAfterRun | chainsynker/beacon.go:518-1004 | The same for orders |
| MirrorRuns.StakersAfterRun | chainsynker/beacon.go:518-1004 | The same for stakers |
| MirrorRuns.SharesAfterRun | chainsynker/beacon.go:518-1004 | The same for shares, whose live rows are there after every written block of any run |
| MirrorRuns.PoolsStayExact | chainsynker/beacon.go:145-203 | From the tenth block after the exchange's first one on, with no block skipped, pools stay exact |
| MirrorRuns.OrdersStayExact | chainsynker/beacon.go:145-203 | The same for orders |
| MirrorRuns.StakersStayExact | chainsynker/beacon.go:145-203 | The same for stakers |
| MirrorRuns.SkippedBlockLeavesRow | chainsynker/beacon.go:278-282 | A pool that goes away in one skipped block keeps its row |
| Rewards.RecomputeLPFee | chainsynker/utils.go:160-226 | Both loops give each token the specified credit, or an error exactly when some reward is out of range |
| Rewards.ExtractLqReward | chainsynker/beacon.go:1164-1219 | Each token gets the floors of both growths since the previous state's own accumulators, added as uint64, or an error exactly when one is out of range |
| Rewards.FloorSum | chainsynker/beacon.go:1184-1185 | Floors of n parts lose less than n against the floor of the whole |
| Rewards.GainIsFloors | chainsynker/utils.go:188-222 | A share's credit grows by the floors of its part of both growths |
| Rewards.CreditsConserved | chainsynker/utils.go:160-226 | Over the same growth n shares are credited at most the pool's reward, and at most n-1 units less per reward kind; that reward is recorded unless it exceeds a machine word |
| Rewards.RewardsSplit | chainsynker/beacon.go:1164-1219 | Splitting a growth over k blocks records at most k-1 units less per reward kind |
| OtaWorker.QueryUnknown | database/coinv2.go:79-97 | The unassigned coins of least index from the cursor on, at most 10000 |
| OtaWorker.GetUnknownCoins | otaindexer/worker.go:620-643 | One such batch for every cursor |
| OtaWorker.FindOwner | otaindexer/worker.go:494-519 | The first key not scanned further that the coin belongs to |
| OtaWorker.FilterCoins | otaindexer/worker.go:463-563 | Exactly the coins of the batch that some key takes, each once for the first key not scanned beyond it that the test accepts it for, with the token and NFT mark the test found and all else unchanged; and the greatest index per shard and token |
| OtaWorker.UpdateKeys | otaindexer/worker.go:340-429 | Every key's entries are counted on and its cursors raised, never lowered |
| OtaWorker.UpdateCoins | database/coinv2.go:17-35 | The coins found are written and no others |
| OtaWorker.CountInTally | otaindexer/worker.go:366-411 | Counting distinct new coins in an entry gives least index, greatest index and number of all of them |
| OtaWorker.RecountKept | otaindexer/worker.go:297-429 | After a batch every entry of a key still is a recount of the collection |
| OtaWorker.StoppedBetweenWrites | otaindexer/worker.go:431-445 | If the worker stops after writing some coins and before writing its keys, a stored key still is a recount exactly when none of those coins was found for it |
| OtaWorker.CountedOnce | otaindexer/worker.go:158-169 | A coin found is counted for one key of its shard and in one entry |
| OtaWorker.Worker.AssignKey | otaindexer/worker.go:158-169 | A key is assigned once per shard |
| OtaWorker.Worker.MinCursors | otaindexer/worker.go:587-618 | A scan starts, per shard and token, at the least cursor of its keys |
| OtaWorker.Worker.UpdateCoinState | otaindexer/worker.go:297-429 | Keys and coins after a batch |
| OtaWorker.Worker.ScanBatch | otaindexer/worker.go:228-261 | One round keeps what the scan promises of each channel (a shard and a token); another follows only when coins to read have become fewer |
| OtaWorker.CoveredKept | otaindexer/worker.go:228-261 | After a batch every coin of a channel due for a key has been tested against it or is still ahead of the cursor, and when no cursor moved none is ahead |
| OtaWorker.PendingShrinks | otaindexer/worker.go:243-258 | A cursor that moved has passed a coin |
| OtaWorker.Worker.ScanOTACoins | otaindexer/worker.go:228-261 | The scan ends, assigns coins only to keys of their shard they belong to, each with the token and NFT mark the test found, keeps every index a recount, grows each entry by exactly the coins the test attributed to its token, and for each shard and token by itself tests every unassigned coin above a key's starting cursor against that key, unless coins of index 0 fill its batches; where 10000 of those are taken by no key assigned here nothing above index 0 is touched |
| OtaWorker.IndexGrows | otaindexer/worker.go:353-411 | An entry grows by exactly the number of coins found for the key that the test attributed to its token, as coins or as NFTs |
| OtaWorker.CompleteExactly | otaindexer/worker.go:228-261 | Where the coins of index 0 that no assigned key takes fill a batch, a channel is completed exactly when no key starts at 0 or no key owns a coin left unread; where all coins of index 0 together do not, it is completed |
| OtaWorker.CursorLeavesZero | database/coinv2.go:79-97 | A cursor leaves 0 exactly when the coins of index 0 do not fill a batch and there is a higher one |
| OtaWorker.StallPersists | otaindexer/worker.go:228-261 | With 10000 coins of index 0 that no assigned key of the shard takes, a round from cursor 0 reads no higher coin, and those coins are as many after it |

## Left out

- FindSellAmount: the inputs on which the loop runs forever (`ReturnsExactly`, `MarketSearch`) are excluded by its precondition, as a method has to end.
- GoodTradePathIsBest: says nothing for more than 20 simple token paths, of which only the first 20 are considered.
- GetRandomCommitments: random numbers and draws are parameters, and encodings of commitments are not modelled.
- MaxInPRVFits: fees and total rates that themselves overflow a machine word; the same holds for the other statements about fees.
- DumpIsSafe: no service joins, reconnects or misses a heartbeat during a run. That a pause is ever reached is not claimed.
- ScanOTACoins: coins of one shard and token are taken to have distinct indices other than 0; where coins of index 0 fill a batch only together with some that an assigned key takes, what is completed depends on the order in which the database returns them, and no claim is made. The chain synker inserts no coin during a scan, and the ownership test is fixed. An OTA key is taken to be in one shard. Indices are below 2^63, and the goroutines of one batch are a loop; keys are values in the worker's map, so that two references to one key are not modelled.
- SharesMirrored: rows that only ever held an order reward stay, and rows gone in skipped blocks; the exact conditions are stated instead.
- CreditsConserved: growth is not negative and locked shares do not exceed a share's amount.
- UpdateCoinState: the totals of received transactions and the token of transactions are not modelled; coins and keys are written in one step (`StoppedBetweenWrites` says what a stop in between leaves).
- UpdatePubkeyInfo: replay of a block after a crash, under which the totals are not stable.
- CutsAreConsistent: redelivery of blocks by the chain's own framework; a handler takes the block after the last one processed. Its documents are those of shard blocks. Of the beacon's, the rows of the exchange are upserted and deleted (`MirrorRuns`, with crashes and skipped blocks), and instructions and reward records are inserted by the rule of `BulkInsert`.
- The trade function, exchange state processing, keys, asset tags and encodings belong to the chain's library and are parameters here.
- MongoDB, LevelDB, websockets and locks are maps, queues and atomic steps; error texts are not modelled.
- Stake-pool rows, which are upserted and deleted together, and staking rewards, whose arithmetic is that of the trading-fee rewards.
- Floating-point prices and rates, order book grouping, 24-hour changes.
- History and listing handlers, other processors, configuration and tools.
- The REINDEX message, the transaction scan and the choice of a worker by the master indexer.
