# A verified model of the vector database's service layer

This project models eleven services of the vector database in Dafny and proves what they promise. Each
service that keeps state is a class whose methods change its fields step by step, as the Python does, and
each method is proved equal to a function on plain values. The theorems are about those functions: they
hold for every input, every run of the operations, or every interleaving of the protocol's steps.

| file | what it models |
|---|---|
| `CrdtState`, `CrdtNetwork`, `CrdtSync` | the grow-only counter and the last-write-wins element set; regions that exchange deltas late, repeatedly, out of order or never; the sync service's objects |
| `CacheModel`, `MultilevelCache` | the three-tier cache: RAM in least-recently-used order, a bounded disk, a cold object tier |
| `StableSort`, `ScatterGather`, `RankFusion`, `Coordinator` | top-K search over shards, fused by best distance or by reciprocal rank |
| `Federated` | federated averaging over client batches |
| `Ndcg` | NDCG@10 and the mean reciprocal rank of a ranking |
| `CdcModel`, `CdcConnector` | buffering, batching and regrouping of change events |
| `Quorum`, `RaftModel`, `RaftCoordinator` | the majority arithmetic and the log of one Raft node |
| `LabelPropagation` | inferring missing labels from a graph's neighbours |
| `BatchPoolModel`, `BatchPool` | producers, coordinator and workers of the adaptive batch pool, interleaved |
| `PgWire`, `PgMessages`, `PgServer` | the PostgreSQL wire protocol: framing, message bodies, the query loop |
| `TokenBucket` | per-tenant credits and the scheduler that spends them |

`Prelude` holds shared definitions. Numbers that the source keeps as floats are reals. Stored values are
opaque, and serialising and reading one back gives the same value.

## What the code does not keep

Where a property the design suggests is false of the code, the code is modelled as it is, and the exact
condition under which the property holds is proved.

- Merging element sets commutes exactly if equally old entries for an id are the same entry and no
  tombstone below 0 stands on one side alone (`MergeCommutesExactly`). Two regions that have seen the same
  writes can still disagree, if and only if two newest inserts of an id differ (`RunsConvergeExactly`).
  A missing tombstone counts as 0, so tombstones below 0 can make the grouping of merges matter
  (`MergeAssociatesExactly`, `NegativeTombstoneBreaksAssociativity`). Sets that histories of writes leave hold no such tombstone
  (`HistoriesMerge`).
- `clear` leaves the cold tier alone, so it can bring back a value that had been overwritten
  (`ClearRevivesStale`, `ClearEmptiesExactly`).
- Shards that share a name overwrite each other's answers, and the result is not flagged as degraded
  (`LostAnswer`, `GatherKeepsExactly`): the search is exact for all they may hold if and only if no two
  healthy shards share a name (`AlwaysExactByName`).
- An id that comes first in every list can be outranked by one that a list names twice
  (`TwiceBeatsFirst`). Whatever the constant and however many rows the shards return, an id is never
  outranked by another if and only if the rows read so far, the first ones of all lists before the second
  ones, have at no depth named the other more often (`NeverOutrankedExactly`).
- A federated round over updates passed in drops the pending ones: every accepted batch enters exactly one
  round or is still pending if and only if that never happens (`EveryBatchCountsExactly`), and a batch it
  happens to leaves no trace (`NextBatchCanBeLost`).
- A change batch that deletes an id and then creates it again ends with the id deleted (`RegroupingExact`),
  and so does the whole run if no later batch touches the id. A batch whose embedding raises is lost, its
  deletes too: `StopInOrderAt` says which ids then differ from in-order application. An update that changes
  the id column leaves the document of the old id behind (`ChangedIdKeepsOld`). With a batch size
  below 1 the flush of stop can leave events in the buffer (`StopDrainsExactly` of `CdcModel`).
- In a cluster with an even number of nodes half of them are enough for the sorted-match rule, and a
  committing set and an electing set need not meet (`CommitMajorityExactly`, `QuorumsMeetExactly`); with
  four nodes or more every proposal is at some point applied while only half of them hold it
  (`EvenClusterCommitsByHalf`). Stepping down to a term more than one older than the log lets a later
  proposal put the log's terms out of order; any other step down, followed by others no staler, does not
  (`StepDownExactly`).
- Stopping the batch pool ends its collection rounds before the drain starts, so whatever does not fit in
  the round under way is never dispatched (`StopDrainsExactly` of `BatchPoolModel`, `StopCanStrand`).
- Labels travel one edge per pass at worst, and there are ten passes: nodes joined to a seed by longer paths
  can stay without a label (`TenEdgesExactly`).
- A length word below 4 is read as an empty message (`ReadExactly`), and texts holding a NUL byte do not
  survive the wire (`DescriptionExactly`, `ErrorExactly`, `StatusExactly`).
- Scheduling for an unregistered tenant takes the scheduler's lock and then waits for it: that can happen to
  concurrent calls unless every tenant was registered before (`NeverStuckExactly`), and from then on every
  call that needs the lock waits forever (`StuckForever`).

## Model

| member | source | states |
|---|---|---|
| CrdtState.MergeAssociatesExactly | services/crdt_sync.py:87-99 | the grouping of three merges never matters except for an id with tombstones below 0.0 in the outer two and none in the middle one |
| CrdtState.NegativeTombstoneBreaksAssociativity | services/crdt_sync.py:95-98 | a tombstone below the default 0.0 makes the grouping matter |
| CrdtState.MergeIdempotent | services/crdt_sync.py:87-99 | merging a set with itself, or the same delta twice, changes nothing more |
| CrdtState.MergeCommutesExactly | services/crdt_sync.py:89-98 | the merge commutes if and only if equally old entries for an id are the same entry and no tombstone that one side alone holds is below 0.0 |
| CrdtState.AddIsMerge | services/crdt_sync.py:61-65 | a local add is a merge with the one-element delta |
| CrdtState.RemoveIsMerge | services/crdt_sync.py:67-69 | a local remove is a merge with the one-tombstone delta |
| CrdtState.ApplyRepresents | services/crdt_sync.py:61-69 | after a write the set keeps, per id, a newest insert and the newest delete of all writes so far |
| CrdtState.MergeRepresents | services/crdt_sync.py:87-99 | a merge keeps the newest inserts and deletes of both histories together |
| CrdtState.ReplayRepresents | services/crdt_sync.py:61-69 | so does any whole history of writes |
| CrdtState.HistoriesMerge | services/crdt_sync.py:87-99 | sets that histories of writes leave, whatever the times, merge in any grouping to the same set, and in either order if and only if their ties agree |
| CrdtState.RepresentsDetermines | services/crdt_sync.py:87-99 | the writes absorbed determine the set once no newest inserts of an id differ |
| CrdtState.ConvergenceExactly | services/crdt_sync.py:61-69 | order and repetition of writes never matter if and only if no id has two differing newest inserts |
| CrdtState.VisibleExactly | services/crdt_sync.py:71-85 | an id is visible if and only if a newest insert is later than 0.0 and than every delete of it; lookup and elements agree |
| CrdtState.CounterValueOver | services/crdt_sync.py:33-34 | the counter's value is the sum of its slots over any set of nodes that covers them |
| CrdtState.MergeCountsLub | services/crdt_sync.py:36-40 | the merged counter lies below every common bound, and is itself one if and only if no slot that only the left one has is negative |
| CrdtState.MergeCountsCommutes | services/crdt_sync.py:36-40 | counter merge is idempotent, and commutes if and only if no slot that only one side has is negative |
| CrdtState.MergeCountsAssociative | services/crdt_sync.py:36-40 | the grouping of three counter merges never matters except for a node with negative slots in the outer two and none in the middle one |
| CrdtNetwork.RunKeepsCounts | services/crdt_sync.py:191-277 | in every run no slot anywhere exceeds its owner's, and each owner's slot counts its own inserts |
| CrdtNetwork.RunKeepsSets | services/crdt_sync.py:191-277 | in every run every replica and every delta in transit reflects exactly the writes it has absorbed |
| CrdtNetwork.StrongEventualConsistency | services/crdt_sync.py:191-277 | replicas that absorbed the same writes, however delivered, hold the same add and remove sets |
| CrdtNetwork.SeparatedRunsConverge | services/crdt_sync.py:191-277 | the same, when no two inserts of an id share a time and differ in value |
| CrdtNetwork.TiesCanDiverge | services/crdt_sync.py:93 | for any writes with two differing newest inserts of an id there is a run in which two given regions absorb exactly these writes and disagree |
| CrdtNetwork.RunsConvergeExactly | services/crdt_sync.py:191-277 | two regions that absorbed exactly the given writes agree in every run if and only if no id has two newest inserts that differ |
| CrdtNetwork.RunVisibleExactly | services/crdt_sync.py:71-85 | in every run an id is visible at a replica if and only if the newest insert it has absorbed is later than 0.0 and than every delete it has absorbed |
| CrdtNetwork.NothingInvented | services/crdt_sync.py:241-277 | every write a replica or a delta holds was performed by some node |
| CrdtNetwork.RunCounts | services/crdt_sync.py:154-157 | a replica's own slot is the number of its inserts, other slots are never ahead |
| CrdtNetwork.ValueMonotone | services/crdt_sync.py:30-40 | no step of any run lowers any replica's counter value |
| CrdtNetwork.ValueCompleteExactly | services/crdt_sync.py:154-157 | in any run a replica reports all inserts performed anywhere if and only if, for every other node that inserted, some delta it received carried that node's full slot, directly or relayed |
| CrdtNetwork.FullExchangeCountsInserts | services/crdt_sync.py:154-277 | in any run in which every node received every other node's delta sent after its last write, every replica's value is the total number of inserts |
| CrdtNetwork.FullExchangeConverges | services/crdt_sync.py:191-277 | after such an exchange every replica has absorbed exactly the writes performed anywhere, and holds the same sets if times separate values |
| CrdtNetwork.EveryRunCanExchange | services/crdt_sync.py:218-277 | every run can be continued, without further writes, to one with a full exchange |
| CrdtSync.GCounter.Merge | services/crdt_sync.py:36-40 | the merge loop builds a new counter with the slotwise maximum |
| CrdtSync.GCounter.Value | services/crdt_sync.py:33-34 | the summing loop gives the counter's value |
| CrdtSync.LWWElementSet.Add | services/crdt_sync.py:61-65 | the set after an add is the specified one |
| CrdtSync.LWWElementSet.Remove | services/crdt_sync.py:67-69 | the set after a remove is the specified one |
| CrdtSync.LWWElementSet.Elements | services/crdt_sync.py:80-85 | the loop collects exactly the visible ids with their values |
| CrdtSync.LWWElementSet.Merge | services/crdt_sync.py:87-99 | the two loops build a new set equal to the merge |
| CrdtSync.CRDTSyncService.LocalInsert | services/crdt_sync.py:191-195 | a local insert counts once and merges a one-element delta at the time given, or now if that is missing or 0 |
| CrdtSync.CRDTSyncService.LocalDelete | services/crdt_sync.py:197-201 | a local delete leaves the counter alone and merges a one-tombstone delta at the time given, or now if that is missing or 0 |
| CrdtSync.CRDTSyncService.ProduceDelta | services/crdt_sync.py:218-235 | the delta carries the add set, the tombstones and the counter with its node, and the state is unchanged |
| CrdtSync.CRDTSyncService.MergeDelta | services/crdt_sync.py:241-277 | the state becomes its merge with what the delta has; missing parts change nothing |
| CrdtSync.CRDTSyncService.MergeRemoteState | services/crdt_sync.py:297-302 | the state becomes its merge with what the remote state has, and is returned |
| CrdtSync.DeltaEqualsFullState | services/crdt_sync.py:218-302 | merging a produced delta and merging the full state leave equal replicas |
| CrdtSync.LastWriteWins | services/crdt_sync.py:191-209 | an insert at t1 and a delete at t2, in either order: the id is visible if and only if t1 > t2, whatever the clock, and no other id is affected |
| CacheModel.RunHolds | services/multilevel_cache.py:91-126 | in every run RAM and disk are never stale, and a key missing from both has its latest value in the cold tier if there is one |
| CacheModel.ReadsRefineMap | services/multilevel_cache.py:91-126 | with the cold tier a read answers like a plain map; without it, like the map or not at all; both sizes stay bounded |
| CacheModel.ReadAfterPut | services/multilevel_cache.py:91-120 | a value just put is read back if and only if some tier can hold it |
| CacheModel.RecentReadable | services/multilevel_cache.py:91-126 | in every run, restarts included and with or without the cold tier, a value is read back while its key is neither put nor deleted and fewer than max_l2 other keys are put |
| CacheModel.GetRefines | services/multilevel_cache.py:91-116 | one read: its answer, the map it leaves unchanged, the new recency order, the one counter that goes up, and the disk, untouched unless the cold tier answered |
| CacheModel.PutRefines | services/multilevel_cache.py:118-120 | one put: the map is updated at the key, the key is newest in both orders, and files and objects change for that key and the evicted ones alone |
| CacheModel.DeleteRefines | services/multilevel_cache.py:122-126 | one delete: the map loses the key in every tier |
| CacheModel.DeleteConcernsOne | services/multilevel_cache.py:122-126 | every other key is read as before and stays in its tiers and in its place; the deleted one is read no more |
| CacheModel.L2PutWrites | services/multilevel_cache.py:171-188 | after a disk write exactly the keys that left the order have lost their files, and with a cold tier those are its objects |
| CacheModel.EvictL2Holds | services/multilevel_cache.py:183-188 | eviction from disk moves values to the cold tier and loses none that tier could hold |
| CacheModel.BetweenRestarts | services/multilevel_cache.py:91-126 | files unknown to this cache never increase, and hits and misses add up to the reads |
| CacheModel.DiskBound | services/multilevel_cache.py:171-188 | the disk holds at most its bound beside the files found at the start |
| CacheModel.ColdReads | services/multilevel_cache.py:128-149 | what reads see after a restart and after a clear |
| CacheModel.ClearEmptiesExactly | services/multilevel_cache.py:128-135 | clearing empties the cache if and only if the cold tier is off or empty and every file is tracked |
| CacheModel.ClearRevivesStale | services/multilevel_cache.py:128-135 | three puts into a new cache and a clear make an overwritten value visible again |
| CacheModel.LruExact | services/multilevel_cache.py:91-112 | over every delete-free run RAM holds exactly the most recently used keys, in order of last use |
| MultilevelCache.MultilevelCache.PromoteToL1 | services/multilevel_cache.py:151-163 | promotion with its eviction loop reaches the specified state |
| MultilevelCache.MultilevelCache.L2Put | services/multilevel_cache.py:171-190 | the disk write with its eviction loop and demotions reaches the specified state |
| MultilevelCache.MultilevelCache.L3Demote | services/multilevel_cache.py:248-263 | demotion copies the file to the cold tier if there is one, and changes nothing else |
| MultilevelCache.MultilevelCache.Get | services/multilevel_cache.py:91-116 | the read through the three tiers gives the specified answer and state |
| MultilevelCache.MultilevelCache.Put | services/multilevel_cache.py:118-120 | the write-through reaches the specified state |
| MultilevelCache.MultilevelCache.Delete | services/multilevel_cache.py:122-126 | the delete reaches the specified state |
| MultilevelCache.MultilevelCache.Clear | services/multilevel_cache.py:128-135 | the clear loop reaches the specified state |
| StableSort.SortBy | services/distributed_coordinator.py:143 | sorting permutes and orders by key |
| StableSort.SortStable | services/distributed_coordinator.py:143 | sorting keeps the order of elements with equal keys |
| ScatterGather.CollectBest | services/distributed_coordinator.py:135-142 | the dictionary holds, for every id met, a row with that id's smallest distance |
| ScatterGather.KeptIsNearest | services/distributed_coordinator.py:135-142 | of the rows with an id the first nearest is kept, a missing distance counting as 0 |
| ScatterGather.CollectOrder | services/distributed_coordinator.py:135-142 | the ids are those met, in the order in which they are met |
| ScatterGather.UnreportedIsFar | services/distributed_coordinator.py:99-114 | a document its shard left out of its top list is no nearer than k fused results |
| ScatterGather.FusionExact | services/distributed_coordinator.py:132-144 | fusing exact shard tops gives a true top k of all documents by best distance per id, replicas included |
| ScatterGather.FuseDistanceLoop | services/distributed_coordinator.py:133-144 | the loops compute the fused list |
| RankFusion.ScoreOrderIndependent | services/distributed_coordinator.py:147-156 | a reciprocal-rank score does not depend on the order of the shards |
| RankFusion.ScoreOfRank | services/distributed_coordinator.py:151-156 | an id listed once, at rank i from 0, scores 1/(c + i + 1), and 0 if it is not listed |
| RankFusion.ScoreAdds | services/distributed_coordinator.py:150-156 | scores add up over the lists |
| RankFusion.FusedRow | services/distributed_coordinator.py:147-164 | each fused row is the first one met with its id, and carries that id's score |
| RankFusion.FusedInOrder | services/distributed_coordinator.py:158-164 | scores descend, ids occur once, and there are at most k |
| RankFusion.FusedBest | services/distributed_coordinator.py:158-164 | an id left out scores no more than any of the k listed |
| RankFusion.TiesAsMet | services/distributed_coordinator.py:158 | ids of equal score are ranked in the order in which they are met |
| RankFusion.NeverOutscoredExactly | services/distributed_coordinator.py:99-156 | for no number of rows asked of the shards and no constant does y outscore x, if and only if the rows up to any depth of all lists together name x at least as often as y |
| RankFusion.NeverOutrankedExactly | services/distributed_coordinator.py:99-164 | the same of the whole fused output: y is never listed at a higher score than x, or without x |
| RankFusion.LeadsExactly | services/distributed_coordinator.py:151-156 | of a single list: wherever it is cut off and for every constant x scores at least as much as y, if and only if no prefix names y more often than x |
| RankFusion.UnanimousAhead | services/distributed_coordinator.py:151-156 | what leads in every list is ahead over all lists, and strictly somewhere if any list names the other id |
| RankFusion.AheadScoresMore | services/distributed_coordinator.py:147-156 | an id ahead of another at every depth scores at least as much, and more if and only if it is strictly ahead at some depth, whatever the constant |
| RankFusion.AheadRanksBefore | services/distributed_coordinator.py:158-164 | an id ahead, strictly somewhere, is ranked before the other in every cut-off output that lists the other |
| RankFusion.PrecedesLeads | services/distributed_coordinator.py:151-156 | in a list that names no id twice, an id that comes first wherever the other comes at all leads it |
| RankFusion.TwiceBeatsFirst | services/distributed_coordinator.py:151-156 | with the constant 60 an id that comes first in the only list is ranked behind one the list then names twice |
| RankFusion.FuseRrfLoop | services/distributed_coordinator.py:147-164 | the loops compute the ranking by summed reciprocal ranks, first rows kept |
| Coordinator.PerShardK | services/distributed_coordinator.py:99 | each shard is asked for the larger of k and k times the oversampling |
| Coordinator.EndsInOrder | services/distributed_coordinator.py:107-114 | answers and failed names are collected in the order in which the shards end |
| Coordinator.GatherKeepsAll | services/distributed_coordinator.py:107-114 | with distinct shard names every healthy answer is kept, in order |
| Coordinator.GatherKeepsExactly | services/distributed_coordinator.py:107-114 | every healthy answer is kept if and only if shards sharing a name agree |
| Coordinator.LostAnswer | services/distributed_coordinator.py:107-114 | of two shards with one name and different answers only the second counts, and no shard counts as failed |
| Coordinator.SearchExact | services/distributed_coordinator.py:80-130 | the search is exact over the healthy shards' documents as long as shards sharing a name agree |
| Coordinator.AlwaysExactByName | services/distributed_coordinator.py:80-130 | the search by distance is exact whatever the healthy shards hold and exactly answer, for every k, if and only if no two healthy shards share a name |
| Coordinator.Search | services/distributed_coordinator.py:80-130 | no shards is an error; otherwise the rows of the chosen fusion of the gathered lists, with the constant 60, the failed names, and degraded exactly if one failed |
| Federated.RunLinked | services/federated_embedding.py:99-114 | in every run each pending delta is its batch's centroid minus the current global one |
| Federated.SubmitOutcome | services/federated_embedding.py:77-122 | a submission is refused exactly for empty or unequal lists and then without effect; otherwise centroid plus delta is the mean of the rows, and an update with them waits last |
| Federated.AggregateOutcome | services/federated_embedding.py:126-161 | a round is refused exactly without updates or samples; otherwise the total times the returned delta is the sum of the sampled deltas, the centroid moves by it and nothing stays pending |
| Federated.WeightedDeltaSums | services/federated_embedding.py:134-140 | the weighted deltas add up to how far all pooled rows lie from the global centroid |
| Federated.MovedCentroid | services/federated_embedding.py:134-145 | the old centroid plus the weighted delta is the mean of the pooled rows |
| Federated.AggregateIsPooledMean | services/federated_embedding.py:125-161 | in every run, aggregating the pending updates makes the global centroid the mean of all embeddings of the round, empties the queue, and the version's last number is the number of rounds |
| Federated.EveryBatchCountsExactly | services/federated_embedding.py:77-161 | in every run each accepted batch is in exactly one completed round or pending, in order, if and only if updates passed in, not empty and of a non-zero sample total, never met pending ones |
| Federated.RoundIsMean | services/federated_embedding.py:125-145 | each completed round over the pending updates made the global centroid the mean of the embeddings it pooled |
| Federated.ForgottenBatch | services/federated_embedding.py:128-153 | on a service with a centroid, a batch followed by a round over updates passed in leaves the state as if it had never been submitted |
| Federated.NextBatchCanBeLost | services/federated_embedding.py:128-153 | any run that has a centroid can lose the next batch it accepts that way |
| Federated.SumDeltas | services/federated_embedding.py:136-140 | the accumulation loop computes the weighted delta |
| Federated.FederatedEmbeddingService.ComputeGradientUpdate | services/federated_embedding.py:77-121 | the submission's outcome and new state, error cases included |
| Federated.FederatedEmbeddingService.AggregateUpdates | services/federated_embedding.py:125-161 | the aggregation's outcome and new state, error cases included |
| Ndcg.DiscountsGrow | services/ltr_trainer.py:266-270 | the first result counts in full, each later one less, and none after the tenth |
| Ndcg.Rearrangement | services/ltr_trainer.py:267-275 | no order of the grades gains more than the descending one, and only orders with the same first ten grades gain as much |
| Ndcg.DcgAtMostIdeal | services/ltr_trainer.py:265-275 | DCG is at most the ideal DCG, with equality if and only if the top ten grades are the ideal ones |
| Ndcg.NdcgBounds | services/ltr_trainer.py:265-276 | NDCG is at most 1, at least 0 for non-negative grades, and 1 exactly for an ideal top ten with positive gain |
| Ndcg.GradeSortedIsPerfect | services/ltr_trainer.py:265-276 | a ranking in descending grade order with positive ideal gain has NDCG 1 |
| Ndcg.RankedByScore | services/ltr_trainer.py:265 | the ranking is a permutation by descending score that keeps the order of ties |
| Ndcg.NdcgIs | services/ltr_trainer.py:265-276 | the value of a query is the quotient of the sums of (2^g - 1)/log2(i + 2) over the ten best-scored and the ten best grades, or 0 |
| Ndcg.ScoresFollowGrades | services/ltr_trainer.py:265-276 | if a better grade always has a better score and there is any ideal gain, the value is 1 |
| Ndcg.BestIsRelevant | services/ltr_trainer.py:278-283 | if the one best-scored result is relevant the reciprocal rank is 1 |
| Ndcg.ReciprocalRank | services/ltr_trainer.py:278-283 | the reciprocal of the first relevant rank among the first ten, or 0 if there is none |
| Ndcg.ReciprocalRankBounds | services/ltr_trainer.py:278-283 | it lies between 0 and 1 |
| Ndcg.Group | services/ltr_trainer.py:254-259 | the grouping loop keeps, per query, its scored pairs in order |
| Ndcg.OfQuerySplits | services/ltr_trainer.py:254-259 | the pairs of a query in a list are those in its parts, one after the other |
| Ndcg.QueriesOnce | services/ltr_trainer.py:254-264 | every query that occurs is evaluated once |
| Ndcg.EvaluateQuery | services/ltr_trainer.py:264-283 | one query's loops compute its NDCG and reciprocal rank |
| Ndcg.Evaluate | services/ltr_trainer.py:244-290 | the whole evaluation averages the queries' values |
| Ndcg.ReportBounds | services/ltr_trainer.py:285-290 | both reported averages stay within the same bounds |
| Ndcg.MeansCombine | services/ltr_trainer.py:285-290 | the mean of two lists together is that of each weighted by its length |
| CdcModel.BatchAt | services/cdc_connector.py:150-196 | after a batch whose embedding works an id is absent if the batch deleted it, else has its last upsert, else is untouched |
| CdcModel.BatchByCallbacks | services/cdc_connector.py:150-196 | the same with any callbacks missing, and nothing at all if the embedding raises |
| CdcModel.EventAlone | services/cdc_connector.py:65-196 | one event alone: a create or update ingests its new row under its id, with the embedding of its text and its mapped fields; a delete removes the id of the row it carries; the old row counts only without a new one |
| CdcModel.ChangedIdKeepsOld | services/cdc_connector.py:69-72 | an update that changes the id column leaves what was stored under the old id |
| CdcModel.PartsInOrder | services/cdc_connector.py:74-82 | text columns are read in order, missing and empty ones skipped |
| CdcModel.JoinedInWords | services/cdc_connector.py:82 | joined texts without spaces are the words of the result, in order |
| CdcModel.RegroupingExact | services/cdc_connector.py:155-196 | a batch equals in-order application if and only if no id is upserted after its last delete in the batch |
| CdcModel.AgreeAt | services/cdc_connector.py:155-196 | the same for each id on its own |
| CdcModel.ReplayAbsorbs | services/cdc_connector.py:150-196 | reprocessing a batch repairs a store whose touched ids were left in any state |
| CdcModel.ReplayIdempotent | services/cdc_connector.py:150-196 | processing a batch twice is processing it once |
| CdcModel.RunConserves | services/cdc_connector.py:219-233 | in every run the batches taken off the buffer and then the buffer are the enqueued events in order |
| CdcModel.BufferBounded | services/cdc_connector.py:219-233 | the buffer stays below the batch size, and batches hold between 1 and batch-size events |
| CdcModel.StopDrainsExactly | services/cdc_connector.py:248-254 | the one flush of stop always empties the buffer if and only if the batch size is at least 1 |
| CdcModel.StopCuts | services/cdc_connector.py:219-254 | the batches processed by the end of stop are the enqueued events cut after every batch-size of them and at every flush, whatever the callbacks do |
| CdcModel.StopInOrderAt | services/cdc_connector.py:150-254 | once stop has flushed, an id stands as if all enqueued events had been applied in order if and only if the last batch touching it neither recreates it nor was lost, deletes included, to a failing embedding when it would have changed the id |
| CdcModel.StopInOrderExactly | services/cdc_connector.py:150-254 | the whole store is that of in-order application if and only if that holds of every id |
| CdcModel.StopInOrderIfWorks | services/cdc_connector.py:150-254 | with embeddings that never fail an id stands as in order if and only if the last batch touching it does not recreate it |
| CdcConnector.CDCConnector.Split | services/cdc_connector.py:155-166 | the loop separates deletes from upserts with text |
| CdcConnector.CDCConnector.ProcessBatch | services/cdc_connector.py:150-196 | the batch with its loops and callbacks reaches the specified store |
| CdcConnector.CDCConnector.FlushBuffer | services/cdc_connector.py:219-225 | one flush takes one batch off the buffer |
| CdcConnector.CDCConnector.EnqueueEvent | services/cdc_connector.py:229-233 | an event is buffered, and a full buffer flushed once |
| Quorum.ChoiceIsLargestBacked | services/raft_coordinator.py:306-312 | the sorted-match rule picks the largest index that half the nodes, rounded up, hold |
| Quorum.UnanimousChoice | services/raft_coordinator.py:306-312 | an index everybody holds is chosen |
| Quorum.EvenSplit | services/raft_coordinator.py:310-312 | in any even cluster an index only half the nodes hold can be chosen |
| Quorum.CommitMajorityExactly | services/raft_coordinator.py:306-312 | in a cluster of n nodes the choice is always held by a strict majority if and only if n is odd |
| Quorum.QuorumsMeetExactly | services/raft_coordinator.py:256-312 | every committing set meets every electing set if and only if the number of nodes is odd |
| RaftModel.ElectionSafe | services/raft_coordinator.py:245-267 | an election keeps the node safe, takes nothing back, and always ends in leadership |
| RaftModel.StepDownExactly | services/raft_coordinator.py:67-71 | whatever operations allowed to it follow, the log's terms stay in order after a step down if and only if its term is at most one older than the log |
| RaftModel.StaleTermBreaksOrder | services/raft_coordinator.py:67-92 | after a step down to an older term, one election and one proposal put the log out of order |
| RaftModel.ProposeSafe | services/raft_coordinator.py:332-360 | a proposal keeps the node safe and takes nothing back |
| RaftModel.RunSafe | services/raft_coordinator.py:67-360 | in every run with step-downs to terms at most one older than the log, the log is append-only with ordered terms, applied equals committed and lies inside the log, and the applied commands are the committed prefix, each once and in order |
| RaftModel.ProposeCommits | services/raft_coordinator.py:346-360 | an accepted proposal returns with its own index committed and its command applied last |
| RaftModel.ProposeOutcome | services/raft_coordinator.py:332-367 | in every safe state a proposal is accepted if and only if the node leads, and is then in the log under the reply's index and term, committed and applied; refused, nothing changes and the known leader is named |
| RaftModel.RunStands | services/raft_coordinator.py:54-360 | after any operations the node has the role, term, vote and leader that elections and step downs alone determine, and its log is what it was proposed in office, all of it committed and applied |
| RaftModel.ProposeAnswers | services/raft_coordinator.py:332-367 | the reply to a proposal after any run |
| RaftModel.RefusalNamesLeader | services/raft_coordinator.py:67-71 | a refusal after a step down names the leader passed to it, as long as no election follows |
| RaftModel.RunCommitsAll | services/raft_coordinator.py:67-360 | in every run each operation leaves the whole log committed and applied |
| RaftModel.CommitsAreMajorityBacked | services/raft_coordinator.py:306-315 | in an odd cluster the commit index moves only to an index a strict majority holds |
| RaftModel.CommitsUnderwayExactly | services/raft_coordinator.py:292-354 | while a proposal is under way its entry is committed as soon as some peer has been served and half the nodes, rounded up, hold it, and not before |
| RaftModel.MajorityUnderwayExactly | services/raft_coordinator.py:292-354 | while a proposal is under way only a strict majority ever commits its entry if and only if the cluster is odd or has at most two nodes |
| RaftModel.EvenClusterCommitsByHalf | services/raft_coordinator.py:292-354 | in every run of an even cluster of four or more, a proposal is at some point applied with the entry on only half the nodes |
| RaftCoordinator.RaftState.BecomeLeader | services/raft_coordinator.py:80-85 | the loop sets the next index of every peer to the length of the log and its match index to -1 |
| RaftCoordinator.RaftCoordinator.StartElection | services/raft_coordinator.py:245-267 | the vote loop reaches the specified state |
| RaftCoordinator.RaftCoordinator.SendAppendEntries | services/raft_coordinator.py:292-304 | serving a peer reaches the specified state |
| RaftCoordinator.RaftCoordinator.AdvanceCommitIndex | services/raft_coordinator.py:306-315 | collecting and sorting the matches reaches the specified state |
| RaftCoordinator.RaftCoordinator.ApplyCommittedEntries | services/raft_coordinator.py:317-323 | the apply loop appends exactly the newly committed commands |
| RaftCoordinator.RaftCoordinator.Propose | services/raft_coordinator.py:332-367 | the proposal's reply and new state, for leaders and others |
| LabelPropagation.MostCommonExactly | services/gnn_service.py:559 | the winning label is the plurality label met first |
| LabelPropagation.VisitOutcome | services/gnn_service.py:553-563 | a node visited takes the plurality label of its labelled neighbours, the first met of several; nothing else changes |
| LabelPropagation.SweepInOrder | services/gnn_service.py:553 | each node visited sees what the ones before it have taken |
| LabelPropagation.FilterInOrder | services/gnn_service.py:531-540 | untagged nodes are visited in the order of the nodes |
| LabelPropagation.KnownInOrder | services/gnn_service.py:554-557 | the votes are the neighbours' labels in the neighbours' order |
| LabelPropagation.InferredFromSeeds | services/gnn_service.py:545-565 | seeds keep their labels, the updates are exactly the inferred labels, and each came from a seed along a path of untagged nodes |
| LabelPropagation.InferredReach | services/gnn_service.py:545-565 | only nodes joined to a seed are labelled, all within ten edges of one are, and a last pass without changes means a settled result |
| LabelPropagation.TenEdgesExactly | services/gnn_service.py:547-565 | on a path visited from its far end exactly the nodes up to ten edges from the seed are labelled |
| LabelPropagation.SettledExactly | services/gnn_service.py:551-565 | in a settled state exactly the nodes joined to a seed are labelled, and untagged nodes carry a plurality label of their neighbours |
| LabelPropagation.RelabelAgrees | services/gnn_service.py:553-563 | relabelling a node adds two agreeing edge ends per vote by which the new label leads the old |
| LabelPropagation.AgreementNeverFalls | services/gnn_service.py:551-565 | over every run the number of edges whose ends agree never falls |
| LabelPropagation.CountVotes | services/gnn_service.py:559 | the counting loop gives every label's count, in order of first occurrence |
| LabelPropagation.MostCommonLabel | services/gnn_service.py:559 | the maximum over the counter is the winning label |
| LabelPropagation.RunPass | services/gnn_service.py:552-563 | one in-place pass computes the specified labels, updates and number of changes |
| LabelPropagation.AutoTag | services/gnn_service.py:517-579 | the whole call reports the specified updates, and an error exactly for the empty graph |
| BatchPoolModel.TargetGrowsExactly | services/adaptive_batch_pool.py:187-197 | the target size lies between the configured sizes, and never shrinks as the queue deepens if and only if the minimum is at most the maximum |
| BatchPoolModel.TargetInterpolates | services/adaptive_batch_pool.py:194-197 | below the target depth the size is interpolated linearly and rounded toward zero; with the minimum above the maximum it is the minimum |
| BatchPoolModel.RoundSize | services/adaptive_batch_pool.py:185-197 | the size of a round follows from the length of the queue when it begins |
| BatchPoolModel.PutOutcome | services/adaptive_batch_pool.py:139-152 | a full queue refuses without effect; otherwise the request waits last with a pending future of its own |
| BatchPoolModel.StepFifo | services/adaptive_batch_pool.py:139-242 | every step keeps dispatched batches, the batch under collection and the queue together equal to the accepted requests, in order |
| BatchPoolModel.StepOutcomes | services/adaptive_batch_pool.py:220-242 | every step keeps each future's outcome that of its own position in its batch, or the batch's failure, or abandoned; undispatched ones are unanswered |
| BatchPoolModel.StepFinal | services/adaptive_batch_pool.py:232-238 | no step changes a future that is already settled |
| BatchPoolModel.StepStaffed | services/adaptive_batch_pool.py:223-224 | at most max_workers batches are handled at once |
| BatchPoolModel.StepBounded | services/adaptive_batch_pool.py:144-218 | the queue stays within its cap, batches hold at least one request, and at most max_batch if min_batch is no larger |
| BatchPoolModel.StepAverages | services/adaptive_batch_pool.py:244-256 | average size times batches is the requests served, average latency times batches is the time spent, and both are 0 before the first batch |
| BatchPoolModel.RunConserves | services/adaptive_batch_pool.py:139-256 | all of this holds in every interleaving |
| BatchPoolModel.RunFinal | services/adaptive_batch_pool.py:232-238 | a settled future keeps its outcome for the rest of every run |
| BatchPoolModel.ResultsDelivered | services/adaptive_batch_pool.py:225-242 | once a batch has finished each of its clients has its own result, the handler's exception, or the complaint about the number of results, unless it gave up |
| BatchPoolModel.HandsBounded | services/adaptive_batch_pool.py:223-224 | in every run at most max_workers batches are being handled |
| BatchPoolModel.CompletionCounts | services/adaptive_batch_pool.py:238-252 | what a finished batch adds to the counters |
| BatchPoolModel.QuiescentAnswered | services/adaptive_batch_pool.py:220-242 | with nothing queued or collected and every batch finished, every accepted request has its outcome |
| BatchPoolModel.CanAnswerAll | services/adaptive_batch_pool.py:172-242 | with a worker and sizes of at least one, a running pool can go on from any reachable state so that every accepted request is answered |
| BatchPoolModel.NoWorkersNoStart | services/adaptive_batch_pool.py:223-224 | without workers no batch is ever begun |
| BatchPoolModel.LatenciesLogged | services/adaptive_batch_pool.py:245-247 | the log keeps all latencies up to 10000 and then the last 5000 |
| BatchPoolModel.RunStranded | services/adaptive_batch_pool.py:122-183 | once stopping, no more requests leave the queue than the round under way has room for |
| BatchPoolModel.StopDrainsExactly | services/adaptive_batch_pool.py:122-183 | a stopping pool can drain its queue if and only if the queue fits in the round under way |
| BatchPoolModel.StopCanStrand | services/adaptive_batch_pool.py:122-183 | a reachable stopped pool that never empties its queue: a round for one open, two requests queued |
| BatchPoolModel.EndedAnswersNoMore | services/adaptive_batch_pool.py:122-135 | once the coordinator has ended, what it was holding and what is queued is never answered |
| BatchPoolModel.StoppedAnswersNoMore | services/adaptive_batch_pool.py:122-135 | once the pool is stopped and its coordinator cancelled, what was collected or queued is never answered |
| BatchPool.AdaptiveBatchPool.Put | services/adaptive_batch_pool.py:139-152 | a full queue refuses; otherwise a pending future is returned |
| BatchPool.AdaptiveBatchPool.BatchTarget | services/adaptive_batch_pool.py:187-197 | the branches compute the target size |
| BatchPool.AdaptiveBatchPool.CompleteBatch | services/adaptive_batch_pool.py:225-256 | the settling loops, on results, a wrong number of them or an exception, reach the specified state |
| PgWire.Int32RoundTrip | services/pgvector_compat.py:29-30 | a packed 32-bit integer is read back signed, and unsigned if not negative |
| PgWire.Int32Signed | services/pgvector_compat.py:29-30 | any four bytes are the packing of the signed integer they are read as |
| PgWire.NetworkOrder | services/pgvector_compat.py:29-30 | bytes go most significant first: packed non-negative numbers are ordered as the numbers are |
| PgWire.Int16RoundTrip | services/pgvector_compat.py:33-34 | a packed 16-bit integer is read back |
| PgWire.Int16IsLowHalf | services/pgvector_compat.py:33-34 | short integers have the byte order of long ones |
| PgWire.SplitStream | services/pgvector_compat.py:178-183 | any concatenation of messages is read back as those messages, followed by what the rest reads as |
| PgWire.SplitResumes | services/pgvector_compat.py:178-183 | however the bytes are cut up on arrival, the same messages are read |
| PgWire.TerminateStops | services/pgvector_compat.py:188-189 | nothing after a Terminate message is read |
| PgWire.ReadExactly | services/pgvector_compat.py:180-183 | a message read is the one whose bytes came in if and only if its length word is at least four, and one that could have been packed if and only if the word is below 2^31 |
| PgMessages.ReadTextExactly | services/pgvector_compat.py:37-38 | reading a text gives it back if and only if it is NUL-free and was terminated |
| PgMessages.DecodeRowExactly | services/pgvector_compat.py:80-90 | a body decodes to a row if and only if it is the body built for that row, so NULL and the empty text stay apart |
| PgMessages.DataRowReadsBack | services/pgvector_compat.py:80-90 | what is sent for a row is framed, read and decoded back to that row |
| PgMessages.BuildDataRow | services/pgvector_compat.py:80-90 | the loop builds the message, or fails when a count or length does not fit |
| PgMessages.DescriptionExactly | services/pgvector_compat.py:65-77 | a description decodes to its columns if and only if no name holds a NUL byte |
| PgMessages.BuildRowDescription | services/pgvector_compat.py:65-77 | the loop builds the message, or fails when it does not fit |
| PgMessages.ErrorExactly | services/pgvector_compat.py:52-57 | an error response decodes to its severity and text if and only if the text is NUL-free |
| PgMessages.StatusExactly | services/pgvector_compat.py:93-95 | a parameter status decodes to its name and value if and only if both are NUL-free |
| PgMessages.CompleteExactly | services/pgvector_compat.py:60-62 | a completion is read back whole, and carries its tag if and only if the tag is NUL-free |
| PgMessages.ErrorOnWire | services/pgvector_compat.py:52-57 | the bytes of an error response, and when it can be packed |
| PgMessages.CompletionOnWire | services/pgvector_compat.py:60-62 | the bytes of a completion, and when it can be packed |
| PgMessages.StatusOnWire | services/pgvector_compat.py:93-95 | the bytes of a parameter status, and when it can be packed |
| PgMessages.RowOnWire | services/pgvector_compat.py:80-90 | the letter and length before a row, and when it can be packed |
| PgMessages.DescriptionOnWire | services/pgvector_compat.py:65-77 | the letter and length before a description, and when it can be packed |
| PgMessages.FixedOnWire | services/pgvector_compat.py:41-49 | the bytes of the authentication and readiness messages |
| PgServer.GreetingReadsBack | services/pgvector_compat.py:147-152 | what is sent after startup reads back as two settings, the authentication and the readiness message |
| PgServer.QueryArrives | services/pgvector_compat.py:185-186 | a NUL-ended query arrives as sent if and only if it does not itself end in NUL |
| PgServer.StripsAll | services/pgvector_compat.py:186 | all NUL bytes at the end of a query go, and nothing else |
| PgServer.AnsweredInOrder | services/pgvector_compat.py:178-203 | every message is answered in order, a query by the answer to its text and anything else by an error, each closed by exactly one ReadyForQuery |
| PgServer.ClientReadsAnswers | services/pgvector_compat.py:178-203 | from the bytes of the client's messages to the messages it reads back: one round per message |
| PgServer.ClientHandler.ReadMessage | services/pgvector_compat.py:180-183 | the three reads take exactly one message off the stream |
| PgServer.ClientHandler.QueryLoop | services/pgvector_compat.py:178-195 | the loop sends exactly the rounds of the messages read |
| TokenBucket.StepSoundExactly | services/query_scheduler.py:24-33 | a step keeps the credits between 0 and the burst if and only if it does not buy at a price so negative that they overflow |
| TokenBucket.RunSound | services/query_scheduler.py:24-33 | with non-negative costs the credits stay in that range in every run |
| TokenBucket.SpentAndLeft | services/query_scheduler.py:24-33 | what is granted and what is left never exceed what there was and what the refills were worth |
| TokenBucket.WindowBound | services/query_scheduler.py:24-33 | in any window with m refills the cost granted is at most the burst and m tenths of a second's credits |
| TokenBucket.AllowanceExactly | services/query_scheduler.py:24-33 | the allowance is exactly the most any run with m refills can be granted |
| TokenBucket.TenRefills | services/query_scheduler.py:31-33 | ten refills make up for one second's credits, up to the burst |
| TokenBucket.TenantsIsolated | services/query_scheduler.py:56-113 | however calls interleave, each tenant's credits depend on its own calls and the refills alone |
| TokenBucket.GrantedIsSpent | services/query_scheduler.py:24-113 | however calls interleave, what a tenant is granted is what its own bucket spends |
| TokenBucket.TenantWindowBound | services/query_scheduler.py:24-113 | however calls interleave, what a tenant is granted in a stretch with m of its refills is at most its burst and m tenths of a second's credits, and nothing while it is unregistered |
| TokenBucket.StuckForever | services/query_scheduler.py:59-75 | once the holder of the lock waits for it, no thread ever takes it again and every call that needs it stays where it is |
| TokenBucket.NeverStuckExactly | services/query_scheduler.py:69-75 | no interleaving of concurrent calls gets there if and only if every tenant scheduled for was registered before |
| TokenBucket.SticksExactly | services/query_scheduler.py:69-75 | calls made one after the other get there if and only if one of them schedules for a tenant neither registered at the start nor by an earlier call |
| TokenBucket.CallsInTurn | services/query_scheduler.py:47-113 | otherwise each call made in turn has exactly its effect: tenants registered once with full credits, granted costs taken, a tenth of a second's credits added up to the burst |
| TokenBucket.TenantCreditPool.ConsumeCredits | services/query_scheduler.py:24-29 | granted exactly if the credits cover the cost, which is then taken from them |
| TokenBucket.TenantCreditPool.RefillCredits | services/query_scheduler.py:31-33 | a tenth of a second's credits are added, up to the burst |

## Left out

- Vector clocks, conflict reports and their resolution in the sync service; they rest on `utils/vector_clock.py`.
- The aliasing of a replica's live counter inside a delta: deltas are snapshots, as they are once serialised.
- Storage and network failures in the cache, and None as a cached value (the source cannot tell it from a miss).
- Two keys with the same md5 digest: the disk and the cold tier are keyed by the key itself.
- The shards' own searches and their timeouts: each response is an input, in completion order.
- The per-class means of a federated update, and shape mismatches that numpy would broadcast or reject.
- The version string's formatting: the version is the list of its numbers.
- Ndcg.NdcgBounds: powers and logarithms are parameters, required only to be increasing with 2^0 = 1 and log2(2) = 1.
- Feature scaling, model scores and training; the preference pairs of pairwise training, which follow directly from comparing labels.
- CDC offsets, timers and the consumer thread; exceptions of single ingest or delete callbacks; connectors with no embedding callback set.
- CdcModel.RegroupingExact: stated for batches whose texts are embedded each on its own, with all callbacks set; ingest and delete callbacks succeed.
- Raft messages between nodes: votes and replication are simulated successes in the source, so nothing is claimed about elections across nodes.
- RaftModel.RunSafe: step-downs are to a term at most one older than the log, which every term no lower than the current one is; `StepDownExactly` says what happens otherwise.
- The apply callback of the Raft coordinator, heartbeats' timing and the cluster registry.
- The construction of the neighbour graph, and labels that are None; link prediction, temporal clustering and graph convolution.
- Restarting a stopped batch pool, and the event loop itself: each method is a stretch of code that runs without yielding. A timed-out wait takes nothing from the queue.
- The latency percentiles of the pool's statistics.
- SQL parsing and the queries' answers on the wire: an answer is a function of the query text. The startup message and TLS are not read.
- Text is its UTF-8 bytes; encoding and decoding errors are not modelled.
- Futures and worker threads of the query scheduler; only the credits and the lock are modelled. The refills of all listed tenants are one step.
- Federated.EveryBatchCountsExactly: updates passed in count as the caller's own, even if they repeat pending ones.
- HNSW and IVF indexes, write-ahead-log replay, BM25, query planning, HTTP and GraphQL layers, billing, audit and ingestion: they are I/O, or rest on modules outside the service layer.
