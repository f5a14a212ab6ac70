# Verified models of Hermem's core algorithms and protocols

Hermem is a graph memory: entities and edges in SQLite tables, a vector index beside them, and services that
ingest, walk, rank, cluster, merge, expire and re-embed what is stored. This project models the cores of those
services in Dafny and proves what each of them is for. `dafny verify dfyconfig.toml` checks everything.

How the parts fit together:

- **Walking.** `GraphWalk` takes the recursive query as an enumeration of simple paths, with the delimited
  "visited" string and the substring test written out, and the row loop as a method. Together they are shown to be
  breadth-first search, with or without a cap on the number of nodes.
- **Two stores.** `Stores` has the tables and the index; `Ingestion`, `Sweeps`, `Reembed` and `Consolidation` are
  the writers. A transaction is one atomic step on the tables and the index calls follow it. The property they
  share is *coverage*: every live row with an embedding is in the index under the same vector. `Runs` puts
  the writers together: a run of any of them, in any order and with any failing calls, keeps coverage at every step
  exactly if none of its operations breaks it. `Overlap` lets them overlap: commits and single index calls interleave
  in any way (`CallOrder` has what only depends on the order of the calls). Operations on different IDs end exactly as
  one after another, and in general every overlap is harmless if and only if all operations that concern a row leave
  it the same.
- **Consolidation.** `Clustering` is the union-find with path compression on an array; its groups are the connected
  components. `Consolidation` cuts them into chunks and follows the archive-and-synthesise transactions over any
  number of passes.
- **Concurrent protocols.** `ResilientLoop`, `Checkpoint`, `StmtCache` and `ServerState` are step machines whose
  theorems hold in every interleaving. The statement cache and the configuration reference are also classes; their
  methods are proved against the functions that the step machines take their steps from, and an uninterrupted
  Store is shown to be the machine's three steps.
- **Ranking and answering.** `StableSort`, `Ranking`, `Rerank`, `TokenBudget` and `Pipeline` follow a result from the
  scored nodes to the trimmed answer; `MultiHop` follows the seed set through the vector jumps.
- **Arithmetic and codecs.** `RateLimiter`, `Crockford`, `Ndcg`, `GreedyCluster`.

Where the program does not do what it says, the model follows the code and the difference is a theorem:

- The substring test of the walk can take an entity for visited that was not. For a given set of entity IDs the walk is
  breadth-first search, in every graph over them and for every query, if and only if no ID is mistaken in this way on
  a simple path (`GraphWalk.WalkIsBreadthFirstSearchIff`). IDs without the character 31 never are; among such entities
  an ID is mistaken exactly if it has that character inside and its parts differ (`GraphWalk.DelimiterInIdDefeatsTest`).
  A visited entity is always recognised, so paths are always simple.
- Two pairs of IDs share an edge key exactly if one of the IDs contains `->` (`Clustering.KeyIsSharedIffArrow`). The
  clusters are those of the edge rows and similarities, for every table of edges, if and only if whichever row has
  the key of two entities connects them anyway (`Clustering.ClustersFollowRowsIff`). That is so where no third pair has
  their key; an arrow alone, as in "x" and "x->x", does no harm (`Clustering.ArrowCanBeHarmless`).
- An ingest with working index calls loses coverage exactly in two cases: a merge removes the item's own ID from
  the index although a searchable row has that ID, or an existing row with the empty ID is preferred over, which
  removes its vector but, since the empty ID also means "nothing to archive", does not archive it. Calls that
  fail without notice add the cases of `Ingestion.Uncovers`.
- A consolidation loses coverage exactly if its vector was not stored, or the archiving UPDATE failed unnoticed and the
  sources' vectors were deleted all the same (`Consolidation.UnnoticedFailureUncovers`). Its edge inserts are not
  checked either: archived sources can be traced to a live row exactly if no chunk lost an edge. And a further chunk can
  consolidate a source a second time exactly if some archiving UPDATE has failed (`Consolidation.SourcesReturnIff`).
- A call that is about to query can hold a statement that another call has closed: one that shares it and whose query
  failed, or one that found the cache full. With at most 32 keys in use and no failed query on its key this cannot happen
  (`StmtCache.ReadyIsOpen`), and both limits matter (`StmtCache.FailureClosesSharedStmt`, `StmtCache.StmtsStayOpenIff`).
- The hops of the multi-hop search are said to follow the ranking. They do in an explained retrieval; in any other every
  bucket fact has the score 0, and the alphabet decides (`MultiHop.HopChoiceAmongFacts`). The comment that a fact and
  its seed carry the same score (src/internal/retrieval/walk.go:527-534) holds for explained retrievals only.
- Two ingests that overlap can make their index calls in the other order than their commits. `Overlap.TwoMergesCollide`
  has two items that the program matches with one row and merges into it, after which the index keeps the older vector.
- The per-message checkpoint never goes back exactly if messages are processed one at a time
  (`ResilientLoop.CheckpointNeverFallsIff`); the final one is exact in any case.
- While two Stores of the configuration are under way, whatever they have done so far, the visible generation can go
  back; storing a State again changes the generation that any reader has captured on it
  (`ServerState.OverlapCanGoBack`, `ServerState.StoringTwiceBreaksSnapshots`).
- Rankings score at most 1 under every discount exactly if no query has more hits than its ideal ranking counts
  (`Ndcg.ScoresAreBoundedIffHitsFit`); a relevant document ranked twice can break that.
- The comment at the reranking stage says that every field round-trips. `Rerank.CandidateRoundTrip` shows which
  do: the explanation of a fact (three scalars and the breakdown) is lost, everything else is kept.
- The log line after a failed rerank says that the results from before are returned. `Rerank.ApplyReranker` shows
  that the buckets before the failing one stay reranked.

## Model

| member | source | states |
|---|---|---|
| GraphWalk.WalkIsBreadthFirstSearch | src/internal/retrieval/expand.go:56-111 | for IDs that cannot be mistaken for visited, in particular those without char(31), the rows kept without a cap are exactly the live entities within the depth bound of a live seed in the time window, each once, each with its shortest hop distance |
| GraphWalk.WalkIsBreadthFirstSearchIff | src/internal/retrieval/expand.go:56-111 | for a set of entity IDs: every answer of every query on every graph over them is such a breadth-first search, if and only if on no simple path of them the test takes an ID for visited that is not |
| GraphWalk.WalkFindsAllIff | src/internal/retrieval/expand.go:56-68 | for a set of entity IDs: the recursion has a row for everything within the depth bound, in every graph over them and for every query, under exactly the same condition |
| GraphWalk.AnswerExists | src/internal/retrieval/expand.go:56-84 | every query on every graph has an answer: the rounds end at the depth bound and their rows can be put in the promised order |
| GraphWalk.MistakenIsMissed | src/internal/retrieval/expand.go:56-111 | for every simple path and every ID mistaken for visited on it, the line graph along both has the ID within reach of the seed and no row for it, under any depth bound that reaches it |
| GraphWalk.KeptRowsFormForest | src/internal/retrieval/expand.go:56-111 | for IDs that cannot be mistaken, with or without a cap: at most that many rows, and all that are in reach if they are fewer or there is no positive cap, the rows stand in order of depth and then category, every nearer entity of a kept row is kept, seeds are roots, and every other row's parent is a kept neighbour one hop nearer |
| GraphWalk.NearerIsKept | src/internal/retrieval/expand.go:101-105 | for IDs that cannot be mistaken, under a cap, an entity nearer than some kept row is kept, at its distance |
| GraphWalk.KeptDepthIsDistance | src/internal/retrieval/expand.go:69-111 | for IDs that cannot be mistaken, the depth of a kept row is the shortest distance of its entity from the seeds |
| GraphWalk.KeptParentDistance | src/internal/retrieval/expand.go:57-69 | for IDs that cannot be mistaken, the parent of a kept row is adjacent and exactly one hop nearer; a row at depth 0 is a seed |
| GraphWalk.LayerHasRow | src/internal/retrieval/expand.go:56-68 | although only simple paths are enumerated, every entity at distance k within the bound has a row of depth k, with a simple path within the ball, if IDs cannot be mistaken |
| GraphWalk.RowIsReachable | src/internal/retrieval/expand.go:56-68 | a row of round k stands for a live entity within k hops, next to its parent, whatever characters IDs hold |
| GraphWalk.RowFollowsSimplePath | src/internal/retrieval/expand.go:56-68 | a row stands for a simple path of live entities from a seed and carries its total weight (1 for a missing one), last relation, parent and visited list |
| GraphWalk.VisitedTestIsMembership | src/internal/retrieval/expand.go:57-62 | for IDs without char(31) the substring test is membership in the path |
| GraphWalk.VisitedIsFound | src/internal/retrieval/expand.go:57-62 | a visited entity is recognised whatever characters IDs hold |
| GraphWalk.CleanIdsAreUnmistakable | src/internal/retrieval/expand.go:57-62 | no ID without char(31) is mistaken for visited on a path of such IDs |
| GraphWalk.DelimiterInIdDefeatsTest | src/internal/retrieval/expand.go:57-62 | on some simple path of delimiter-free entities the test reports an ID that is not on it, if and only if the ID has char(31) inside and the parts between delimiters are pairwise different |
| GraphWalk.PartsStandInPath | src/internal/retrieval/expand.go:57-62 | where the test succeeds on delimiter-free entities, the parts of the ID between delimiters stand side by side in the path |
| GraphWalk.DelimiterMakesWalkMiss | src/internal/retrieval/expand.go:56-111 | for every ID with char(31) inside and pairwise different parts: a graph over the parts and the ID, a query, and an answer of it in which the ID is missing although it is within reach |
| GraphWalk.WalkCanMiss | src/internal/retrieval/expand.go:56-111 | so any two different names and the ID that has char(31) between them, under every depth bound of at least 2 |
| GraphWalk.ExpandGraph | src/internal/retrieval/expand.go:86-115 | the row loop returns the first row of every entity in row order, cut at the cap if it is positive |
| GraphWalk.BranchesReachNeighbours | src/internal/retrieval/expand.go:63-68 | the outgoing and the incoming branch together reach exactly the entities an edge connects, in whichever direction |
| GraphWalk.BallIsReachability | src/internal/retrieval/expand.go:56-68 | the textbook search used as reference is reachability by walks from a seed in the time window, over entities that are not archived, along edges in either direction |
| Clustering.ClusterEntitiesWithEdges | src/internal/consolidation/service.go:284-333 | the clusters are exactly the connected components of size at least 2, pairwise disjoint, largest first |
| Clustering.ClassesAreComponents | src/internal/consolidation/service.go:306-318 | once all pairs are processed two entities have one root if and only if a chain of redundant pairs connects them |
| Clustering.Find | src/internal/consolidation/service.go:293-299 | recursive find terminates, returns the root, and its compression changes no element's class |
| Clustering.Union | src/internal/consolidation/service.go:300-305 | union joins exactly the two classes |
| Clustering.CompressionKeepsForest | src/internal/consolidation/service.go:294-298 | pointing a node at its root keeps the forest and all labels |
| Clustering.LinkKeepsForest | src/internal/consolidation/service.go:300-305 | putting one root below another gives a forest with the two classes merged |
| Clustering.RootsAreDetermined | src/internal/consolidation/service.go:289-299 | the parent array alone determines every element's class |
| Clustering.LinkPairs | src/internal/consolidation/service.go:306-318 | after all pairs, classes are connected and every redundant pair shares one |
| Clustering.GroupByRoot | src/internal/consolidation/service.go:319-323 | the groups list the indices of each root in order |
| Clustering.LargeGroups | src/internal/consolidation/service.go:324-331 | the groups of two and more, each once, sorted by falling size, in whatever order the map is visited |
| Clustering.LoadEdgeSet | src/internal/consolidation/service.go:179-194 | the key set holds both directions of every edge row and nothing else |
| Clustering.EdgeTestIsAdjacencyIff | src/internal/consolidation/service.go:179-194 | the key test of a pair means an edge row between the two, either way, in every table, if and only if no pair but the reverse one has the same key |
| Clustering.EdgeTestIsAdjacency | src/internal/consolidation/service.go:179-194 | under that condition on two IDs the key test is true exactly if an edge row joins them, whatever other IDs hold |
| Clustering.EdgeKeyIsInjective | src/internal/consolidation/service.go:189-190 | the key of a pair of IDs without an arrow is the key of no other pair |
| Clustering.KeyIsSharedIffArrow | src/internal/consolidation/service.go:189-190 | the key of a pair is the key of another pair if and only if one of its IDs contains the arrow |
| Clustering.LinksAreRowsIff | src/internal/consolidation/service.go:306-318 | for a list of entities: the pairs joined are those of rows and similarities, in every table, if and only if no pair that is not similar shares its key with a third pair |
| Clustering.ClustersFollowRowsIff | src/internal/consolidation/service.go:284-333 | for a list of entities: what is connected is what rows and similarities connect, in every table, if and only if whichever row has the key of two entities connects them together with the similarities |
| Clustering.OwnKeysAreHarmless | src/internal/consolidation/service.go:306-318 | if no third pair has the key of two entities that are not similar, the clusters follow the rows |
| Clustering.ArrowFreeKeysAreOwn | src/internal/consolidation/service.go:179-194 | entities without an arrow in their IDs share no keys |
| Clustering.ArrowInIdConfusesKeys | src/internal/consolidation/service.go:189-190 | an arrow can be read as part of either ID: for all texts the two readings are different pairs with one key |
| Clustering.ArrowJoinsStrangers | src/internal/consolidation/service.go:306-318 | whenever a third pair, not the reverse one, has the key of two entities, an edge row of that pair makes them a cluster although no chain of edge rows and similarities connects them |
| Clustering.ArrowClustersWrongPair | src/internal/consolidation/service.go:306-318 | an edge from a to b->c makes a->b and c a cluster |
| Clustering.ArrowCanBeHarmless | src/internal/consolidation/service.go:179-194 | x and x->x contain an arrow and share their key with the reverse pair only |
| Clustering.ComponentsAreRowComponents | src/internal/consolidation/service.go:284-333 | under the condition of ClustersFollowRowsIff, the components of the key test are those of: an edge row joins the two, either way, or both are embedded and similar |
| Runs.RunKeepsCoverage | src/internal/ingestion/dialog.go:194-268 | operations of all writers one after another, in any order, decided on rows of any age and with any failing index calls, keep coverage at every step if and only if none of them breaks it |
| Runs.StepKeepsCoverage | src/internal/ingestion/dialog.go:194-268 | one committed operation of any writer, with any failing index calls, keeps coverage if and only if it is none of the breaking cases of its writer |
| Overlap.OverlapIsSafeIff | src/internal/ingestion/dialog.go:232-236 | operations that keep coverage one after another keep it in every interleaving of their commits and index calls if and only if, on every row searchable in the end, all operations that concern it leave what the last of them leaves |
| Overlap.OverlapKeepsCoverageIff | src/internal/ingestion/dialog.go:232-236 | a given interleaving, once all calls are made, has kept coverage if and only if on every searchable row the last call is in effect that of the run without overlaps |
| Overlap.ApartIsSequential | src/internal/ingestion/dialog.go:194-237 | if operations overlap only with operations on other IDs, both stores end as if they had not overlapped |
| Overlap.CommitOrderIsSequential | src/internal/ingestion/dialog.go:159-172 | if the calls on every ID come in commit order, both stores end as if the operations had not overlapped |
| Overlap.ApartKeepsCoverage | src/internal/ingestion/dialog.go:194-237 | overlapping operations on different IDs keep coverage if none breaks it when its turn comes |
| Overlap.OperationIsCommitThenCalls | src/internal/ingestion/dialog.go:232-236 | every operation is its commit followed by its working index calls |
| CallOrder.CallsAreConserved | src/internal/ingestion/dialog.go:159-172 | in every interleaving, on every ID the calls made and the calls pending are together all calls issued |
| CallOrder.LastCallDecides | src/internal/ingestion/dialog.go:159-172 | what the index has for an ID is what the last call that concerns it leaves, or what was there before |
| CallOrder.FinishedFromOne | src/internal/ingestion/dialog.go:159-172 | however calls interleave, an ID ends with what one of the operations left on it, as its own last call |
| CallOrder.ApartIsInOrder | src/internal/ingestion/dialog.go:159-172 | if operations overlap only with operations on other IDs, the calls on every ID are made in the order of the commits |
| Overlap.DisagreementUncovers | src/internal/ingestion/dialog.go:232-236 | an operation that leaves a searchable row something else than the last one does has an interleaving after which the row is not covered |
| Overlap.LateIndexCallsUncover | src/internal/ingestion/dialog.go:217-236 | two ingests into one row with different vectors, each harmless alone, have an interleaving that leaves the older vector |
| Overlap.TwoMergesCollide | src/internal/ingestion/dialog.go:194-236 | two concrete items that are matched with one row and merged into it, both decided before either commits, and the interleaving after which coverage is lost |
| Ingestion.IngestKeepsCoverage | src/internal/ingestion/dialog.go:194-268 | a committed ingest, whatever rows it decided on and whichever index calls fail, keeps coverage if and only if it does not uncover |
| Ingestion.PlanKeepsCoverage | src/internal/ingestion/dialog.go:232-268 | a commit keeps coverage if and only if no searchable row loses its vector without being archived, and the target's vector is stored, was there already, or is not needed |
| Ingestion.AdditionKeepsCoverage | src/internal/ingestion/dialog.go:203-230 | with working index calls, new and keep-both always keep coverage |
| Ingestion.PreferenceKeepsCoverage | src/internal/ingestion/dialog.go:211-213 | with working index calls, prefer-incoming keeps coverage if and only if the existing ID is not the empty ID of another searchable row |
| Ingestion.MergeKeepsCoverage | src/internal/ingestion/dialog.go:217-227 | with working index calls, a merge keeps coverage if and only if the item's own ID is no other searchable row |
| Ingestion.EmptyIdIsNotArchived | src/internal/ingestion/dialog.go:255-259 | an ingest through the match and the default resolver after which a live row is missing from the index |
| Ingestion.ProcessOneItemOnce | src/internal/ingestion/dialog.go:194-237 | an attempt either leaves both stores as they were or commits the planned outcome and makes its index calls; the outcome is that of IngestHasOutcome; without faults it succeeds if and only if the merge embeds and all edges are accepted |
| Ingestion.IngestHasOutcome | src/internal/ingestion/dialog.go:202-230 | a new item, one kept beside its contradiction and one preferred have a row with their own category, content and embedding and all their edges; beside a contradiction there is the contradicts edge and the old row stays as it was; a preferred item's rival is archived unless its ID is empty; a merged row holds both texts and the vector of the whole; no other row changes |
| Ingestion.MatchIsNearestOther | src/internal/ingestion/dialog.go:270-317 | the match is the first hit, or the second if the first is the item itself, if it exists and is near enough |
| Ingestion.OnlyMergesCanFail | src/internal/ingestion/contradiction_handler.go:50-59 | a decision fails if and only if two texts are to be merged and the merged text cannot be embedded |
| Ingestion.EdgesAreAcceptedIff | src/internal/ingestion/worker.go:122-147 | the edges of an ingest are accepted if and only if every relation is allowed and every target exists or is the row itself, the contradicts edge included |
| Ingestion.ProcessOneItem | src/internal/ingestion/dialog.go:122-144 | up to five attempts while the database is busy; however many fail, the item is applied once or not at all |
| Ingestion.ExecuteItemTx | src/internal/ingestion/dialog.go:244-268 | all or nothing: the row, the archiving and all edges, or no change |
| Ingestion.CreateEdgesInTx | src/internal/ingestion/worker.go:122-147 | inserting in chunks of 166 adds exactly the edges of all relations, or fails if and only if one is refused |
| Ingestion.InsertChunk | src/internal/ingestion/worker.go:132-144 | a chunk is refused if and only if some relation is unknown or breaks a foreign key |
| Stores.MemoryStore.ApplyIndexOps | src/internal/ingestion/dialog.go:159-172 | the index calls in order, failed ones skipped |
| Sweeps.RunOnce | src/internal/retention/service.go:100-188 | a sweep archives a whole batch of eligible rows within the limit, all of them if they fit, and then deletes their vectors; any failure changes neither store; the confidence sweep is the same method under its own policy |
| Sweeps.SelectIds | src/internal/retention/confidence_lifecycle.go:88-140 | the batch has no duplicates, only eligible rows, at most the limit, and all of them if fewer are eligible |
| Sweeps.StaleSweepSpares | src/internal/retention/service.go:100-140 | the stale sweep spares exactly rows that are archived, no observations, or not older than the cutoff |
| Sweeps.ConfidenceSweepSpares | src/internal/retention/confidence_lifecycle.go:88-140 | the confidence sweep spares exactly rows that are archived, not older than the cutoff, of unknown confidence, or of one not below the threshold, 0.7 by default |
| Sweeps.SweepKeepsCoverage | src/internal/retention/service.go:144-188 | a sweep keeps coverage whichever rows it takes and whether or not the deletion works, and no swept row stays live |
| Sweeps.SweepTouchesItsRowsOnly | src/internal/retention/service.go:144-188 | a sweep changes nothing but the archived flag of its rows and the vectors it deletes |
| Sweeps.SweepShrinksEligible | src/internal/retention/confidence_lifecycle.go:140-176 | what remains eligible is exactly what was not taken |
| Reembed.ReEmbedAll | src/internal/reembed/service.go:84-121 | whatever the batch size, the stores end as if each row with content had been re-embedded on its own, and the counters account for every row and batch |
| Reembed.ProcessBatch | src/internal/reembed/service.go:125-150 | a batch re-embeds its items in order; successes and failures add up to its length |
| Reembed.ReEmbedKeepsCoverage | src/internal/reembed/service.go:139-147 | re-embedding a row keeps coverage if and only if not its index call failed for a live row whose new vector the index did not have |
| Reembed.ReEmbedAllKeepsCoverage | src/internal/reembed/service.go:125-150 | a whole run with working index calls keeps coverage, failed embeddings and updates included |
| Reembed.AppendWork | src/internal/reembed/service.go:101-116 | cutting the work into batches changes neither the stores nor the count of successes |
| Reembed.LastDoneDecides | src/internal/reembed/service.go:125-150 | the last item of a row that embeds to the right length and is written leaves its vector in the row and in the index and changes nothing else of the row |
| Reembed.OthersStay | src/internal/reembed/service.go:125-150 | a row none of whose items gets that far stays as it was in both stores |
| Reembed.NonEmptyHolds | src/internal/reembed/service.go:95-104 | what is sent to the embedder is what has content |
| Consolidation.RunOnce | src/internal/consolidation/service.go:94-154 | a pass tries exactly the chunks of all connected components in turn, each on rows still live and untouched; with harmless keys these are the components of the edge rows and similarities; only observations and facts are archived; archived is at most the number of clustered entities, which is at most the candidates |
| Consolidation.ComponentsByRows | src/internal/consolidation/service.go:119-126 | with harmless keys, all components of the key test are all components of the edge rows and similarities |
| Consolidation.SynthesizeChunk | src/internal/consolidation/service.go:196-272 | a chunk is committed if and only if there is a draft, no call of its transaction fails and the ID is new; then the synthesis has the draft's content, an allowed category and the embedding, and search finds it if its vector was written; its sources are archived, linked and out of the index; nothing else changes |
| Consolidation.ChunkIsConsolidated | src/internal/consolidation/service.go:230-271 | the same of the function that histories are made of, call by call that can fail unnoticed |
| Consolidation.SynthesesRemain | src/internal/consolidation/service.go:235-268 | over any number of passes every synthesis stays as drafted; until it is consolidated in turn it is live, and search finds it if its vector was written |
| Consolidation.ConsolidateCluster | src/internal/consolidation/service.go:128-152 | the members of a cluster are tried chunk by chunk, a last chunk of one skipped |
| Consolidation.ChunksCoverMembers | src/internal/consolidation/service.go:129-137 | the chunks have 2 to ClusterSize members, all but the last exactly ClusterSize, and are, put together, the cluster, but for a last member that would stand alone |
| Consolidation.ClustersFit | src/internal/consolidation/service.go:120-122 | the sizes of disjoint clusters add up to the number of entities they hold, at most the candidates |
| Consolidation.CommitKeepsCoverage | src/internal/consolidation/service.go:230-271 | a committed chunk, whatever became of its sources meanwhile, keeps coverage if and only if its vector was stored or not needed, and not the archiving failed unnoticed while the vectors of searchable sources were deleted |
| Consolidation.UnnoticedFailureUncovers | src/internal/consolidation/service.go:253-268 | two searchable rows that a chunk with a failed UPDATE leaves live and without vectors |
| Consolidation.SourcesReturnIff | src/internal/consolidation/service.go:247-257 | after any history of distinct sources, a further chunk can repeat a source if and only if the archiving UPDATE of some chunk failed |
| Consolidation.UnarchivedSourcesReturn | src/internal/consolidation/service.go:253-257 | after a failed UPDATE of any chunk, its sources can be consolidated a second time |
| Consolidation.UnarchivedSourceStaysLive | src/internal/consolidation/service.go:253-257 | a source whose UPDATE failed stays live, whatever other chunks are committed later |
| Consolidation.PassesAreOneHistory | src/internal/consolidation/service.go:76-154 | any number of passes is one valid history of committed chunks |
| Consolidation.HistoriesCompose | src/internal/consolidation/service.go:76-154 | a history continued by another is a history with the combined effect |
| Consolidation.SourcesAreArchivedOnce | src/internal/consolidation/service.go:247-257 | over any number of passes no source is archived twice and no row loses its content or vector |
| Consolidation.LiveRowsAreTraded | src/internal/consolidation/service.go:141-149 | live rows plus archived sources equal the initial live rows plus syntheses, so there are fewer syntheses than initial live rows |
| Consolidation.ProvenanceIsKeptIff | src/internal/consolidation/service.go:243-253 | over any number of passes with effective archiving, every archived source is reached from a live row by a chain of extracted_from edges if and only if no committed chunk lost an edge |
| Consolidation.LostEdgeCutsProvenance | src/internal/consolidation/service.go:243-246 | a source whose edge insert failed has no chain of extracted_from edges, whatever is consolidated later |
| Consolidation.SourcesKeepProvenance | src/internal/consolidation/service.go:243-253 | without lost edges the chain from an archived source up to a live row, whatever edges there were before |
| Consolidation.HistoryKeepsCoverage | src/internal/consolidation/service.go:230-271 | any history whose statements and vector writes took effect keeps coverage |
| ResilientLoop.EveryMessageHasOneOutcome | src/internal/ingestion/dialog.go:386-479 | in every interleaving, when the loop has returned each received message has exactly one of four outcomes; at most one is dropped, right before the drained ones, which are saved in channel order; after a close nothing is dropped or pending and everything sent was received |
| ResilientLoop.InFlightIsBounded | src/internal/ingestion/dialog.go:392-459 | at no step are more than maxParallel messages in flight |
| ResilientLoop.FinalCheckpointIsExact | src/internal/ingestion/dialog.go:396-404 | a final save that works stores exactly the number of successes |
| ResilientLoop.CheckpointNeverFallsIff | src/internal/ingestion/dialog.go:396-475 | no step of any run lowers the stored index if and only if maxParallel is at most 1 |
| ResilientLoop.CheckpointCanGoBack | src/internal/ingestion/dialog.go:466-475 | for every maxParallel of at least 2, a reachable state in which the next per-message save lowers the stored index |
| ResilientLoop.ReachableInv | src/internal/ingestion/dialog.go:433-478 | every reachable state keeps one fate per message, the slot and wait-group counts, and the order of the drained messages |
| ResilientLoop.StuckIffIdle | src/internal/ingestion/dialog.go:433-478 | in every reachable state neither the loop nor a goroutine can move if and only if no goroutine is left and the loop is done, waits for a message, a close or a cancellation, or waits for a slot of a semaphore without any |
| ResilientLoop.LoopReturns | src/internal/ingestion/dialog.go:433-478 | once the channel is closed or the context cancelled, every run of the loop and its goroutines that goes on as long as it can ends, within a bound known beforehand, with the loop done and no goroutine left |
| ResilientLoop.RunsAreFinite | src/internal/ingestion/dialog.go:433-478 | without new messages, however goroutines are scheduled, the steps of any run are bounded |
| ResilientLoop.LoopCanReturn | src/internal/ingestion/dialog.go:433-478 | from every reachable state after the close or the cancellation a run reaches the end |
| ResilientLoop.EveryOutcomeOccurs | src/internal/ingestion/dialog.go:433-478 | each of the four outcomes of a message is possible under every limit |
| Checkpoint.PathHoldsCompletePayload | src/internal/ingestion/checkpoint.go:73-125 | with any number of concurrent savers, failures and restarts at any step, the path is absent or holds one complete payload |
| Checkpoint.SuccessPublishesPayload | src/internal/ingestion/checkpoint.go:81-91 | a save that succeeds puts its own payload on the path |
| Checkpoint.OnlyRenamesSucceed | src/internal/ingestion/checkpoint.go:73-125 | a saver comes to report success by no step but a rename that works, with its payload on the path at that moment |
| Checkpoint.SaveCanEnd | src/internal/ingestion/checkpoint.go:73-125 | from every reachable state, whatever other savers do, a saver that has not failed can put its payload on the path and succeed, and one that has failed can end |
| Checkpoint.SaverMoves | src/internal/ingestion/checkpoint.go:73-125 | no saver waits for another: in every reachable state each that has not ended has a step that brings it nearer to its end |
| Checkpoint.FinishedSavesLeaveNoFiles | src/internal/ingestion/checkpoint.go:85-90 | finished savers leave no temporary file unless a write or clean-up failed or the process stopped |
| Checkpoint.TmpNamesDiffer | src/internal/ingestion/checkpoint.go:81 | temporary names of different numbers differ, and none is the path itself |
| StmtCache.NoLeakInAnyInterleaving | src/internal/retrieval/stmt_cache.go:39-83 | in every interleaving: at most 32 entries, each open and prepared for its own key; every statement ever prepared is cached, held by the one call that has just prepared it, or closed exactly once |
| StmtCache.QuietCacheHoldsAllOpen | src/internal/retrieval/stmt_cache.go:39-83 | once all calls have returned the open statements are exactly the cached ones |
| StmtCache.Cache.Install | src/internal/retrieval/stmt_cache.go:51-67 | the winner of a race is kept and the loser closed; a full cache is closed and emptied first |
| StmtCache.Cache.Drop | src/internal/retrieval/stmt_cache.go:75-80 | the entry is closed and dropped only if it is still the failing statement |
| StmtCache.FoundIsUsable | src/internal/retrieval/stmt_cache.go:42-44 | in every interleaving, what a lookup finds is an open statement that was prepared for the key |
| StmtCache.ReadyIsOpen | src/internal/retrieval/stmt_cache.go:39-83 | in every interleaving with at most 32 keys in use, a call about to query holds an open statement, unless a query on its own key fails |
| StmtCache.StmtsStayOpenIff | src/internal/retrieval/stmt_cache.go:53-67 | for a set of keys: in every run without failed queries on them, calls about to query hold open statements, if and only if there are at most 32 |
| StmtCache.FailureClosesSharedStmt | src/internal/retrieval/stmt_cache.go:70-83 | a run on one key in which two calls share a statement, the query of one fails and closes it, and the other is left with it |
| StmtCache.EvictionClosesStmt | src/internal/retrieval/stmt_cache.go:53-60 | for any 33 keys, a run without failed queries in which the last one closes the statement of a call about to query |
| StmtCache.CallMoves | src/internal/retrieval/stmt_cache.go:39-83 | no call waits for another: whether its database calls work or fail it can go on, with fewer steps left and other calls where they were |
| ServerState.GenerationNamesSnapshot | src/internal/serverstate/serverstate.go:70-87 | if no State is stored twice, in every interleaving published States have different generations, and a captured one is found again exactly on the object it was read from |
| ServerState.StaleMeansReplaced | src/internal/serverstate/serverstate.go:85-87 | if no State is stored twice, IsStale is true for a captured generation if and only if that very State has been replaced, so there is no ABA problem |
| ServerState.StoreIsBumpMarkPublish | src/internal/serverstate/serverstate.go:70-76 | a Store that nothing interrupts is the machine's three steps |
| ServerState.GenerationIsFinal | src/internal/serverstate/serverstate.go:70-76 | if no State is stored twice, no step changes the generation of a published State |
| ServerState.SingleWriterIncreases | src/internal/serverstate/serverstate.go:70-76 | while stores do not overlap and no State is stored twice, every publication raises the visible generation |
| ServerState.CaptureKeepsPair | src/internal/serverstate/serverstate.go:80-83 | a reader captures the published object with its generation |
| ServerState.StoresInTurn | src/internal/serverstate/serverstate.go:70-76 | for every number of stores below 2^64 there is a run of them without overlap, each of a new State, that publishes generation n with the n-th |
| ServerState.OverlapCanGoBack | src/internal/serverstate/serverstate.go:70-76 | from every reachable state with two Stores under way, whatever they have done so far, the run can go on so that the visible generation goes back |
| ServerState.TwoWritersCanGoBack | src/internal/serverstate/serverstate.go:70-76 | a run from the start in which it does |
| ServerState.StoringTwiceBreaksSnapshots | src/internal/serverstate/serverstate.go:62-76 | from every reachable state, storing an object again changes the generation that any reader has captured on it |
| ServerState.Ref.Store | src/internal/serverstate/serverstate.go:70-76 | bumps the counter modulo 2^64, stamps the State and publishes it, and changes no other State |
| ServerState.Ref.constructor | src/internal/serverstate/serverstate.go:33-42 | the first State is stamped 1 |
| MultiHop.MultiHopSeeds | src/internal/retrieval/walk.go:379-486 | the expansion terminates within the hop count; each hop finds exactly the neighbours not known before, once each; the final seeds are the initial ones and all found, sorted, at most max(distinct initial, 20 + 2·3) if searches honour their limit; it ends early only if a further hop would not be made or would find nothing |
| MultiHop.RunHop | src/internal/retrieval/walk.go:436-466 | a hop fails if and only if its walk does, or there is something to jump from and a call fails or the context is cancelled; it finds nothing if and only if its walk has no text; otherwise its hits are, in order, the neighbours of the embeddings of the two best items |
| MultiHop.NextHop | src/internal/retrieval/walk.go:424-473 | the body of the hop loop: it fails exactly if the hop does, stops exactly if the expansion is exhausted, and otherwise extends the history by one hop |
| MultiHop.FirstHopCountsSeeds | src/internal/retrieval/walk.go:442 | in the first hop a seed's text drives the jump unless two others do |
| MultiHop.LaterHopsIgnoreSeeds | src/internal/retrieval/walk.go:442 | from the second hop on only bucket facts drive the jump |
| MultiHop.TopKFromResult | src/internal/retrieval/walk.go:510-562 | the loop collects the first item of each content that is not empty, sorts and cuts |
| MultiHop.TopKIsBest | src/internal/retrieval/walk.go:552-561 | at most k candidates in order of score and content; a candidate is left out only for k others none of which it precedes |
| MultiHop.HopChoiceAmongFacts | src/internal/retrieval/walk.go:510-562 | of two bucket facts, an explained hop leaves out none that ranks above a chosen one; without explanation it leaves out none that comes first in the alphabet, whatever the ranking |
| MultiHop.ItemScore | src/internal/retrieval/walk.go:193-208 | the score with which a bucket fact drives a hop is that of the top node of its content if the retrieval was explained, and 0 otherwise |
| MultiHop.BetterRankedIsPassedOver | src/internal/retrieval/walk.go:193-208 | of any two ranked world facts the better one is passed over, if the alphabet says so and the retrieval was not explained |
| MultiHop.HopMergeSeeds | src/internal/retrieval/walk.go:598-613 | the next seeds are the new IDs in order of discovery, and the accumulated set grows by exactly those |
| MultiHop.NewIdsAreNew | src/internal/retrieval/walk.go:604-611 | new IDs are duplicate-free and are exactly the hits not accumulated before |
| MultiHop.HopEmbedFacts | src/internal/retrieval/walk.go:565-575 | one vector per item, or the error of one of them |
| MultiHop.HopVectorSearch | src/internal/retrieval/walk.go:580-594 | one list of hits per vector, or the error of one of them |
| MultiHop.SortedIds | src/internal/retrieval/walk.go:477-484 | the set in ascending order, each ID once, whatever the order of map iteration |
| MultiHop.SeedOrderIsDetermined | src/internal/retrieval/walk.go:481-484 | the sorted seed list depends on nothing but which seeds it holds |
| Pipeline.Assemble | src/internal/retrieval/walk.go:80-109 | through sort, buckets, reranking by any replies and trim: the result is the longest prefix of the reordered buckets within the budget, no content stands twice, and every fact is one of its own bucket's |
| Pipeline.RerankAll | src/internal/retrieval/walk.go:228-269 | reranking by any replies reorders each bucket as its reply says, keeps its contents as a multiset, and keeps contents distinct across buckets |
| Pipeline.Trim | src/internal/retrieval/token_budget.go:8-50 | trimming leaves the longest prefix of all facts whose cost fits, as a prefix of each bucket, and everything for a budget of 0 or less |
| Ranking.SortByScoreDesc | src/internal/retrieval/scoring.go:118-125 | scores that are no numbers become 0 and the slice is stably sorted in place |
| Ranking.SortingRanks | src/internal/retrieval/scoring.go:124 | the result falls in score, holds the same nodes, and is the only stable arrangement |
| Ranking.Bucketize | src/internal/retrieval/walk.go:177-216 | each bucket holds, in ranked order, one fact for every first node of its content that has the bucket's category, and nothing else; a fact shows its node's text and place, and the scores only in an explained retrieval |
| Ranking.BucketHoldsCategory | src/internal/retrieval/walk.go:205-213 | the same of the function the buckets are tied to: world, opinion, experience and observation, in this order |
| Ranking.OriginsAreFirstNodes | src/internal/retrieval/walk.go:185-214 | a bucket draws in ascending rank on exactly the first nodes of their content with its category |
| Ranking.BucketContentsAreDistinct | src/internal/retrieval/walk.go:185-190 | contents are pairwise distinct across all four buckets |
| Ranking.FactComesFromTopNode | src/internal/retrieval/walk.go:185-197 | a fact is made of a node that no node of the same content outranks, and later facts of the bucket do not outrank it |
| Ranking.ContentIsKeptIff | src/internal/retrieval/walk.go:185-213 | a content is in a bucket if and only if the first node that has it is of that bucket's category |
| StableSort.SortIsStableSort | src/internal/retrieval/scoring.go:124 | the sort used by the models sorts, keeps every element and keeps ties in order |
| StableSort.StableSortIsUnique | src/internal/retrieval/scoring.go:124 | two sorted arrangements with the same order of ties are equal, so the algorithm behind the library call does not matter |
| Rerank.OpenAIRerankPermutes | src/internal/ai/reranker.go:147-166 | any reply, with duplicate, missing or out-of-range numbers, leaves the multiset of content, parent, relation, depth and score of a bucket unchanged |
| Rerank.OpenAIRerank | src/internal/ai/reranker.go:96-167 | the candidates come back in the order of the positions named first, then the missing ones |
| Rerank.RankOrderIsPermutation | src/internal/ai/reranker.go:147-165 | every position occurs exactly once |
| Rerank.ProperReplyIsFollowed | src/internal/ai/reranker.go:149-156 | a reply without duplicates or wrong numbers is followed to the letter |
| Rerank.FirstMentionComesFirst | src/internal/ai/reranker.go:149-156 | of two positions named by any reply the one mentioned first comes first, repeated mentions ignored |
| Rerank.CandidateRoundTrip | src/internal/retrieval/walk.go:272-295 | the visible fields survive the trip through a candidate; the whole fact does if and only if it carries no explanation |
| Rerank.ApplyReranker | src/internal/retrieval/walk.go:228-269 | buckets are reranked in order up to the first failure; an empty bucket is skipped, an answer replaces the bucket candidate by candidate, nil leaves it; the failing one and those after it are unchanged |
| TokenBudget.TrimByTokenBudget | src/internal/retrieval/token_budget.go:8-50 | each bucket keeps its part of the prefix of all facts that fits the budget; a budget of 0 or less keeps everything |
| TokenBudget.TrimIsLongestPrefix | src/internal/retrieval/token_budget.go:8-80 | the parts put together are the longest prefix of world, opinions, experiences and observations that costs no more than the budget |
| TokenBudget.TrimFactsToBudget | src/internal/retrieval/token_budget.go:70-80 | the facts from the start that fit |
| TokenBudget.EstimateResultTokens | src/internal/retrieval/token_budget.go:52-66 | the sum over the buckets is the cost of all facts |
| TokenBudget.CostIsWordsAndBullets | src/internal/retrieval/token_budget.go:52-80 | facts cost their words and two tokens each |
| TokenBudget.FitIsLongestPrefix | src/internal/retrieval/token_budget.go:70-80 | what is kept costs no more than the budget and the next fact would not have fitted |
| TokenBudget.FitOfParts | src/internal/retrieval/token_budget.go:33-47 | budgeting one list after another with what is left equals budgeting their concatenation |
| RateLimiter.WindowIsBounded | src/internal/mcp/ratelimit.go:32-57 | in any window of any run the admitted calls are at most maxTokens, plus rate times the length of the window, plus maxTokens per reset |
| RateLimiter.BurstIsAdmitted | src/internal/mcp/ratelimit.go:32-50 | as many calls as the bucket holds whole tokens are all admitted, however fast they come, and take one token each |
| RateLimiter.TokensAreConserved | src/internal/mcp/ratelimit.go:32-57 | over any run the tokens at first, those that flowed in and those granted by resets are the tokens left, those spilled over a full bucket, and one for every call admitted |
| RateLimiter.RefusalMeansEmpty | src/internal/mcp/ratelimit.go:36-50 | a call is refused if and only if what that account leaves, with the refill since, is less than one token, or no bucket holds one |
| RateLimiter.TokensStayInRange | src/internal/mcp/ratelimit.go:32-57 | tokens stay between 0 and the maximum |
| RateLimiter.RestedCallIsAdmitted | src/internal/mcp/ratelimit.go:36-50 | with room for one token, a call 1/rate seconds after the call before is admitted |
| RateLimiter.SmallBucketAdmitsNothing | src/internal/mcp/ratelimit.go:39-46 | without room for one token no call of any run is admitted, resets or not |
| RateLimiter.Limiter.Allow | src/internal/mcp/ratelimit.go:32-50 | refill, cap, and take one token if there is one |
| RateLimiter.Limiter.Reset | src/internal/mcp/ratelimit.go:53-57 | a full bucket, the clock untouched |
| RateLimiter.Limiter.constructor | src/internal/mcp/ratelimit.go:22-29 | a new limiter is full |
| Crockford.EncodeCrockford | src/internal/id/id.go:136-152 | the never-masked 64-bit shift register yields MSB-first groups of five bits with zero padding on the right |
| Crockford.EncodingIsNumeral | src/internal/id/id.go:136-152 | the encoding is the base-32 numeral of the number the bytes make in base 256, with fewer than five binary zeros behind it to fill up the last digit |
| Crockford.EncodingKeepsOrder | src/internal/id/id.go:136-152 | for equal lengths, string order of encodings is byte order |
| Crockford.EncodingIsInjective | src/internal/id/id.go:136-152 | byte strings of one length have the same encoding if and only if they are equal |
| Crockford.DecodeCrockfordTime | src/internal/id/id.go:156-169 | the number in the first 48 bits, or an error exactly for a wrong length or a foreign character among the first ten |
| Crockford.TimeRoundTrips | src/internal/id/id.go:125-169 | every 48-bit timestamp is decoded again, whatever the random bits |
| Crockford.IdsSortByTime | src/internal/id/id.go:53-55 | task IDs of a later millisecond sort after those of an earlier one |
| Crockford.NewUlid | src/internal/id/id.go:125-133 | the body is the encoding of the low six bytes of the time and ten random bytes |
| Ndcg.ScoresAreBoundedIffHitsFit | src/internal/evaluation/ndcg.go:14-64 | for every choice of queries and every positive discount that never rises the score is between 0 and 1, if and only if no query has more hits in its top k than its ideal ranking counts |
| Ndcg.ScoreInUnitInterval | src/internal/evaluation/ndcg.go:14-64 | if the hits of every query fit, the score is between 0 and 1 |
| Ndcg.DistinctHitsFit | src/internal/evaluation/ndcg.go:27-48 | without repeated documents in the top k the hits fit |
| Ndcg.GainIsBoundedIffHitsFit | src/internal/evaluation/ndcg.go:33-52 | a ranking gains at most the ideal under every discount if and only if it has no more hits than the ideal counts |
| Ndcg.ExcessHitsBeatIdeal | src/internal/evaluation/ndcg.go:54-63 | a query with more hits than its ideal counts, scored alone and without discounting, scores above 1 |
| Ndcg.PerfectRetrieverScoresOne | src/internal/evaluation/retrieval_dataset.go:46-50 | returning the relevance lists scores exactly 1 as soon as one query has a relevant document |
| Ndcg.RepetitionBeatsIdeal | src/internal/evaluation/ndcg.go:38-42 | one relevant document ranked twice scores more than 1 under every discount |
| Ndcg.NDCG | src/internal/evaluation/ndcg.go:14-64 | the loops compute the mean ratio of gain to ideal gain over the scored queries, in any order of the queries |
| Ndcg.Discounted | src/internal/evaluation/ndcg.go:33-42 | the sum of the discounts at relevant positions |
| Ndcg.HitsGainAtMostIdeal | src/internal/evaluation/ndcg.go:38-52 | moving the hits to the front gains at least as much |
| Ndcg.HitsAreDistinct | src/internal/evaluation/ndcg.go:27-42 | without repetition the hits are the distinct relevant documents retrieved |
| GreedyCluster.ClustersAreGreedy | src/internal/compression/cluster.go:60-92 | clusters are disjoint, within the size limits, similar to their own seed, and no member is similar to the seed of an earlier cluster; a maximum of 0 leaves them empty |
| GreedyCluster.Cluster | src/internal/compression/cluster.go:60-92 | the loop terminates and returns the groups of the pool, small ones dropped and large ones cut |
| GreedyCluster.Absorb | src/internal/compression/cluster.go:67-77 | one pass splits the pool into what is similar to the seed and what is not, in order |
| GreedyCluster.GroupsHoldPool | src/internal/compression/cluster.go:66-79 | before dropping and cutting, the groups hold exactly the pool |
| GreedyCluster.GroupsAreSeparate | src/internal/compression/cluster.go:66-79 | members are similar to their seed and to no earlier one |
| GreedyCluster.LargeGroupIsKept | src/internal/compression/cluster.go:79-88 | every group of the minimum size gives a cluster, cut to the maximum |
| GreedyCluster.TooFewGiveNoCluster | src/internal/compression/cluster.go:35-38 | the early return for too few entities gives the same answer as the algorithm |

## Left out

- GraphWalk.ExpandGraph: content, timestamps, degree and embedding columns, scan errors and errors of the row cursor are not part of the rows; the answer of the query is any list of its rows in the promised order.
- Clustering.ClusterEntitiesWithEdges: similarity is any function of two vectors, and `sort.Slice` is an insertion by size; clusters are lists of indices.
- Consolidation.SynthesizeChunk: the content put together from the sources when the draft is empty is part of the draft; the prompt text is not modelled.
- Consolidation.ProvenanceIsKeptIff: is stated for histories whose archiving took effect and that start without extracted_from edges; that no other service archives rows in between is assumed.
- Overlap.OverlapIsSafeIff: a re-embedding or sweep that covers many rows is one operation per row or batch; an index call is one step that works or has no effect.
- Ingestion.ProcessOneItem: the waiting between attempts is left out; other writers do not run between attempts.
- Reembed.ReEmbedAll: an error while reading the rows, and the two meta entries, are left out; the vector an item gets is the normalised one.
- Sweeps.RunOnce: time is a number and the cutoff is an argument; a vector index is present.
- ResilientLoop.EveryMessageHasOneOutcome: a checkpoint save is one step here (`Checkpoint` justifies it), processing a message ends in success or failure, and the loaded checkpoint, which the code discards, is left out.
- ResilientLoop.CheckpointNeverFallsIff: is about the saves of one run; the index left by an earlier run is not part of the state.
- Checkpoint.PathHoldsCompletePayload: covers processes that stop, not power loss: a checkpoint is not synced before it is renamed. Renaming and file creation are atomic; an empty path, which saves nothing, is left out.
- StmtCache.NoLeakInAnyInterleaving: the rows a query returns are left out; closing a statement is one step.
- ServerState.GenerationNamesSnapshot: fewer than 2^64 stores, since the counter wraps; a nil State panics and is left out.
- RateLimiter.WindowIsBounded: over real numbers, with a maximum and a rate that are not negative and a clock that does not go back.
- Crockford.DecodeCrockfordTime: bodies are read by character, which is by byte for the ASCII bodies the program makes.
- Ndcg.NDCG: over real numbers and for any positive discount that never rises, of which 1/log2(i+2) is one.
- GreedyCluster.Cluster: similarity is any function of two indices; a negative maximum size, on which the slice expression panics, is excluded.
- MultiHop.TopKFromResult: Go's `>` does not order NaN; the model puts NaN last, so for a NaN score the choice may differ from the library's.
- MultiHop.MultiHopSeeds: the walks, embeddings, searches and cancellations of each hop are arbitrary functions; the final walk over the seeds is that of `GraphWalk`.
- Pipeline.Assemble: scoring itself and the logging of explanations are left out; depth decay is any function of the path weight.
- Rerank.OpenAIRerank: the HTTP call and the parsing of the reply are an optional list of numbers; the Ollama reranker, which does not check for duplicates, is left out.
- TokenBudget.TrimByTokenBudget: the token counter is any function of the content.
- The identity assignment of extracted items, the plain memory worker, content-addressed entity IDs, text normalisation and hashing are not modelled.
- Composite scores, recency, temporal and centrality terms are single formulas and are not modelled.
- The SQL engine, file system, HTTP, embedders, detectors, extractors, logging, metrics, configuration, transports and the task, vector, community and belief services are not modelled.
