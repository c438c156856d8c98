# LikhaDB verification

A Dafny model of the three parts of LikhaDB whose correctness is hard to see from the code, with proofs of what they promise.

* **Indexes.** The flat slab, the IVF index with its k-means and SQ8 codes, and the layered HNSW graph each stand for one finite map from id to vector. Every operation is proved to do to that map what an insert, delete or batch should, and every search is proved to answer over it, exactly where the program promises exactness.
* **Off-thread compaction.** Capture, journal, rebuild elsewhere, replay, swap: `get`, the length and the ids stay the same throughout. Searches may improve, since the rebuild drops dead nodes.
* **The write-ahead log.** Framing, the entry codec, the reader, replay, checkpoints, and a disk that remembers every state a crash could have left.

`dafny verify dfyconfig.toml` checks the whole project.

## Reading order

| file | what it holds |
|---|---|
| `Core`, `Slab`, `Contents` | ids, vectors, errors; rows in a slab as a map; the map every index stands for and the exact answer to a query |
| `TopK` | the bounded heap, its parallel fold and reduce, sorted results |
| `Flat` | the brute-force index |
| `Vectors`, `KMeans`, `Sq8`, `Postings`, `Ivf`, `IvfQuality`, `ExactSearch` | Lloyd's algorithm, quantisation, posting lists, the IVF index, what its training and placement are for, its agreement with brute force |
| `Beam`, `Selection` | search within one layer with its visit stamps; neighbour selection |
| `HnswGraph`, `HnswPlan`, `HnswCommit`, `HnswBuild`, `HnswLinks`, `Hnsw`, `HnswStarts`, `HnswGhosts`, `HnswRuns` | the graph invariant, planning, committing, waves, what they leave in the neighbour lists, the index, where descents end, what overwritten nodes do to searches, and runs that show both |
| `VectorIndex`, `Semantics`, `Compaction`, `Collections`, `Managers` | the shared index contract, what operations mean, the journal, the collection, the manager |
| `Convergence` | overlapping replays and retried deltas |
| `Frames`, `LogReader`, `Recovery`, `CrashSafety`, `Wal` | bytes, reading, recovering, crashing, the log manager |

## How the program is represented

* `f32` components and scores are real numbers. A distance is any function of two vectors unless a statement says Euclidean; neither symmetry nor the triangle inequality is assumed.
* A binary heap is the multiset of its entries, so nothing depends on the order in which heap iteration visits ties.
* Whatever a scheduler, a random number or a hash map decides is arbitrary: parallel splits are trees passed in, drawn node levels are inputs of the graph index, thread choices are unconstrained, and iteration over a hash map yields any order.
* Each index is a class. Its mutable fields sit in one record (`Graph`, `State`) or, for the flat index, in two, and every operation commits a new value to them. Posting lists and graph nodes are values inside those records, as the structs are inside their `Vec`s.
* Visit stamps are per-thread objects. A counter that wraps around may leave nodes looking visited; the beam certificate carries that set, `VisitStamps.Begin` says exactly when it is empty, and every operation of the graph index shows it empty while the thread has room for the searches it takes, and says how much room is left after it, so that the certificates of successive operations on a thread chain until its counter wraps.
* bincode, zstd and xxHash64 are functions with the laws stated in `Codec.Lawful`: decoding undoes encoding, on entries whose numbers fit the program's types, and the version is the first byte. Nothing is assumed of the hash.
* A crash leaves the snapshot of before or after a rename, the log of before or after a truncation, and any byte prefix of an append. `Disk` records each such state together with how many calls had returned.

## Where code and documentation disagree

The model follows the code.

* `closest_live` is documented as returning the closest non-deleted candidate (`crates/likhadb-index/src/hnsw.rs:329-336`); it returns the closest one. `HnswRuns.TombstonedStart` is a run, on any parameters, in which a search's descent ends at a deleted node; `HnswStarts.ClosestLiveIff` says exactly on which candidates the documentation holds however ties fall, and `HnswStarts.StartIsLive` that no descent ends at a deleted node while none has an upper layer.
* A torn tail is documented as discarded (`crates/likhadb-persist/src/wal/mod.rs:274-275`). It is ignored by the reader but left in the file, and the next entry is appended behind it. `LogReader.TornTailSwallows` gives a family of inputs on which that entry is lost, `LogReader.AppendSurvivesIff` says that a torn tail is exactly what loses it, and `Wal.CheckpointRepairs` shows that crash safety holds again from the next checkpoint on.
* `finish_index_compaction` is documented as returning `false` when the collection no longer owns the plan (`crates/likhadb-store/src/collection.rs:381-382`); it only checks that some journal is open. `Collections.StalePlanLosesAWrite` is a run in which a cancelled plan is accepted and loses a write; `Compaction.StalePlanIsHarmlessIff` says exactly when a stale plan does no harm.
* Probing every list is documented as giving exact recall (`crates/likhadb-index/src/ivf.rs:282-283`). It does on the vectors the index reads, which for a quantised index are the decoded ones. `ExactSearch.QuantisedRecallFails` is a history after which the scores differ from brute force. `ExactSearch.RecallIsExactIff` says exactly when they never do, under the Euclidean metric or the dot product: when every given vector lies on the grid of the index's quantiser. Under any metric `ExactSearch.AnswersAgreeIff` says it of two maps: when no query of the index's dimension tells their vectors apart.
* Replay is documented as converging on the log's requested state over a partial checkpoint (`crates/likhadb-persist/src/wal/recovery.rs:10-13`). `Convergence.FailedOpsDoNotConverge` is a sequence on which it does not, and `Convergence.ConvergesIff` the exact condition, on the sequence and the collections present before it.
* Searches may list an overwritten id twice, once with its stale distance, because the node left behind passes the tombstone filter. `HnswRuns.OverwrittenIdRepeats` is such a run on any parameters. `HnswGhosts.NoGhostsNoRepeats` gives a condition on the graph and filter under which no search does, which `HnswGhosts.NoDeadNoRepeats` shows of every rebuilt graph, and `HnswGhosts.RepeatsBeforehandIff` and `HnswGhosts.CurrentBeforehandIff` the exact ones for searches that reach and return everything.

## Model

| member | source | states |
|---|---|---|
| `Slab.RowsSwapRemove` | crates/likhadb-index/src/flat.rs:100-117 | moving the last row of the slab over a removed one and truncating is swap-remove on the list of rows |
| `Slab.TableSwapRemove` | crates/likhadb-index/src/flat.rs:100-117 | swap-removing ids and rows together removes exactly that id from the map and keeps ids distinct |
| `Slab.OffsetIsProduct` | crates/likhadb-index/src/hnsw.rs:153-155 | row `i` starts at `i * dim` |
| `TopK.OfferKeepsBest` | crates/likhadb-index/src/flat.rs:150-165 | one step of the bounded max-heap keeps a best-k choice of everything offered so far |
| `TopK.BestOfBest` | crates/likhadb-index/src/flat.rs:168-181 | a best-k choice of part best-k choices is a best-k choice of the whole, which is why merging partial heaps is sound |
| `TopK.FoldReduce` | crates/likhadb-index/src/flat.rs:138-181 | for every split of the rows and every reduce tree the heap is a best-k choice of all filter-passing rows |
| `TopK.TopKScoresAgree` | crates/likhadb-index/src/flat.rs:138-192 | two sorted best-k choices of the same scores carry the same score sequence, however ties fell |
| `Flat.FlatIndex.Insert` | crates/likhadb-index/src/flat.rs:83-98 | insert or overwrite in the map; a wrong length is an error that changes nothing |
| `Flat.FlatIndex.Delete` | crates/likhadb-index/src/flat.rs:100-117 | removes exactly the id and reports whether it was there |
| `Flat.FlatIndex.Search` | crates/likhadb-index/src/flat.rs:119-193 | the sorted k nearest filter-passing vectors, for every split; empty answers and dimension errors |
| `KMeans.MeanSaves` | crates/likhadb-index/src/ivf.rs:197-247 | moving a cluster's centre to its mean saves exactly its size times the squared move |
| `KMeans.MeanIsBest` | crates/likhadb-index/src/ivf.rs:228-247 | no other point serves a cluster with members better than its new centroid |
| `KMeans.NearestIsMinimal` | crates/likhadb-index/src/ivf.rs:186-196 | the assigned centroid is a nearest one, the first on ties |
| `KMeans.Tally` | crates/likhadb-index/src/ivf.rs:198-226 | the parallel fold and reduce computes every cluster's size and vector sum, for every split |
| `KMeans.Recentre` | crates/likhadb-index/src/ivf.rs:228-247 | means for non-empty clusters, the largest cluster's old centroid for empty ones |
| `KMeans.LargestIsMaximal` | crates/likhadb-index/src/ivf.rs:233-240 | the cluster an empty one is reseeded from is a largest one, the last on ties |
| `KMeans.EmptyTakesLargest` | crates/likhadb-index/src/ivf.rs:228-247 | a cluster without members takes the old centroid of a cluster with most members |
| `KMeans.LloydDescends` | crates/likhadb-index/src/ivf.rs:185-261 | a Lloyd iteration, reseeding included, never increases the within-cluster sum of squares |
| `KMeans.StrideInBounds` | crates/likhadb-index/src/ivf.rs:180-183 | every seed index lies inside the data |
| `KMeans.SeedsAreSpread` | crates/likhadb-index/src/ivf.rs:180-183 | seed `i` is the row where the `i`-th of `k` equal shares of the rows begins; with enough rows the seeds are different rows |
| `KMeans.Lloyd` | crates/likhadb-index/src/ivf.rs:178-264 | a run of Lloyd steps from evenly spread seeds that stops on convergence or at the cap |
| `KMeans.WhyItStopped` | crates/likhadb-index/src/ivf.rs:185-264 | the loop ends after 25 iterations or when no component moved by 0.0001, and goes on only while one did |
| `KMeans.ClusteringImproves` | crates/likhadb-index/src/ivf.rs:178-264 | clustering ends no worse than the evenly spread seeds |
| `Sq8.QuantisationError` | crates/likhadb-index/src/ivf.rs:58-68 | decoding an encoded vector lands within half a step of the clamped vector, in every dimension |
| `Sq8.StoredIsNearest` | crates/likhadb-index/src/ivf.rs:58-68 | clamped or not, a component is stored as a nearest of the 256 values its dimension has |
| `Sq8.HalvesGoAway` | crates/likhadb-index/src/ivf.rs:63 | a half is rounded away from zero on both sides |
| `Sq8.FittedVectorError` | crates/likhadb-index/src/ivf.rs:29-68 | vectors the quantiser was fitted to are within half a step without clamping, zero-range dimensions included |
| `Sq8.FittedErrorOfData` | crates/likhadb-index/src/ivf.rs:29-68 | in terms of the data alone: a fitted component reads back within a 510th of its spread over the rows, exactly if there is none |
| `Sq8.CodesRoundTrip` | crates/likhadb-index/src/ivf.rs:58-68 | encoding a decoded code sequence gives the same codes |
| `Sq8.Fit` | crates/likhadb-index/src/ivf.rs:29-56 | always a usable quantiser; on finite values its range is per dimension exactly the data's and every row reads back within a 510th of the spread of each component |
| `Postings.ListRemove` | crates/likhadb-index/src/ivf.rs:120-148 | swap-removal from a posting list, `f32` or codes, removes exactly the id and keeps slab and ids aligned |
| `Postings.PartitionPush` | crates/likhadb-index/src/ivf.rs:578-604 | adding an id to one list keeps the lists a partition named by the id-to-list map |
| `Postings.PartitionRemove` | crates/likhadb-index/src/ivf.rs:607-634 | removing an id keeps the partition and removes exactly that id from the merged map |
| `Postings.ProbeHits` | crates/likhadb-index/src/ivf.rs:462-514 | scanning distinct lists scores exactly the part of the map that lies in them |
| `Ivf.Distribute` | crates/likhadb-index/src/ivf.rs:359-384 | training files every staged vector once, in the list of its nearest centroid, named by the id-to-list map |
| `Ivf.Build` | crates/likhadb-index/src/ivf.rs:359-384 | the trained lists hold the staged map, quantised if so configured, on centroids from k-means |
| `Ivf.InsertedUnquantised` | crates/likhadb-index/src/ivf.rs:565-605 | through staging, training and after, an unquantised insert is an insert in the map |
| `Ivf.RawInsert` | crates/likhadb-index/src/ivf.rs:565-605 | through staging, training and after, quantised or not, the index stands for the map of given vectors with the new one inserted |
| `Ivf.RawDelete` | crates/likhadb-index/src/ivf.rs:607-634 | and after a delete for that map without the id |
| `Ivf.HoldsItself` | crates/likhadb-index/src/ivf.rs:543-563 | what an index reads back is stable: it stands for those vectors too, so quantising a decoded vector loses nothing more |
| `Ivf.GivenAgain` | crates/likhadb-index/src/ivf.rs:543-563 | giving an index again the vector it reads back for an id leaves it standing for the same vectors |
| `Ivf.IvfIndex.Insert` | crates/likhadb-index/src/ivf.rs:565-605 | the staging-to-trained machine: staged below `nlist`, trained at it, relisted after; stored vectors read back decoded |
| `Ivf.IvfIndex.Delete` | crates/likhadb-index/src/ivf.rs:607-634 | removes exactly the id before and after training, and never untrains |
| `Ivf.ChooseProbe` | crates/likhadb-index/src/ivf.rs:442-460 | the probed lists are the `nprobe` nearest centroids, distinct |
| `Ivf.FullProbe` | crates/likhadb-index/src/ivf.rs:282-283 | probing every list covers everything stored |
| `Ivf.IvfIndex.Search` | crates/likhadb-index/src/ivf.rs:406-517 | exact over the probed part, over everything while staging or with `nprobe == nlist` |
| `IvfQuality.ListedWithNearest` | crates/likhadb-index/src/ivf.rs:387-402 | an unquantised vector lies in the list of its nearest centroid, the first on ties |
| `IvfQuality.ProbeTakesNearest` | crates/likhadb-index/src/ivf.rs:436-462 | what a probe takes is nearer than what it leaves, or as near with a smaller list number |
| `IvfQuality.StoredIsFound` | crates/likhadb-index/src/ivf.rs:436-517 | searching an unquantised index for a stored vector answers at least as near as that vector is, however few lists are probed |
| `IvfQuality.TrainingImproves` | crates/likhadb-index/src/ivf.rs:359-384 | the insert that trains the index clusters all vectors inserted so far, no worse than evenly spread seeds |
| `IvfQuality.TrainingReadsBackClose` | crates/likhadb-index/src/ivf.rs:359-384 | and leaves each component of them, quantised, within a 510th of its spread |
| `Ivf.IvfIndex.Compact` | crates/likhadb-index/src/ivf.rs:686-704 | a rebuild stands for the vectors as the old index reads them: the same map when unquantised, the decoded vectors quantised afresh otherwise; nothing to do before training |
| `ExactSearch.ExactRecall` | crates/likhadb-index/src/ivf.rs:282-283 | after any history an IVF with `nprobe == nlist` answers exactly over the map as it reads it through its quantiser, with the flat index's score sequence when unquantised or when every given vector lies on the quantiser's grid |
| `ExactSearch.AnswersAgreeIff` | crates/likhadb-index/src/ivf.rs:282-283 | two maps over the same ids answer every query of the index's dimension, k and filter with the same scores exactly when no such query tells their vectors apart |
| `ExactSearch.StoredIffOnGrid` | crates/likhadb-index/src/ivf.rs:58-68 | a vector is read back as given exactly when every component is one of the 256 values its dimension can store |
| `ExactSearch.EuclideanSeparates` | crates/likhadb-core/src/distance.rs:25-31 | some query tells any two different vectors apart by Euclidean distance |
| `ExactSearch.DotSeparates` | crates/likhadb-core/src/distance.rs:7 | and by negated dot product |
| `ExactSearch.RecallIsExactIff` | crates/likhadb-index/src/ivf.rs:282-283 | under such a metric an index probing every list agrees with brute force over the given vectors on every accepted query, k and filter exactly when every given vector lies on its quantiser's grid, if it has one |
| `ExactSearch.QuantisedRecallFails` | crates/likhadb-index/src/ivf.rs:282-283 | a two-insert history after which a quantised index that probes its only list scores differently from brute force |
| `Beam.VisitStamps.Begin` | crates/likhadb-index/src/hnsw.rs:190-202 | after the epoch bump every node looks unvisited exactly when the new epoch occurs in no old stamp in range and not as the padding |
| `Beam.SearchLayer` | crates/likhadb-index/src/hnsw.rs:183-248 | the beam certificate: min(ef, visited) found, nothing visited and left out is nearer, every neighbour of a found node was visited; the stamps serve as a fresh visited set |
| `Beam.Walk.WideBeamIsExact` | crates/likhadb-index/src/hnsw.rs:183-248 | a beam at least as wide as the reachable set finds exactly that set |
| `Selection.SelectNeighbors` | crates/likhadb-index/src/hnsw.rs:251-260 | a true nearest-m choice of the candidates |
| `Selection.SelectNeighborsHeuristic` | crates/likhadb-index/src/hnsw.rs:268-295 | Algorithm 4: a prefix of mutually diverse picks, then the nearest rejected ones, each with a chosen witness; min(m, candidates) in all |
| `Selection.DiversePicks` | crates/likhadb-index/src/hnsw.rs:268-295 | in distances: first the picks, each farther from every earlier pick than from the query, then the others, each at least as close to some pick as to the query |
| `Selection.NearestIsPicked` | crates/likhadb-index/src/hnsw.rs:268-295 | the nearest candidate is always taken, and first |
| `Selection.SelectionShape` | crates/likhadb-index/src/hnsw.rs:297-307 | either strategy returns min(m, candidates) distinct candidates |
| `HnswGraph.BeamKeepsLayer` | crates/likhadb-index/src/hnsw.rs:216-226 | everything a beam finds has the beam's layer, because edges of a layer only join nodes that have it |
| `HnswPlan.Descend` | crates/likhadb-index/src/hnsw.rs:350-356 | greedy descent through the upper layers, one width-one beam each, ends at a node that has the layer needed |
| `HnswPlan.PlanInsert` | crates/likhadb-index/src/hnsw.rs:339-372 | descent to the node's level, then per layer a construction-width beam and a selection from it; the lists are in range, distinct and within degree |
| `HnswPlan.StalePlanFits` | crates/likhadb-index/src/hnsw.rs:443-458 | a plan made on a snapshot can be committed after the graph has grown |
| `HnswCommit.Prune` | crates/likhadb-index/src/hnsw.rs:311-327 | an overfull list becomes a selection from itself, any other stays |
| `HnswCommit.Commit` | crates/likhadb-index/src/hnsw.rs:376-416 | the whole new graph: the node, its slab row, a reverse edge at exactly the planned neighbours with pruning, everything else unchanged, the entry point |
| `HnswCommit.CommitKeepsOk` | crates/likhadb-index/src/hnsw.rs:376-416 | a commit, stale plans included, keeps edges in range, loop-free, duplicate-free, within layer and degree, ids newest, and the entry point live with the top layer |
| `HnswCommit.CommitIsInsert` | crates/likhadb-index/src/hnsw.rs:376-416 | on the map a commit is an insert or overwrite |
| `HnswBuild.CommitsAllKeep` | crates/likhadb-index/src/hnsw.rs:443-458 | plans of one snapshot committed in order keep the invariant and insert their rows in order |
| `HnswBuild.BatchKeeps` | crates/likhadb-index/src/hnsw.rs:423-461 | however a batch is cut into waves the invariant holds and the last row of each id wins |
| `HnswBuild.BuildWaves` | crates/likhadb-index/src/hnsw.rs:434-458 | the wave loop yields such a batch, with plans free of stale stamps while the pool's counters have room |
| `HnswLinks.InsertLinks` | crates/likhadb-index/src/hnsw.rs:339-419 | a node inserted while there is an entry point has a neighbour at layer 0, and no node loses its last one |
| `HnswLinks.BatchLinks` | crates/likhadb-index/src/hnsw.rs:423-461 | so has every node of a batch, but for a first one without an entry point |
| `HnswLinks.BatchBlocks` | crates/likhadb-index/src/hnsw.rs:423-461 | nodes of one block of rows as wide as the pool, counted after a lone first node, are not linked to each other |
| `HnswLinks.ReachesIffLeads` | crates/likhadb-index/src/hnsw.rs:222-249 | what a search of a layer can reach is what following its neighbour lists leads to |
| `HnswLinks.FullLists` | crates/likhadb-index/src/hnsw.rs:339-374 | in a connected layer no larger than the construction beam a new node gets as many neighbours as layer and bound allow, `m`, or `2 * m` at layer 0, and the nearest ones under the plain strategy |
| `HnswLinks.SearchesBelowNearest` | crates/likhadb-index/src/hnsw.rs:339-374 | and the layer below such a layer is searched from its node nearest to the new vector |
| `HnswLinks.DegreeBound` | crates/likhadb-index/src/hnsw.rs:115-116 | no list holds more than `m` neighbours, or `2 * m` at layer 0 |
| `HnswLinks.PruningKeepsNearest` | crates/likhadb-index/src/hnsw.rs:311-327 | the plain strategy prunes a list to the nodes nearest to its own node |
| `HnswLinks.EntryIsHigh` | crates/likhadb-index/src/hnsw.rs:412-415 | after a commit the entry point is at least as high as the new node and the old entry point |
| `Hnsw.TombstoneIsDelete` | crates/likhadb-index/src/hnsw.rs:495-523 | a tombstone with entry-point repair keeps the invariant and removes exactly the id |
| `Hnsw.WideSearchIsExact` | crates/likhadb-index/src/hnsw.rs:551-575 | if no more than `efSearch`, or than `k`, nodes are reachable, the results are the k nearest live, passing ones of them, sorted |
| `Hnsw.WideSearchOnCleanGraph` | crates/likhadb-index/src/hnsw.rs:525-576 | on a graph without dead nodes, fully reachable and no larger than `efSearch` or `k`, a search gives the brute-force answer |
| `Hnsw.NoDeadNodes` | crates/likhadb-index/src/hnsw.rs:601-608 | with as many nodes as live ids every node is what its id stands for |
| `HnswGhosts.OverwriteLeavesGhost` | crates/likhadb-index/src/hnsw.rs:384-398 | after an overwrite both nodes of the id pass the tombstone filter |
| `HnswGhosts.RepeatsIff` | crates/likhadb-index/src/hnsw.rs:555-567 | before sorting and truncation, the entries collected from a beam repeat an id exactly when the beam found two admitted nodes of one id |
| `HnswGhosts.NoGhostsNoRepeats` | crates/likhadb-index/src/hnsw.rs:551-575 | if no two nodes that pass tombstones and filter have one id, every search returns each id once, with its newest vector's distance |
| `HnswGhosts.NoDeadNoRepeats` | crates/likhadb-index/src/hnsw.rs:551-575 | so does every search of a graph with as many nodes as live ids, as a rebuild leaves it |
| `HnswGhosts.WideSearchRepeatsIff` | crates/likhadb-index/src/hnsw.rs:551-575 | a search that returns everything reachable from where its descent ended repeats an id exactly when two admitted nodes of that have one id |
| `HnswGhosts.WideSearchCurrentIff` | crates/likhadb-index/src/hnsw.rs:551-575 | and carries only newest distances exactly when every admitted node of that is as far as its id's newest node |
| `HnswGhosts.RepeatsBeforehandIff` | crates/likhadb-index/src/hnsw.rs:525-575 | the same condition before the search, on the graph: all places where a descent can end reach the same nodes, and two admitted ones of these have one id |
| `HnswGhosts.CurrentBeforehandIff` | crates/likhadb-index/src/hnsw.rs:525-575 | the same for newest distances |
| `HnswStarts.StartIsLive` | crates/likhadb-index/src/hnsw.rs:541-549 | a descent ends at a live node while no deleted node has an upper layer |
| `HnswStarts.ClosestLiveIff` | crates/likhadb-index/src/hnsw.rs:329-336 | the closest candidate is a closest live one, however ties fall, exactly when every deleted candidate is farther than some live one |
| `HnswRuns.TombstonedStart` | crates/likhadb-index/src/hnsw.rs:329-549 | on any parameters: insert two ids drawn one upper layer each, delete the second, search near it; the search starts at the deleted node |
| `HnswRuns.OverwrittenIdRepeats` | crates/likhadb-index/src/hnsw.rs:376-576 | on any parameters and drawn levels, on one thread: insert an id, overwrite it, search for two; the results hold the id twice, once with the stale distance |
| `Hnsw.HnswIndex.Insert` | crates/likhadb-index/src/hnsw.rs:477-489 | insert in the map through a plan of the current graph and its commit, free of stale stamps while the thread has room, of which it takes at most `MAX_LEVEL + 1` searches; the node's level is the drawn one up to 16; unless the index was empty the node has neighbours, and no node loses its last; dimension errors change nothing |
| `Hnsw.HnswIndex.InsertBatch` | crates/likhadb-index/src/hnsw.rs:423-461 | all rows checked first; then the batch as waves, one new node per row, free of stale stamps while the pool has room; each thread keeps its room but for the searches of all rows; levels are the drawn ones up to 16; every new node but a first one into an empty index has neighbours, and none within its own block of rows |
| `Hnsw.HnswIndex.Delete` | crates/likhadb-index/src/hnsw.rs:495-523 | removes exactly the id; the replacement entry point is the newest node of a live id |
| `Hnsw.HnswIndex.Search` | crates/likhadb-index/src/hnsw.rs:525-576 | the results of `WideSearchIsExact` and the lemmas beside it, from a descent and a beam with its certificate; empty and error cases; the thread's room as for an insert |
| `Hnsw.HnswIndex.Len` | crates/likhadb-index/src/hnsw.rs:578-580 | ids minus tombstones is the size of the map |
| `Hnsw.HnswIndex.TombstoneRatio` | crates/likhadb-index/src/hnsw.rs:601-608 | the share of nodes that no live id stands for, between zero and one |
| `Hnsw.LiveRows` | crates/likhadb-index/src/hnsw.rs:620-632 | the capture lists each live id once and inserts into nothing as the live map |
| `Hnsw.Rebuild` | crates/likhadb-index/src/traits.rs:21-25 | a rebuild holds exactly the captured map, with no dead node, built in waves from nothing; every node but the first has neighbours |
| `Hnsw.HnswIndex.Compact` | crates/likhadb-index/src/hnsw.rs:635-645 | compaction yields the same map with zero dead nodes, and every node but the first has neighbours |
| `VectorIndex.Insert` | crates/likhadb-index/src/traits.rs:31-32 | the shared insert contract holds of all three indexes: they stand for the given vectors with the new one inserted |
| `VectorIndex.InsertBatch` | crates/likhadb-index/src/traits.rs:34-43 | the default batch stops at the first bad row and keeps those before it; the graph index is all or nothing; either way the given vectors are those of the rows that went in |
| `VectorIndex.Delete` | crates/likhadb-index/src/traits.rs:45-46 | the shared delete contract holds of all three indexes |
| `Compaction.RecordedKeepsStep` | crates/likhadb-store/src/collection.rs:199-293 | journaling one mutation keeps the replayed capture equal to the live map |
| `Compaction.SwapIsInvisible` | crates/likhadb-store/src/collection.rs:364-402 | after any interleaving of successful and failing inserts, batches and deletes, journal replay cannot fail and gives the live map |
| `Compaction.StalePlanIsHarmlessIff` | crates/likhadb-store/src/collection.rs:383-402 | finishing with another capture gives the live map exactly when the captures agree on every id the journal does not touch |
| `Collections.StalePlanLosesAWrite` | crates/likhadb-store/src/collection.rs:367-408 | a run: prepare, cancel, insert, prepare again, finish the first plan; it is accepted and the insert is gone |
| `Collections.BatchIsRowByRow` | crates/likhadb-store/src/collection.rs:230-252 | vectors in bulk and payloads after leave what inserting row by row leaves |
| `Collections.Collection.Insert` | crates/likhadb-store/src/collection.rs:199-213 | vector and payload written, a missing payload keeps the old one, the journal grows by what succeeded |
| `Collections.Collection.InsertBatch` | crates/likhadb-store/src/collection.rs:233-252 | on success what row-by-row inserts leave; on failure no payload, and of the vectors those the index kept; the journal only on success |
| `Collections.Collection.ReplayInsert` | crates/likhadb-persist/src/wal/recovery.rs:58-88 | a replayed insert skips a row that already reads the same, adding no node, and the contents come out as inserted either way, quantised or not |
| `Collections.Collection.Delete` | crates/likhadb-store/src/collection.rs:274-293 | removes vector and payload, so that neither is left; journaled only if the id was there |
| `Collections.Collection.PrepareCompaction` | crates/likhadb-store/src/collection.rs:367-379 | a plan exactly when no journal is open, the index is a graph and its dead share exceeds the threshold; it captures the live map and opens the journal |
| `Collections.Collection.FinishCompaction` | crates/likhadb-store/src/collection.rs:383-402 | replay and swap; with the plan that opened the journal it never fails and the contents stay the same; the error path leaves the index |
| `Collections.Collection.CancelCompaction` | crates/likhadb-store/src/collection.rs:406-408 | journaling stops and the live index is untouched |
| `Collections.Collection.CompactIvf` | crates/likhadb-store/src/collection.rs:414-423 | replaces only a trained IVF index; the collection then stands for the vectors as they read before, the same ones when unquantised |
| `Collections.AcceptedIffConstructible` | crates/likhadb-store/src/manager.rs:20-110 | a creation is accepted exactly when the constructor of its index accepts the parameters |
| `Collections.Collection.ApplySourceDelta` | crates/likhadb-persist/src/wal/mod.rs:873-893 | a stale binding or watermark changes nothing; the watermark moves only when every row went in; a failure leaves the rows before it |
| `Semantics.ReplayIsLive` | crates/likhadb-persist/src/wal/recovery.rs:14-105 | replaying an operation leaves the state its live application left, whether or not that succeeded |
| `Semantics.LiveTakes` | crates/likhadb-store/src/manager.rs:20-152 | an operation succeeds exactly when its collection is there, or for a creation absent with accepted parameters, and the vector fits; then its collection reads as asked and all else as before; a failure changes nothing |
| `Semantics.DeletedIsForgotten` | crates/likhadb-store/src/collection.rs:274-293 | an id deleted and inserted again without a payload has none |
| `Semantics.LiveFails` | crates/likhadb-store/src/manager.rs:20-152 | which error an operation that cannot run gives, and that it changes nothing |
| `Semantics.ReplayFails` | crates/likhadb-persist/src/wal/recovery.rs:14-105 | what replay still reports: rows for an absent collection, rows of the wrong length and bad parameters, and nothing else |
| `Managers.CollectionManager.ApplyOp` | crates/likhadb-persist/src/wal/recovery.rs:14-105 | the replayed effect of each log operation: present or absent collections tolerated, rows that read back identical skipped, whatever a quantised collection reads back |
| `Managers.BatchIsOps` | crates/likhadb-persist/src/wal/mod.rs:797-817 | applying a checked batch is applying its log operations one by one |
| `Convergence.RetriesAreSafe` | crates/likhadb-store/src/delta.rs:9-10 | any number of attempts that each got through a prefix of the rows, then a full one, give the rows of one full application |
| `Convergence.ReplayConverges` | crates/likhadb-persist/src/wal/recovery.rs:10-13 | if every operation succeeded when first applied, replaying the whole sequence over the state after any prefix ends in the state after the sequence, across drops, re-creations and payload-less upserts |
| `Convergence.ConvergesIff` | crates/likhadb-persist/src/wal/recovery.rs:10-13 | for any sequence, failures included, that holds of all prefixes exactly when, for every collection absent before and created but never dropped, the fitting writes and bindings from before its creation make no difference after it |
| `Convergence.FailedOpsDoNotConverge` | crates/likhadb-persist/src/wal/recovery.rs:10-13 | a sequence that does not converge: an insert that failed before its collection existed takes effect on the second replay |
| `Frames.PayloadRoundTrip` | crates/likhadb-persist/src/wal/frame.rs:15-66 | decoding undoes the flags byte and the optional compression |
| `Frames.EncodedSize` | crates/likhadb-persist/src/wal/frame.rs:15-33 | a payload costs one byte more than the smaller of its two forms, and the byte, 0 or 1, tells which it is |
| `Frames.Refused` | crates/likhadb-persist/src/wal/mod.rs:56-83 | what the decoder refuses, byte by byte, and with which error |
| `Frames.FlaggedRoundTrip` | crates/likhadb-persist/src/wal/mod.rs:56-83 | a flagged frame, raw or compressed, decodes to its entry exactly when it has the current version, and to a version error otherwise |
| `Frames.UnflaggedRoundTrip` | crates/likhadb-persist/src/wal/mod.rs:57-65 | a frame without flags decodes to its entry |
| `Frames.FormsNeverCollide` | crates/likhadb-persist/src/wal/mod.rs:57-65 | no flagged payload equals an unflagged entry |
| `Frames.ReadAfterWrite` | crates/likhadb-persist/src/wal/frame.rs:72-110 | reading a written frame gives its payload, checksum and what follows |
| `Frames.FrameLayout` | crates/likhadb-persist/src/wal/frame.rs:72-79 | the length in four bytes, low byte first, the hash in eight, then the payload |
| `Frames.FrameRoundTripIff` | crates/likhadb-persist/src/wal/frame.rs:72-110 | a frame is read back whole exactly when its payload fits the 32-bit length |
| `Frames.TornFrame` | crates/likhadb-persist/src/wal/frame.rs:80-110 | a frame cut short anywhere reads as the end of the log |
| `LogReader.ScanPrefix` | crates/likhadb-persist/src/wal/reader.rs:56-97 | every byte prefix of a log yields exactly the entries whose frames lie wholly in it, without error |
| `LogReader.CorruptFrame` | crates/likhadb-persist/src/wal/reader.rs:67-84 | a checksum mismatch is silent on the last frame and an error when bytes follow |
| `LogReader.UndecodableFrame` | crates/likhadb-persist/src/wal/reader.rs:85-97 | a frame with a good checksum that does not decode is an error, last or not |
| `LogReader.TornTailSwallows` | crates/likhadb-persist/src/wal/mod.rs:153-165 | an entry appended behind a longer torn tail is lost without error |
| `LogReader.AppendSurvivesIff` | crates/likhadb-persist/src/wal/mod.rs:153-165 | an appended entry is read back exactly when there was no torn tail, unless the splice passes for a frame |
| `LogReader.FrameIter.Next` | crates/likhadb-persist/src/wal/frame.rs:143-162 | yields the frames of the stream one by one in order, then nothing for good |
| `LogReader.FramesOfPrefix` | crates/likhadb-persist/src/wal/frame.rs:72-162 | the frames of any byte prefix of a log are the payloads written whole, in order, each with its own checksum |
| `LogReader.SkipsLeadingOld` | crates/likhadb-persist/src/wal/reader.rs:87-94 | what the baseline skips is exactly the leading run of entries at or below it |
| `LogReader.WalReader.Next` | crates/likhadb-persist/src/wal/reader.rs:56-97 | yields the scan of the stream entry by entry, skipping entries at or below the baseline, then its error or the end |
| `Wal.Drain` | crates/likhadb-persist/src/wal/reader.rs:56-97 | a reader run to its end yields exactly the log's entries above the baseline, in order, or the log's error |
| `Wal.WalManager.PendingEntries` | crates/likhadb-persist/src/wal/mod.rs:949-953 | the entries above the durable baseline; while nothing logged is lost they read without error and take the snapshot to the present state |
| `Recovery.RecoverPrefix` | crates/likhadb-persist/src/wal/mod.rs:454-489 | a crash anywhere in an append recovers the old state and the operations written whole |
| `Recovery.RecoverLogAlone` | crates/likhadb-persist/src/wal/mod.rs:319-379 | without a snapshot every operation of the log is replayed and numbering goes on after its last |
| `Recovery.RecoverSnapshot` | crates/likhadb-persist/src/wal/mod.rs:468-473 | under a snapshot of everything, the gated log adds nothing |
| `CrashSafety.AppendIsSafe` | crates/likhadb-persist/src/wal/mod.rs:175-198 | appending keeps every crash state, those inside the append included, recoverable to a prefix that contains all that had returned |
| `CrashSafety.CheckpointIsSafe` | crates/likhadb-persist/src/wal/mod.rs:971-1000 | the states between rename and truncation and after both open to everything logged |
| `Wal.ReplayWal` | crates/likhadb-persist/src/wal/mod.rs:454-489 | replays exactly the newer entries in order, reports failures, counts, and computes the next number; structural errors are fatal |
| `Wal.ReportIsComplete` | crates/likhadb-persist/src/wal/mod.rs:454-489 | the report lists each entry that failed once, in log order, by number and error, and counts the others |
| `Wal.WalManager.Open` | crates/likhadb-persist/src/wal/mod.rs:319-379 | opens to what snapshot and log determine, or fails with the error of a corrupt log; on whole frames with rising numbers it is crash safe from there |
| `Wal.WalManager.LogAndApply` | crates/likhadb-persist/src/wal/mod.rs:503-528 | logged before applied; a failing operation stays logged and triggers no checkpoint; after a success the log is below both enabled thresholds, and no checkpoint is taken before one is reached; every crash state stays safe |
| `Wal.RecordCost` | crates/likhadb-persist/src/wal/mod.rs:167-198 | an operation costs the log the 12-byte header, the flag, and the smaller of its plain and compressed forms |
| `Wal.WalManager.InsertBatch` | crates/likhadb-persist/src/wal/mod.rs:738-820 | rejected batches log nothing; accepted ones equal row-by-row inserts under consecutive numbers and stay crash safe at every byte |
| `Wal.WalManager.Checkpoint` | crates/likhadb-persist/src/wal/mod.rs:971-1000 | afterwards opening yields exactly the present state, whatever the log held; every crash state stays safe |
| `Wal.CheckpointRepairs` | crates/likhadb-persist/src/wal/mod.rs:971-1000 | whatever the log held, a torn tail included, after a checkpoint crash safety holds from the present state on |
| `Wal.ReopenAfterCrash` | crates/likhadb-persist/src/wal/mod.rs:319-379 | one open from any state a crash could have left recovers a prefix of the attempted operations with every returned one, and a next number above all surviving ones |

## Left out

- The REST and gRPC server, the Python SDK, the stress tool, benches, metrics and authentication.
- SQL stages, full-text search and hybrid ranking, which rest on library engines; `EnableFts` is modelled as changing nothing else.
- Parquet, object storage and Iceberg: the flusher, `truncate_wal_up_to` and `open_from_iceberg_state`.
- Floating-point rounding, NaN, infinities and the SIMD kernels: scores and components are reals.
- I/O errors, and file systems that reorder a rename and a later truncation: renames are atomic and take effect in order.
- `reject_legacy_frame_format`, a heuristic on old logs: logs are taken to be in the current format.
- `Collection.search` and the JSON predicate language: searching is proved per index, for every filter.
- Flat.FlatIndex.Search: excludes scanning stored rows of dimension zero, on which the program panics.
- Sq8.Fit: promises the data's exact range only for components within the finite `f32` range, as those of every finite `f32` vector are.
- Beam.SearchLayer: takes one entry point, as every caller passes one.
- Managers.CollectionManager.ApplyOp: collections inside the manager are values holding the vectors as given and no quantiser, so what a quantised one reads back is any vector of its dimension, and a skipped row counts as given as it reads; Collections.Collection.ReplayInsert proves that step on the index objects.
- Wal.WalManager.LogAndApply: sequence numbers are unbounded there, as only the batch path of the program checks for overflow; and crash safety needs the encoded entry to be shorter than 2^32 bytes, which the program does not check.
- Crash safety is stated from opening a log of whole frames on; what a torn tail does to later appends is stated separately.
- Source deltas are not logged, so the crash theorem does not cover them.
- HNSW graph connectivity, edge symmetry and recall: pruning breaks the first two, and recall is statistical.
- The memory layout of slabs and lists: growth and reuse of buffers are not modelled.
