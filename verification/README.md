# HeatherDB engine: a verified model

HeatherDB stores patterns as *hard locations* (an address, a counter, a write count, a list of
neighbours) in *collections* kept in memory and in a transactional store. This project models the
engine's fast or incremental forms and its transactional state machine in Dafny, and proves that
they agree with simple ones.

- **Nearest neighbours** (`Vectors`, `KdTree`, `Nearest`). A k-d tree is built in place over a
  projection onto orthonormal rows and searched with pruning. The search returns what comparing
  every pair returns, ties to the lowest index, so its fallback never fires. The proof joins
  Bessel's inequality, |u-v|² = 2-2u·v on unit vectors, and the separation kept by every split.
- **Top k** (`Rounding`, `Scan`). A single-precision scan keeps what it cannot rule out and ranks
  that exactly: the first k of all locations, and the similarities of the heap. The bound is proved
  in the standard rounding model (each operation within a relative unit roundoff, section 4.3.1 of
  IEEE 754-2019, no underflow).
- **Writes, merges, compression** (`Locations`, `Write`, `WriteLaws`, `Conservation`, `Merge`,
  `MergeLaws`, `Runs`, `Compress`, `CompressLaws`). Each operation is a method with the source's
  loops, proved against a function; about the functions: what each leaves alone, conservation of
  counters, the neighbour graph, the learning rate, merge chains, over whole runs.
- **What they do to addresses** (`Directions`, `SelectLaws`, `JoinLaws`, `Means`, `Savings`). Said of
  coordinates, dot products and distances, without the functions that compute them: which location a
  write chooses and when it creates one; that a join blends address and input and never lowers their
  similarity; that a merge keeps every count-weighted read; that compression merges exactly when the
  bits saved exceed the scatter added, and so lowers description length plus the price of scatter.
- **Collections** (`Live`, `LiveLaws`, `Store`, `Steps`, `Consistency`, `Documents`, `Upkeep`,
  `Postings`, `Lists`, `Batches`, `PlainBatches`, `Agreement`, `Histories`, `Versions`, `Gathering`,
  `Rehoming`, `Opening`, `Collection`). `Live.Inner` is the state under
  the lock with its five caches; `Store.Store` holds the maps and commits transactions, or fails at
  any call, counting its faults; `Collection.Collection` is the operations. `Steps` says what each operation does to both
  halves. One invariant holds over every history of operations that succeed, fail and reload. The
  documents of a collection refine a plain map, whether stored inline or by reference.
- **Records** (`Bytes`, `Crc32`, `Codec`, `Records`, `Layout`). The enveloped record codec as functions on
  byte strings and as the encoder and reader that run them: round trips, canonical bytes, and
  detection of every change within four consecutive bytes by the CRC-32 of section 8 of RFC 1952.
- **Permutations, audit log, calendar** (`Permute`, `Audit`, `Calendar`).

`Wrappers` and `Sorting` hold the option and result types and Rust's stable sort and selection.
Arithmetic is over exact reals except in `Rounding` and `Scan`; the codec treats floats as opaque
64-bit and 32-bit patterns. Square roots, logarithms, bit costs, rounding to f32 and the search of a
write are an `Oracles` value of which only `Sound` is assumed: the search returns k different
locations, the most similar first, which `TopKIsNearest` proves of the scan's answer, and the ceiling
of the logarithm is monotone. Random draws, the clock and the failures of the store are parameters or
nondeterministic choices.

Where the code departs from what one would expect, the model follows the code:

- `write_batch` stores the locations it created as they were when created, after the final states of
  the modified ones (`heather_db/src/collection.rs:895-904`). `BatchKeeps` states exactly when that
  leaves the store stale. By the guards of a write: never in a non-competitive collection
  (`PlainBatchInStep`) nor with at most one pattern (`SingleStaysInStep`); with two patterns into an
  empty competitive memory exactly when the second is similar enough to join the first's location
  (`PairInStep`, for linked memories or joins that overload nothing). `BatchGoesStale` is one such input.
- `merge` deletes what it removed and never stores the changed survivors
  (`heather_db/src/collection.rs:1476-1480`). Among locations written to, the store still agrees with
  memory exactly when no two locations are more similar than `tau_merge` (`MergeStaysInStep`);
  `MergeGoesStale` merges two that are. `SurvivorsAreStale` is the exact condition with locations never
  written to, which can merge and leave nothing behind (`SeedsMergeInStep`). A flush, a compression that
  merges something, a snapshot load, any reload brings the store back in step.
- `load_snapshot_checked` leaves posting lists as they were: the index stays right exactly when the
  snapshot holds every location that has a list (`SnapshotIndex`), and any document followed by an empty
  snapshot makes it wrong (`WriteThenSnapshot`). It accepts repeated ids: `SnapshotInStep` says when the
  store still agrees, `LoadSnapshotChecked` that the invariant holds exactly without them.
- `compress` concatenates neighbour lists (`heather_db/src/collection.rs:1572`). A survivor names n as
  often as the locations merged into it did together (`CompressGathers`): it names itself exactly when
  one of them named it (`CompressNames`) and repeats an entry exactly when two of theirs are the same
  (`CompressRepeats`). `CompressNamesItself` is an input with good lists that does both.
- An overload split is said to make its two halves mutual neighbours (`heather_db/src/write.rs:378`).
  The new half names the winner exactly when the winner's neighbours leave room for one more
  (`SplitLinks`).
- A merge ignores two counts that add up to 1e-12 or less (`heather_db/src/merge.rs:67`), so
  `MergeKeepsReads` asks each count to be zero or above that.
- The codec's plain test is float equality, under which 0.0 and -0.0 agree and NaN does not: a
  signed zero can move once more at f32 (`SignedZeroMoves`, with the exact condition in
  `ReloadSettles`). Byte 7 of the header is not checked (`CanonicalBytes`).
- `AuditLog::query` with `limit == 0` can return one row; `RunQuery` answers it as limit 1.

## Model

| member | source | states |
|---|---|---|
| `Vectors.CauchySchwarz` | heather_db/src/scan.rs:48-60 | a dot product is at most the product of the norms, which turns a rounding bound over the sum of the terms' sizes into one over the two norms |
| `Vectors.Bessel` | heather_db/src/nearest.rs:9-14 | projecting onto orthonormal rows never lengthens a vector |
| `Vectors.ProjectionContracts` | heather_db/src/nearest.rs:9-14 | nor a distance |
| `KdTree.AcrossThePlane` | heather_db/src/nearest.rs:394-425 | what lies beyond a splitting plane is at least as far as the plane, the pruning test |
| `KdTree.JoinSubtrees` | heather_db/src/nearest.rs:347-386 | two covered halves and a split at the median cover the whole range |
| `KdTree.KdTree.Build` | heather_db/src/nearest.rs:325-335 | the tree of any points: `order` is a permutation and every split separates its two ranges at its value |
| `KdTree.KdTree.WidestDimension` | heather_db/src/nearest.rs:356-372 | the dimension of largest spread, the last among equals |
| `KdTree.KdTree.PartitionAtMedian` | heather_db/src/nearest.rs:373-379 | the range rearranged in place, the rest untouched, below the value before the median and above after |
| `KdTree.KdTree.SplitRange` | heather_db/src/nearest.rs:347-386 | building terminates and covers the range; earlier nodes and other ranges stay |
| `KdTree.KdTree.NearestIn` | heather_db/src/nearest.rs:394-425 | the pruned descent improves the running best exactly as scanning the range would |
| `KdTree.KdTree.NearestExcluding` | heather_db/src/nearest.rs:388-392 | a point other than `skip` at least distance, and none only if there is no other |
| `KdTree.KdTree.WithinIn` | heather_db/src/nearest.rs:431-460 | a subtree adds each of its points within r² once and nothing else |
| `KdTree.KdTree.Within` | heather_db/src/nearest.rs:427-429 | exactly the points within r², each once |
| `Nearest.NearestIsUnique` | heather_db/src/nearest.rs:59-82 | there is one most similar rival of lowest index, so searches that find it agree |
| `Nearest.BruteOne` | heather_db/src/nearest.rs:64-82 | the plain scan finds it |
| `Nearest.Brute` | heather_db/src/nearest.rs:84-115 | the tiled scan finds it for every location |
| `Nearest.Orthonormalize` | heather_db/src/nearest.rs:282-299 | the second pass leaves orthonormal rows |
| `Nearest.GramSchmidtStep` | heather_db/src/nearest.rs:282-299 | removing one component keeps the rest orthogonal |
| `Nearest.PrincipalDirections` | heather_db/src/nearest.rs:245-279 | whatever the start, the directions are orthonormal |
| `Nearest.UnitDistance` | heather_db/src/nearest.rs:9-14 | squared distance of unit addresses is 2 - 2·similarity |
| `Nearest.ProjectionStands` | heather_db/src/nearest.rs:129-215 | centred and projected, two addresses are no further apart than 2 - 2·similarity says |
| `Nearest.CandidatesSuffice` | heather_db/src/nearest.rs:129-215 | the best of the points within the bound is the best of all |
| `Nearest.SearchOne` | heather_db/src/nearest.rs:180-215 | one location's search is exact and its bound always holds |
| `Nearest.ProjectedWith` | heather_db/src/nearest.rs:129-215 | where the projection applies every answer is the plain scan's, and the fallback is never taken |
| `Nearest.NearestNeighbors` | heather_db/src/nearest.rs:49-57 | for every location its one nearest neighbour and similarity, by either way |
| `Rounding.GammaLinear` | heather_db/src/scan.rs:48-60 | (1+u)ⁿ-1 is at most 1.009999·n·u when n·u ≤ 0.0099, which leaves of the 1% margin what rounded norms need |
| `Rounding.CloseProduct` | heather_db/src/scan.rs:48-60 | rounding both factors and the product costs three roundings |
| `Rounding.Dot64Close` | heather_db/src/scan.rs:48-60 | the f64 dot product is within its rounding error of the exact one |
| `Rounding.DotF32` | heather_db/src/scan.rs:63-78 | the dot product over sixteen accumulators is within d+2 roundings of the exact one |
| `Rounding.ComputedNormCovers` | heather_db/src/scan.rs:48-60 | a norm computed in f64 falls short of the exact one by less than the margin leaves |
| `Rounding.ErrorBoundHolds` | heather_db/src/scan.rs:48-60 | the f32 and f64 dot products differ by at most `error_bound`, of norms that may fall short by a relative 4.5e-7 |
| `Rounding.BoundIsSmall` | heather_db/src/scan.rs:9-16 | for unit vectors of dimension 128 it is just under 1e-5 |
| `Scan.CutKeepsTop` | heather_db/src/scan.rs:9-16 | no location of the true top k falls below the k-th approximate score less twice the bound |
| `Scan.CutIsExact` | heather_db/src/scan.rs:9-16 | ranking what is kept gives the first k of all |
| `Scan.HeapIsTop` | heather_db/src/read.rs:50-99 | the heap's contents, ranked, have the similarities of the first k |
| `Scan.Activate` | heather_db/src/read.rs:50-99 | k different locations with the similarity list of the first k of all |
| `Scan.ScoreRows` | heather_db/src/scan.rs:124-140 | every f32 score is within the bound of the f64 one |
| `Scan.NormalizeIsUnit` | heather_db/src/vec_ops.rs:21-27 | normalizing divides each coordinate, by the norm to a vector of norm 1 |
| `Scan.ScoreIsCosine` | heather_db/src/scan.rs:104-119 | a score times the query's norm is the dot product with the query itself, within the rounding of an f64 dot product |
| `Scan.Nearest` | heather_db/src/scan.rs:84-122 | the first k of all by similarity, then index; without a usable copy the heap's answer, which has the same similarities; each the cosine of its location to the query, within rounding |
| `Write.LastGreatest` | heather_db/src/write.rs:174-183 | `max_by` picks the last of the greatest |
| `Write.Join` | heather_db/src/write.rs:238-273 | the accumulation and migration loop, against the function the laws below are about |
| `Write.Link` | heather_db/src/write.rs:287-312 | the neighbour update loop, against the function `LinkedGood` is about |
| `Write.AdaptiveWriteTwo` | heather_db/src/write.rs:94-408 | select, join or spawn, accumulate, link, split: locations, modified indices, created location, next id and rate are those of the function the laws are about |
| `WriteLaws.WriteFrame` | heather_db/src/write.rs:94-408 | a write changes only the locations it reports modified, never an id, adds at most one location under the next id, and always joins or creates something |
| `WriteLaws.SpawnLeavesContent` | heather_db/src/write.rs:225-238 | a write that spawns changes nothing of an existing location but its links |
| `WriteLaws.EtaStays` | heather_db/src/write.rs:314-315 | the rate never rises nor leaves [eta_min, eta_0] |
| `WriteLaws.LinkedGood` | heather_db/src/write.rs:287-312 | linking keeps lists free of repeats and of their owner, and those it visits within the cap |
| `WriteLaws.SplitGood` | heather_db/src/write.rs:379-398 | so do both halves of an overload split |
| `WriteLaws.WriteKeepsTidy` | heather_db/src/write.rs:282-400 | ids unique and below the next id; lists without repeats, without their owner, within the cap at the largest size reached |
| `WriteLaws.TopKIsNearest` | heather_db/src/write.rs:124-133 | the scan's answer is what a write expects of its search |
| `Directions.NormalizedIsDirection` | heather_db/src/vec_ops.rs:21-27 | `normalize` gives the vector of norm 1 that its argument is a positive multiple of, and leaves what is shorter than 1e-12 |
| `Directions.BlendApproaches` | heather_db/src/write.rs:260-271 | moving a unit address towards a unit input at any rate from 0 to 1 never lowers their similarity |
| `SelectLaws.WinnerClaimsMost` | heather_db/src/write.rs:188-208 | the winner has the largest similarity less its share of what was taken in, the last among equals |
| `SelectLaws.ConscienceIsFair` | heather_db/src/write.rs:161-161 | of equally similar locations none that took in less loses to it |
| `SelectLaws.CosineIsCoherence` | heather_db/src/vec_ops.rs:29-37 | the cosine with a normalized counter is that with the counter |
| `SelectLaws.GateChooses` | heather_db/src/write.rs:162-187 | under the gate the most coherent of those near enough wins, and is refused exactly when no location is both near and coherent |
| `SelectLaws.SpawnsWhen` | heather_db/src/write.rs:214-223 | when a write creates a location for its input, in the three modes |
| `SelectLaws.LinksEachOther` | heather_db/src/write.rs:287-312 | each activated location comes to name those activated with it, after those it named, the newest within the cap |
| `SelectLaws.SpawnNamesActivated` | heather_db/src/write.rs:331-338 | a new location names all that were activated |
| `SelectLaws.SplitLinks` | heather_db/src/write.rs:378-397 | the winner names its other half, which names the winner exactly when there is room |
| `SelectLaws.CapIs` | heather_db/src/config.rs:132-140 | no room without a cap, otherwise the larger of 2k and (k-1)·⌈ln n⌉ |
| `JoinLaws.SearchIsProper` | heather_db/src/write.rs:124-133 | what the rows below ask of a search, every search gives of locations of one size with counts that are not negative |
| `JoinLaws.JoinIs` | heather_db/src/write.rs:235-279 | what a join makes of each activated location: counter and count grow by its part of the input, the address goes to the direction of (1-r)·address + r·input, the winner pays its debt, and is halved when it splits |
| `JoinLaws.SplitsWhenOver` | heather_db/src/write.rs:345-350 | it splits exactly when count, or debt under the MDL gate, is over its limit |
| `JoinLaws.SplitCreates` | heather_db/src/write.rs:350-376 | the other half holds as much as the winner keeps, in the direction of its address plus a tenth of the random one |
| `JoinLaws.SpawnCreates` | heather_db/src/write.rs:322-330 | a new location is the input, counted once |
| `JoinLaws.GateBlendIsMean` | heather_db/src/write.rs:252-259 | under the gate n times the new address before normalizing is n-1 times the old one plus the input |
| `JoinLaws.WriteApproaches` | heather_db/src/write.rs:94-408 | a whole write of a unit input to unit addresses leaves no location less similar to it |
| `Conservation.SumJoined` | heather_db/src/write.rs:246-250 | the joins add the shares times the input, coordinate by coordinate, and the shares to the write count |
| `Conservation.SplitConserves` | heather_db/src/write.rs:363-376 | an overload split moves half of a counter and changes no total |
| `Conservation.WriteConserves` | heather_db/src/write.rs:94-408 | every write adds exactly the weight it takes in times its counter |
| `Conservation.TakenBounded` | heather_db/src/write.rs:154-159 | that weight is between 1 and k, and 1 when gated or not competitive |
| `Conservation.SharesBounded` | heather_db/src/write.rs:154-159 | so are the shares of a join, 1 also when nothing is similar |
| `Merge.SearchAgrees` | heather_db/src/merge.rs:42-47 | however the neighbours were found, they are those plain comparison finds |
| `Merge.MergePairs` | heather_db/src/merge.rs:57-113 | the merging loop, against the function the laws are about |
| `Merge.KnnMerge` | heather_db/src/merge.rs:23-128 | with the projected search, the outcome plain comparison gives |
| `Agreement.ClosestMergeFirst` | heather_db/src/merge.rs:49-62 | the first merge is of a pair that no other is more similar than |
| `Means.SurvivorIsCentroid` | heather_db/src/merge.rs:64-85 | the survivor's address is the mean of the two weighed by their counts, in a competitive memory its direction |
| `Means.MergeKeepsReads` | heather_db/src/merge.rs:76-85 | a whole merge of a memory that is not competitive keeps, for every query, the sum of count times dot product |
| `Means.MergeKeepsMoments` | heather_db/src/merge.rs:76-85 | and the sum of count times address, coordinate by coordinate |
| `SelectLaws.SurvivorNames` | heather_db/src/merge.rs:92-107 | the survivor names whom either named but neither of the two, the oldest within the cap |
| `MergeLaws.MergeIsChained` | heather_db/src/merge.rs:57-121 | each location is removed once, into one still there; the survivors keep their order |
| `MergeLaws.MergeKeepsTidy` | heather_db/src/merge.rs:92-107 | a merge keeps ids and neighbour lists as writes do |
| `MergeLaws.MergeConserves` | heather_db/src/merge.rs:64-90 | no counter and no write count is gained or lost |
| `MergeLaws.Bystander` | heather_db/src/merge.rs:57-113 | a location that survived no merge of its own is as it was |
| `MergeLaws.MergeIsMaximal` | heather_db/src/merge.rs:18-20 | of a location and its nearest neighbour above `tau_merge` at most one is left |
| `Runs.RunsStayTidy` | heather_db/src/write.rs:314-400 | over every run of writes and merges from the empty memory: ids, neighbour lists, at most one location per write, the rate |
| `Runs.EtaNeverRises` | heather_db/src/write.rs:314-315 | along every run |
| `Runs.RateDecays` | heather_db/src/write.rs:314-315 | after n writes that activated something it is eta_0·lambdaⁿ, or eta_min where that is lower |
| `Runs.RunsStayDirected` | heather_db/src/write.rs:265-272 | over every run of a competitive memory each address has norm 1 or is too short to have a direction |
| `Runs.RunsConserve` | heather_db/src/write.rs:238-273 | after every run the counters sum to what the writes put in |
| `Compress.RowsScanIsBest` | heather_db/src/collection.rs:1534-1545 | the double loop finds the first of the most similar pairs |
| `Compress.FindClosest` | heather_db/src/collection.rs:1534-1545 | the two nested loops return that pair: no pair is more similar |
| `Compress.CompressLoop` | heather_db/src/collection.rs:1529-1577 | the greedy loop terminates with the recursion's locations and merge chain |
| `CompressLaws.RoundConserves` | heather_db/src/collection.rs:1546-1573 | a round keeps every counter; the write count exactly when both locations count at least 1e-9 |
| `CompressLaws.CompressConserves` | heather_db/src/collection.rs:1529-1577 | so does the loop, and it never lowers the write count |
| `Savings.ScatterIsInertia` | heather_db/src/collection.rs:1548-1548 | the weighted squared distances of two addresses from their mean are wi·wj/(wi+wj) times their squared distance |
| `Savings.PaysWhen` | heather_db/src/collection.rs:1546-1552 | of unit addresses a merge is made exactly when the bits saved exceed the price of that scatter |
| `Savings.TwoOfThreeClose` | heather_db/src/collection.rs:1529-1533 | of three unit vectors two have a similarity of at least -1/2 |
| `Savings.AbsorbingIs` | heather_db/src/collection.rs:1553-1571 | the survivor's address has norm 1, in the direction of the weighted mean |
| `Savings.CompressPays` | heather_db/src/collection.rs:1500-1577 | addresses stay of norm 1; what compression saves in description length exceeds the price of the scatter it adds; where it stops the closest pair would not pay |
| `Savings.TotalWritesIs` | heather_db/src/collection.rs:1516-1521 | names are priced by all writes, at least one |
| `CompressLaws.CompressIsChained` | heather_db/src/collection.rs:1529-1577 | each location is removed once, into one still there; the survivors keep their order |
| `CompressLaws.RoundNames` | heather_db/src/collection.rs:1572-1572 | a round's survivor names itself exactly when it did or what it absorbs named it, and repeats nothing exactly when both lists repeat nothing and share nothing |
| `CompressLaws.CompressGathers` | heather_db/src/collection.rs:1529-1577 | a survivor of the whole loop names n as often as the locations that ended up in it did together |
| `CompressLaws.CompressNames` | heather_db/src/collection.rs:1529-1577 | it names n, itself included, exactly when one of them did |
| `CompressLaws.CompressRepeats` | heather_db/src/collection.rs:1529-1577 | it repeats an entry exactly when theirs do, taken together |
| `CompressLaws.CompressNamesItself` | heather_db/src/collection.rs:1572-1572 | three locations with good lists, of which two merge into one that names itself and names another twice |
| `CompressLaws.ResolveSurvives` | heather_db/src/collection.rs:1586-1589 | following the chain ends at a location that is never removed |
| `Live.BuiltLookupRight` | heather_db/src/read.rs:233-240 | the lookup gives each id its index and no other id anything |
| `Live.LandmarksInRange` | heather_db/src/read.rs:215-228 | landmarks are indices of locations |
| `Live.LandmarksAreTop` | heather_db/src/read.rs:215-228 | as many as wanted, each once, and no other location is written more than one of them |
| `Live.RefreshedIsRecent` | heather_db/src/collection.rs:314-323 | after a refresh there are enough of them, chosen less than a quarter or 256 locations ago |
| `Live.MaxNormReached` | heather_db/src/collection.rs:276-285 | the norm bound is the one there was or a location's own |
| `Live.SyncIsRight` | heather_db/src/collection.rs:336-347 | syncing the changed rows makes every cache right again |
| `Live.AppendIsRight` | heather_db/src/collection.rs:349-378 | appending keeps every cache right |
| `Live.RebuildIsRight` | heather_db/src/collection.rs:297-302 | a rebuild makes every cache right |
| `Live.Inner.RebuildGraphCache` | heather_db/src/collection.rs:297-302 | lookup, landmarks, rows, f32 rows and norm bound are those rebuilt from the locations; nothing else changes |
| `Live.Inner.RefreshLandmarks` | heather_db/src/collection.rs:314-323 | re-selection while there are too few, or after a quarter of growth, at least 256 |
| `Live.Inner.SyncAddresses` | heather_db/src/collection.rs:336-347 | only rows, f32 rows and bound change, index by index as `SyncIsRight` needs |
| `Live.Inner.ExtendIdLookup` | heather_db/src/collection.rs:369-377 | the new locations entered in turn, the lookup grown to fit |
| `Live.Inner.AppendAddresses` | heather_db/src/collection.rs:351-359 | the rows of the new locations follow, the bound covers them, landmarks are refreshed |
| `Live.BuildIdLookup` | heather_db/src/read.rs:233-240 | the two loops build the lookup `BuiltLookupRight` is about |
| `LiveLaws.WriteKeepsLive` | heather_db/src/collection.rs:718-726 | taking over a write keeps sizes, unique ids and all caches right |
| `LiveLaws.MergeKeepsLive` | heather_db/src/collection.rs:1483-1486 | so does a merge and its rebuild |
| `LiveLaws.CompressKeepsLive` | heather_db/src/collection.rs:1616-1616 | and a compression |
| `LiveLaws.QuietMerge` | heather_db/src/collection.rs:1448-1486 | a merge that removes nothing changes nothing, so it needs neither store nor rebuild |
| `LiveLaws.ComputedNormsCover` | heather_db/src/collection.rs:264-267 | norms computed in f64 are norms the error bound allows |
| `LiveLaws.RootsCover` | heather_db/src/collection.rs:264-267 | so are exact ones |
| `LiveLaws.CachesServeScans` | heather_db/src/collection.rs:264-267 | right caches are the rounded rows and norm bound the exact search asks for |
| `Store.Store.Commit` | heather_db/src/collection.rs:691-716 | a transaction takes effect whole, or not at all |
| `Store.Store.LoadAllLocations` | heather_db/src/store.rs:297-311 | every stored location, in the order of the keys |
| `Store.DeleteDocument` | heather_db/src/store.rs:643-679 | the document goes, from every list; lists it empties go |
| `Consistency.StoredAt` | heather_db/src/collection.rs:692-701 | after a write each location is stored as it is, or was not touched |
| `Consistency.WriteStays` | heather_db/src/collection.rs:692-726 | a write keeps live and stored locations the same |
| `Documents.WroteKeeps` | heather_db/src/collection.rs:648-820 | `write` and `write_two` keep the invariant, agreement with a reload, and every document |
| `Documents.PlainIsStored` | heather_db/src/collection.rs:456-468 | the location a plain document refers to is stored, with its vector as address |
| `Documents.StoredByReference` | heather_db/src/collection.rs:456-468 | documents are stored by reference in exactly the memories that are not competitive |
| `Documents.WroteDocumentKeeps` | heather_db/src/collection.rs:1656-1781 | `write_with_metadata` keeps both and adds exactly its document, under an id not in use |
| `Upkeep.AddressRight` | heather_db/src/collection.rs:362-366 | `location_address` finds each live location |
| `Upkeep.EveryDocumentResolves` | heather_db/src/collection.rs:1951-1961 | every stored document resolves to what it was written with |
| `Upkeep.MaterializeKeeps` | heather_db/src/collection.rs:1969-1988 | materializing leaves no reference and changes no document |
| `Upkeep.MergedKeeps` | heather_db/src/collection.rs:1437-1490 | `merge` keeps the invariant and every document |
| `Upkeep.SurvivorsAreStale` | heather_db/src/collection.rs:1448-1481 | after a merge memory agrees with a reload exactly when every survivor is, unchanged, a location from before |
| `Upkeep.CompressedKeeps` | heather_db/src/collection.rs:1513-1627 | `compress` keeps the invariant and every document, and brings the store in step when it merges |
| `Upkeep.FlushedKeeps` | heather_db/src/collection.rs:1630-1652 | `flush` brings the store in step, whatever was stale |
| `Upkeep.DeletedKeeps` | heather_db/src/collection.rs:2020-2028 | a deletion removes exactly its document |
| `Upkeep.SnapshotKeeps` | heather_db/src/collection.rs:2575-2612 | a snapshot with distinct ids replaces every location and no document, in step with the store |
| `Upkeep.SnapshotInStep` | heather_db/src/collection.rs:2580-2609 | the store agrees with a loaded snapshot exactly when locations that share an id are the same |
| `Upkeep.ReloadKeeps` | heather_db/src/collection.rs:571-637 | a reload is in order and in step with the store |
| `Upkeep.FailedKeeps` | heather_db/src/collection.rs:418-444 | a failed mutation keeps every document and ends reloaded, untouched or out of use |
| `Postings.WroteDocumentIndex` | heather_db/src/collection.rs:1698-1745 | a document write indexes its document, under at least one stored location |
| `Postings.MovedOff` | heather_db/src/collection.rs:1451-1474 | no posting list stays on a removed location, even where its survivor was removed later |
| `Lists.WrittenUnder` | heather_db/src/collection.rs:1741-1745 | a document write adds its document to the lists of exactly the locations it joined or created |
| `Lists.MergedLists` | heather_db/src/collection.rs:1451-1474 | after a merge a document is listed under a location exactly when it was under one that ended up in it |
| `Lists.CompressedLists` | heather_db/src/collection.rs:1583-1611 | so after a compression |
| `Postings.MergedIndex` | heather_db/src/collection.rs:1451-1480 | after a merge the lists name exactly the stored documents, on stored locations |
| `Postings.CompressedIndex` | heather_db/src/collection.rs:1583-1615 | so after a compression, through the whole chain |
| `Postings.SnapshotIndex` | heather_db/src/collection.rs:2580-2609 | after a snapshot load the index is right exactly when every location that has a list is in the snapshot |
| `Postings.EmptySnapshotStrands` | heather_db/src/collection.rs:2580-2609 | with any document stored, the empty snapshot leaves a list on a location that is gone |
| `Postings.WriteThenSnapshot` | heather_db/src/collection.rs:2580-2609 | so after any document write |
| `Postings.DeletedIndex` | heather_db/src/store.rs:643-679 | so after a deletion |
| `Batches.SameIndex` | heather_db/src/collection.rs:1902-1910 | a batch's documents and posting lists, as sequences, are those of its items in turn |
| `Batches.SameLocations` | heather_db/src/collection.rs:1897-1900 | touched locations are stored in their final state, the others as before |
| `Batches.BatchIsSequence` | heather_db/src/collection.rs:1783-1935 | `write_batch_with_metadata` leaves what `write_with_metadata` leaves item by item, `version` aside, in whatever order it stores |
| `Batches.BatchIds` | heather_db/src/collection.rs:1854-1855 | and returns the same ids |
| `Batches.InTurnKeeps` | heather_db/src/collection.rs:1656-1781 | writes in turn add exactly their documents and keep agreement and index |
| `PlainBatches.BatchAccumulates` | heather_db/src/collection.rs:844-890 | what `write_batch` gathers: final states, and clones as created |
| `PlainBatches.BatchKeeps` | heather_db/src/collection.rs:892-921 | it keeps invariant, documents and index, and agrees with a reload exactly when every location it created is at the end as it was created |
| `Agreement.BatchIsEachWritten` | heather_db/src/collection.rs:823-923 | `write_batch` leaves the memory its patterns leave one by one, and the store they leave exactly when it stays in step |
| `PlainBatches.PlainBatchInStep` | heather_db/src/collection.rs:883-904 | a non-competitive batch never goes stale |
| `Agreement.MergesByGuard` | heather_db/src/merge.rs:42-62 | a merge merges something exactly when two locations with a direction are more similar than `tau_merge` |
| `Agreement.LoopGrows` | heather_db/src/merge.rs:64-90 | write counts never fall, and of written locations some survivor counts more than before |
| `Agreement.MergeStaysInStep` | heather_db/src/collection.rs:1437-1490 | a merge of written locations leaves memory as a reload would rebuild it exactly when no two are that similar |
| `Agreement.MergeGoesStale` | heather_db/src/collection.rs:1476-1480 | two alike that were written to, in step before, stale after |
| `Agreement.SeedsMergeInStep` | heather_db/src/collection.rs:1476-1480 | two alike never written to merge and stay in step |
| `Agreement.SingleStaysInStep` | heather_db/src/collection.rs:883-904 | a batch of at most one pattern never goes stale |
| `Agreement.SecondChanges` | heather_db/src/write.rs:225-273 | on a memory of one location written once, a spawn leaves it as it was and a join changes it |
| `Agreement.PairInStep` | heather_db/src/collection.rs:823-923 | a batch of two patterns into an empty competitive memory stays in step exactly when the second fails the test for joining the first's location |
| `Agreement.BatchGoesStale` | heather_db/src/collection.rs:895-904 | the same pattern twice leaves the store stale |
| `Histories.StepKeeps` | heather_db/src/collection.rs:388-444 | every operation, succeeding or failing at any call, keeps the invariant, acts on the documents as on a plain map, keeps the index exactly unless it loads a snapshot without a location that has a list, and keeps agreement unless it merges what is similar or writes a batch of several |
| `Histories.HistoriesKeep` | heather_db/src/collection.rs:388-444 | the invariant holds in every history |
| `Histories.DocumentsAreStable` | heather_db/src/collection.rs:1963-1968 | over every history an id keeps its vector and metadata until it is deleted |
| `Histories.WrittenDocumentIsRead` | heather_db/src/collection.rs:1938-1961 | `get_document` returns what was written |
| `Histories.IndexStaysRight` | heather_db/src/collection.rs:1698-1745 | over every history whose snapshots hold the locations that have lists, the posting lists name exactly the stored documents, on locations that exist |
| `Histories.IndexGoesWrong` | heather_db/src/collection.rs:2580-2609 | and the first snapshot that does not makes them wrong |
| `Histories.StaysInStep` | heather_db/src/collection.rs:388-444 | over every history, failures and reopenings included, memory stays what a reload would rebuild while nothing similar is merged and no batch of several moves locations |
| `Versions.VersionTells` | heather_db/src/collection.rs:266-269 | the version never falls while a collection stays open, and is the same again only if no write, batch, merge or snapshot load succeeded in between |
| `Versions.SnapshotDiscardsNothing` | heather_db/src/collection.rs:2567-2574 | so a snapshot load that expects the version it was read at discards none of them |
| `Versions.SameVersionSameLocations` | heather_db/src/collection.rs:266-269 | between two readings of one version only compressions change the stored locations |
| `Histories.CachesStayRight` | heather_db/src/collection.rs:254-267 | over every history the caches are what a rebuild makes them |
| `Histories.InStepIsReload` | heather_db/src/collection.rs:388-390 | agreement means: the same locations and counters as a reload brings back |
| `Histories.CreatedIsRight` | heather_db/src/collection.rs:501-568 | a new collection starts every history well |
| `Collection.Collection.Recover` | heather_db/src/collection.rs:418-444 | the drop of an abandoned mutation: reloaded with its version kept, or out of use, and that only when the reload met a fault of the store |
| `Collection.Collection.WriteTwo` | heather_db/src/collection.rs:648-820 | with any call of the store failing, the result is a step that `StepKeeps` covers and the invariant holds; it succeeds unless refused or a call of the store failed, and ends out of use only when the reload failed too; wrong dimensions change nothing |
| `Collection.Collection.WriteBatch` | heather_db/src/collection.rs:823-923 | the same of `write_batch`, which stores its clones last |
| `Collection.Collection.WriteWithMetadata` | heather_db/src/collection.rs:1656-1781 | the same of a document write, which returns the id given out |
| `Collection.Collection.WriteBatchWithMetadata` | heather_db/src/collection.rs:1795-1935 | the same of a batch of documents, which returns consecutive ids from the next one |
| `Collection.Collection.MaterializeRefs` | heather_db/src/collection.rs:1969-1988 | the loop over documents and its own transaction |
| `Collection.Collection.MergeSimilar` | heather_db/src/collection.rs:1437-1490 | the same of a merge after its own materializing transaction; returns how many were merged away |
| `Rehoming.Follow` | heather_db/src/collection.rs:1586-1589 | the loop through `parent` terminates at the final survivor |
| `Rehoming.RetireAll` | heather_db/src/collection.rs:1585-1611 | each removed location retired, its documents with its final survivor |
| `Collection.Collection.CompressAllLocations` | heather_db/src/collection.rs:1513-1627 | the same of a compression; returns the locations before and after |
| `Collection.Collection.FlushAll` | heather_db/src/collection.rs:1630-1652 | the same of a flush, which never changes the memory |
| `Collection.Collection.DeleteDocument` | heather_db/src/collection.rs:2020-2028 | the same of a deletion; returns whether the document existed |
| `Collection.Collection.GetDocument` | heather_db/src/collection.rs:1938-1946 | exactly the document written, or none; a reference never dangles |
| `Collection.Collection.LoadSnapshotChecked` | heather_db/src/collection.rs:2542-2613 | the snapshot replaces the locations, or nothing is changed but documents given their vectors; a stale version is refused; the invariant holds afterwards exactly when ids are distinct and counters of the right size |
| `Collection.Create` | heather_db/src/collection.rs:501-568 | `new` over an empty store, or nothing stored |
| `Collection.Open` | heather_db/src/collection.rs:571-637 | `load`: what the store holds, in order |
| `Crc32.RegisterInjective` | heather_db/src/codec.rs:225-269 | the register step is injective in the state, over any bytes |
| `Crc32.RegisterWord` | heather_db/src/codec.rs:225-269 | up to four bytes act on the register as one word |
| `Crc32.BurstChangesCrc` | heather_db/src/codec.rs:225-269 | any change within four consecutive bytes changes the checksum |
| `Codec.EnvelopeOpens` | heather_db/src/codec.rs:225-269 | what the envelope wraps, opening returns |
| `Codec.LocationRoundTrip` | heather_db/src/codec.rs:101-164 | a location decodes to itself at its stored precision |
| `Codec.ExactRoundTrip` | heather_db/src/codec.rs:101-164 | at f64 to itself, the counter of a plain one up to float equality |
| `Codec.DocumentRoundTrip` | heather_db/src/codec.rs:166-223 | so do documents and references |
| `Codec.OnlyPrintedParses` | heather_db/src/codec.rs:135-164 | a location payload that decodes, at either precision, is one the encoder prints, to the last byte (at f32, NaNs aside) |
| `Codec.OnlyPrintedDocument` | heather_db/src/codec.rs:200-223 | so is a document payload |
| `Codec.OpenedBytes` | heather_db/src/codec.rs:240-269 | bytes that open are an envelope, reserved byte aside |
| `Codec.CanonicalBytes` | heather_db/src/codec.rs:101-164 | a record re-encodes at its precision to its own bytes exactly when its kind is the one its value takes and its reserved byte is zero |
| `Codec.CanonicalDocument` | heather_db/src/codec.rs:166-223 | a document record exactly when its reserved byte is zero, and decodes to the same again |
| `Codec.ReencodeIsStable` | heather_db/src/codec.rs:101-164 | what a record of either precision decodes to re-encodes at f64 to one that decodes the same |
| `Codec.ReencodeKeepsPrecision` | heather_db/src/codec.rs:101-164 | and at its own precision, as a store does, where it always fits |
| `Codec.ReloadSettles` | heather_db/src/codec.rs:101-164 | one round trip is a fixed point up to float equality, two are one, and one is exactly when stated |
| `Codec.SignedZeroMoves` | heather_db/src/codec.rs:106-112 | a counter rounding to -0.0 beside an address of 0.0 moves once more |
| `Codec.BurstIsRefused` | heather_db/src/codec.rs:240-269 | a payload changed within four bytes fails its checksum |
| `Codec.DamagedLocationRefused` | heather_db/src/codec.rs:135-164 | so a damaged location is refused |
| `Codec.DamagedDocumentRefused` | heather_db/src/codec.rs:200-223 | and a damaged document |
| `Layout.HeaderLayout` | heather_db/src/codec.rs:225-238 | the offset of every header field, the checksum little-endian |
| `Layout.RecordKinds` | heather_db/src/codec.rs:59-62 | byte 5 is 1 or 3 for a location with two vectors or one, 2 or 4 for a document with its vector or by reference |
| `Layout.MagicTells` | heather_db/src/codec.rs:87-99 | a value is an envelope exactly when it starts with the magic; cut short it is refused |
| `Layout.NaNPatterns` | heather_db/src/codec.rs:108-108 | which patterns float equality treats as not-a-number and as zero |
| `Layout.PayloadLayout` | heather_db/src/codec.rs:101-133 | the offset of every field of a location |
| `Layout.NumberAt` | heather_db/src/codec.rs:110-124 | the i-th of a run of numbers is at i times their width |
| `Layout.LeDigit` | heather_db/src/codec.rs:110-124 | byte i of a number is its i-th digit to base 256 |
| `Layout.CheckValue` | heather_db/src/codec.rs:225-238 | the CRC of the digits 1 to 9 is its published check value 0xCBF43926 |
| `Layout.ReferenceRecord` | heather_db/src/codec.rs:669-670 | the 35 bytes of the repository's sample of a document by reference |
| `Records.EncodeLocation` | heather_db/src/codec.rs:101-133 | appending field by field gives the bytes the round trips are about |
| `Records.EncodeDocument` | heather_db/src/codec.rs:166-187 | the same for a document and a reference |
| `Records.Reader.Floats` | heather_db/src/codec.rs:360-379 | the reader advances past exactly what it returns, or not at all |
| `Records.DecodeLocation` | heather_db/src/codec.rs:135-164 | on every byte string, the advancing reader answers as the parser, errors included |
| `Records.DecodeDocument` | heather_db/src/codec.rs:200-223 | the same for documents |
| `Calendar.YearContains` | heather_server/src/cli.rs:147-147 | the closed formula finds the year of the era that holds the day |
| `Calendar.MonthLengthIsCalendar` | heather_server/src/cli.rs:149-153 | the 153-day month arithmetic gives the lengths of section 5.7 of RFC 3339, leap rule included |
| `Calendar.CountsTheCalendar` | heather_server/src/cli.rs:143-155 | day 0 is 1970-01-01 and each day is the calendar successor of the one before, negative days included |
| `Calendar.IsBijection` | heather_server/src/cli.rs:143-155 | day counts and valid dates correspond one to one |
| `Calendar.CastsInRange` | heather_server/src/cli.rs:146-152 | every cast to u32 is in range |
| `Calendar.StaysInI64` | heather_server/src/cli.rs:143-148 | no i64 overflow from any day count but the last 719468 |
| `Calendar.FieldsInRange` | heather_server/src/cli.rs:131-141 | the fields are a date and a time of day that add up to the second |
| `Calendar.FieldsDetermineSecond` | heather_server/src/cli.rs:131-141 | and determine it |
| `Permute.FromIndices` | heather_algebra/src/permute.rs:63-77 | accepts exactly the bijections, with their inverse |
| `Permute.PowIndices` | heather_algebra/src/permute.rs:167-187 | the composed index map is the power |
| `Permute.PowerIsBijective` | heather_algebra/src/permute.rs:167-187 | every integer power is a bijection |
| `Permute.ApplyPow` | heather_algebra/src/permute.rs:148-157 | repeated gathering applies the power |
| `Permute.PowersCompose` | heather_algebra/src/permute.rs:148-157 | for all integers, powers add and the negative undoes |
| `Permute.InnerProductKept` | heather_algebra/src/permute.rs:128-146 | inner products are kept |
| `Permute.Cycles` | heather_algebra/src/permute.rs:211-232 | terminates with cycles that hold every coordinate once |
| `Permute.PowerAlongCycle` | heather_algebra/src/permute.rs:211-232 | the k-th power moves the value at place t of a cycle to place t+k |
| `Permute.PermuteSnapshot` | heather_algebra/src/permute.rs:403-425 | every address and counter permuted, nothing else |
| `Permute.SnapshotUndone` | heather_algebra/src/permute.rs:403-425 | the negative power undoes it |
| `Audit.KeyOrderIsTimeOrder` | heather_db/src/audit.rs:388-410 | byte order of keys is order by time, then sequence number |
| `Audit.PruneRows` | heather_db/src/store.rs:766-794 | exactly the newest rows within the count and the age |
| `Audit.NewestWithinIsUnique` | heather_db/src/store.rs:766-794 | which are determined |
| `Audit.RunQuery` | heather_db/src/audit.rs:370-384 | the newest matching rows, at most `limit`, among the newest `max_scan` |
| `Audit.AnswerIs` | heather_db/src/audit.rs:239-248 | each answer is the record of a stored row of the times, user, collection and route asked for, the newest first, and no such row is left out where there is room |
| `Audit.AuditLog.Open` | heather_db/src/audit.rs:264-272 | resumes the sequence after the highest key |
| `Audit.AuditLog.Record` | heather_db/src/audit.rs:297-314 | stages a record or drops it when full |
| `Audit.AuditLog.Ask` | heather_db/src/audit.rs:370-384 | `query` over what is stored, in every state a run can reach |
| `Audit.AuditLog.Flush` | heather_db/src/audit.rs:321-368 | persists the buffer and prunes, or loses it |
| `Audit.FlushRetains` | heather_db/src/audit.rs:321-353 | what a committed flush leaves: the newest rows, within count and days, and it prunes no more than these ask |
| `Audit.RunsAreSound` | heather_db/src/audit.rs:264-368 | over every run with a clock that does not run back: keys follow record order, and accepted = stored + pending + dropped + pruned + lost, with nothing lost while flushes commit and no buffer is discarded |

## Left out

- Scan.Nearest: proved for (d+3)·2⁻²⁴ ≤ 0.0099, beyond which the documented 1% margin does not cover the second-order terms.
- Collection.Collection.LoadSnapshotChecked: the engine checks neither distinct ids nor the counters' dimension; what its operations do to a collection loaded without them is not modelled.
- Histories.StepKeeps: stores at f64 precision; at f32 a stored vector is the rounded one, whose fixed point is in `Codec.ReloadSettles`.
- Agreement.PairInStep: in a memory without links, a join that also overloads its location is not covered; halved, it may come back to what was stored. Batches of more patterns have the condition of `PlainBatches.BatchKeeps`.
- Codec.OnlyPrintedParses: an f32 NaN may change its bits when it is cast, so f32 vectors that hold one are left out, here and in the lemmas built on it.
- Calendar.FieldsDetermineSecond: the fields, not the padded text made of them.
- Codec.DocumentRoundTrip: values without the envelope decode to a `Legacy` outcome; their bincode layout is not part of this model.
- Audit.RunsAreSound: sequential callers and a clock that does not run back.
- Concurrency finer than one operation: the collection lock makes each operation one atomic step; `get_document` reads the store before it takes the lock.
- Rounding outside `Rounding` and `Scan`, and underflow: exact reals. A division the engine has ruled out to be by zero is `Quotient`.
- The flat row-major buffers are sequences of rows; `u32::MAX`, `usize::MAX` and minus infinity as sentinels are options; index and id widths are unbounded.
- The sets and maps a batch gathers are stored in an arbitrary order, of which the result is proved independent.
- Description lengths reported by `compress`: two formulas with nothing to prove.
- Records that do not decode and are skipped on load, and the verification report: every stored record is one the engine encoded.
- Files, locks, HTTP, authentication, commands and configuration files: input and output.
- Hopfield reads, attention, softmax, composition, routing, graph recall: tuned constants and exponentials, with little to prove exactly.
- `rotate`, Fourier transforms and seeded permutations: trigonometry and random generators.
- The quality of the principal directions: exactness depends only on their being orthonormal.
- Rayon: parallel maps are sequential.
