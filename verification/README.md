# defiads: a verified model

defiads nodes replicate a set of ads. Every ad is funded by a bitcoin transaction, so a node follows the bitcoin chain,
stores the ads whose funding it can prove, and brings its set in line with its peers. This project models the parts
on which that agreement rests, and proves what they promise for all inputs, all runs and all interleavings.

`dafny verify dfyconfig.toml` checks the whole project.

## What is modelled

| files | part of the system |
|---|---|
| `Keys`, `Algebra`, `Iblt`, `Peeling`, `Listing`, `IbltIterator`, `HashPurity`, `Difference` | the invertible Bloom lookup table, its algebra, and the iterator that lists the difference of two sets by peeling |
| `Sketch`, `Caches`, `ContentDb`, `ContentStore`, `StoreRuns`, `ChainRuns` | the min sketch, the table of ads, the store with its caches, and what both are worth after any run against a moving chain |
| `Exchange`, `Updater` | the exchange of polls, cached tables, requests and contents between two nodes, and the handlers of a node |
| `SyncProtocol`, `Convergence`, `OneExchange` | the idea behind the exchange, with sets of keys in place of tables |
| `Refinement`, `Simulation`, `StaleTables`, `NearTables`, `NearAgreement`, `Overlap`, `Agreement` | when nodes follow that idea, when they end up with the same ads although they do not, and what happens otherwise |
| `BlockDownload`, `DownloadRuns`, `Startup`, `ReorganisedRuns` | the queues that carry blocks to the store in chain order, reorganisations, and start-up after a fork |
| `WalletFees` | how the wallet assembles a transaction and takes its fee |
| `Unicode`, `TextCodec` | UTF-8 (section 3 of RFC 3629), UTF-16 (section 2 of RFC 2781) and the space-saving text format |

Code that updates objects in place is modelled by classes and loops. Each method is tied to a function on values, and the
properties are proved about those functions. Foreign code enters as a parameter: the keyed hash, compression, the
digest and length of a serialized ad, the funding script, the signer with the weight of a signed transaction, the answers of
the header database, the order in which the database answers a query, busy flags and the estimate of the difference of two
sketches. Two hypotheses are stated where they are needed: `NoFalsePurity` (a bucket that looks pure after part of
a difference was taken out holds a single key), which follows from a condition
on the keyed hash alone (`HashPurity.HashTells`), and `Inverts` (decompression undoes compression).

The nodes of `Exchange` carry their cached tables, and the tables on the wire are the bucket sequences taken from these caches.
`Updater` shows that each handler of a node is a step of `Exchange`, whatever its tables are worth.
`Simulation` shows that an exchange is a run of the set protocol as long as no content arrives at a node that holds it
and caches tables, and that this is so if no table is sent while something of the previous one is on its way. `NearAgreement` shows
that overlapping exchanges also end well as long as decoded tables count no key two times more or less than the own ones and give everything away.

## Where the code falls short of its promise

The model follows the code. Where a promise does not hold, the project has the exact condition under which it does.

- A cached table is exact if and only if no row was stored again while it was cached: `add_content` updates the caches even if the row exists (`StoreRuns.CachedTablesExact`; for the nodes of an exchange `StaleTables.NodesExactly`). A peer then asks for what it holds (`NearTables.RepeatedIsRequested`), or for a row that the node does not hold, which stops the node (`Overlap.OverlapStopsNode`, `Agreement.SystemNodesStop`). The latter takes a key that is counted two times more or less in one table than in the other (`NearTables.NearExchangesAnswer`). Exchanges without overlapping tables are safe (`Agreement.NodesAgree`).
- Content is stored as the string of its text. Accepted content whose text cannot be decoded stops the node, after the caches took its key, exactly if it would be accepted (`ContentStore.ContentStore.AddContent`, `Updater.Updater.OnContent`); `ContentStore.UnreadableIsAccepted` is such a content.
- Reading a row encodes its text anew, so an ad whose text is not encoded as a node would encode it comes back under another digest (`ContentDb.ReadAfterStore`), which a peer stores only if a transaction commits to that digest too (`ContentStore.AnsweredUnderAnother`). `ContentDb.EmptyTextIsNotCanonical` is such a text.
- The sketch and the counter of keys are recomputed after a deletion only if some table is cached. What they are off by is `StoreRuns.SketchAndCounter`.
- A clean end of a listing does not mean that everything was listed, unless one set contains the other (`Difference.CleanEndCanHideKeys`, `Difference.OneSidedCleanIsComplete`).
- `start` in `p2p_bitcoin.rs` walks from the last processed block down to the trunk in a variable that shadows the one it hands to the block download. After a fork the download looks for a block that is not on its way, and either never ends or wants blocks again (`Startup.StartupMeetsPromise`, `Startup.EndsExactly`, `Startup.ForkAtFirstBlockHangs`).
- Blocks are wanted for every stored header, whether it moved the tip or not, and only for headers later than the birth. The blocks on their way are the trunk if and only if these are the same headers (`DownloadRuns.PipelineIsTrunk`, `DownloadRuns.SideBranchIsWanted`).
- A reorganisation that reaches into the blocks being asked for leaves abandoned blocks among them (`DownloadRuns.ReorganisationExact`). Unless all blocks wanted and asked for are taken back, a block is recorded as processed that the store has not seen (`DownloadRuns.ProcessedIsLastDone`), and after a restart the store never gets it (`ReorganisedRuns.RestartLosesBlocks`). If part of the new branch came in an earlier message, blocks of the new branch are dropped instead of abandoned ones (`DownloadRuns.SplitForkRemainder`).
- `amount - fee` is unchecked. If the fee exceeds the amount, the release build returns a transaction that pays more than its inputs (`WalletFees.SuccessBalances`, `WalletFees.AmountBelowFeeSucceeds`).
- A row is accepted while height + term is at least the tip height and expires when it is at most the height of a new header, so a row on the boundary is stored and goes with the next header (`ChainRuns.RowsAreSound` states the bound that holds). Transactions with a negative version pass the check for version 2 (`ContentStore.AcceptedExactly`).
- `design/protocol.md` lets a node ask for a larger table when it fails to enumerate a difference. The code asks for what it could list and stops.

## Model

| member | source | states |
|---|---|---|
| `Keys.WordLaws` | src/iblt.rs:99-118 | exclusive or of 64 bit hashes is a commutative group in which each element is its own inverse |
| `Keys.ContentKeyLaws` | src/content.rs:42-46 | the same for the 32 byte digests of ads |
| `Keys.NetAddressLaws` | src/discovery.rs:250-255 | the same for peer addresses with their ports |
| `Keys.XorAssignDigest` | src/content.rs:42-46 | the update in place is the exclusive or of the two keys, byte by byte |
| `Keys.AddressBytesAre` | src/discovery.rs:257-269 | the bytes hashed for an address are those of its words in turn, the low byte first |
| `Algebra.StandardIsUsable` | src/iblt.rs:80-96 | with one to six hash functions, plain words and hashes modulo the size, the hypotheses of all table lemmas hold |
| `Algebra.SystemSchemesAreUsable` | src/db.rs:442-485 | so they hold for the tables of ads and the tables of addresses, whatever the keyed hash is |
| `Algebra.ToggledEncodes` | src/iblt.rs:99-118 | inserting or deleting a key in the encoding of any signed multiset is the encoding with that multiplicity changed by one |
| `Algebra.SubtractedEncodes` | src/iblt.rs:131-142 | subtracting two tables encodes the difference of their multiplicities |
| `Algebra.ReplayEncodesNet` | src/iblt.rs:99-118 | any history of insertions and deletions leaves the encoding of its net multiplicities |
| `Algebra.OrderDoesNotMatter` | src/iblt.rs:99-118 | two histories with the same net multiplicities leave the same table |
| `Algebra.ToggleUndoes` | src/iblt.rs:99-118 | on any table a deletion undoes an insertion and the other way round |
| `Iblt.BucketListComplete` | src/iblt.rs:212-241 | the list of buckets of a key is strictly ascending and holds every hashed bucket, however the hashes collide |
| `Iblt.BucketIterator.Next` | src/iblt.rs:228-241 | yields the buckets of the key one by one in the order of the list, and then nothing |
| `Iblt.Buckets` | src/iblt.rs:212-241 | running the iterator to its end gives exactly the distinct buckets of the key |
| `Iblt.Iblt.Insert` | src/iblt.rs:99-107 | adds the key once to each of its buckets and leaves the others |
| `Iblt.Iblt.Delete` | src/iblt.rs:110-118 | takes the key once out of each of its buckets and leaves the others |
| `Iblt.Iblt.Substract` | src/iblt.rs:131-142 | subtracts the other table bucket by bucket |
| `Peeling.SoleBucket` | src/iblt.rs:276-281 | a bucket with a single remaining key shows that key, its hash and its sign, so it looks pure |
| `Peeling.PureMeansSole` | src/iblt.rs:276-281 | without false purity a bucket looks pure exactly when it holds a single key, for every part of the difference |
| `Peeling.TakeOut` | src/iblt.rs:293-306 | taking out a key with its sign leaves exactly the encoding of the others |
| `Peeling.QueuedShowsKey` | src/iblt.rs:293-297 | a queued bucket with count one in absolute value shows the only key it holds, though its hash is not looked at again |
| `Peeling.DropStale` | src/iblt.rs:293-295 | a queued bucket with another count has lost its key and can be dropped |
| `Peeling.PeelStep` | src/iblt.rs:296-311 | one peeling step keeps the invariant of the queue, and no bucket it queues was ever queued before |
| `Peeling.VisitAllDone` | src/iblt.rs:298-311 | updating and queueing bucket by bucket is one change of the table, followed by queueing exactly the buckets of the key that became pure, in ascending order |
| `Peeling.DrainedIsCore` | src/iblt.rs:293-318 | when the queue is empty, what is left is the greatest part of the difference in which no bucket holds exactly one key |
| `Peeling.AnyOrderSameRemainder` | src/iblt.rs:293-318 | peeling in any order until nothing can be peeled leaves that same remainder |
| `IbltIterator.IbltIterator.constructor` | src/iblt.rs:274-283 | queues the buckets that look pure; which these are is `HashPurity.QueuedFirst` |
| `Listing.StartIsSound` | src/iblt.rs:274-283 | on the table of a difference this queue starts the invariant |
| `IbltIterator.IbltIterator.TakeKey` | src/iblt.rs:296-311 | the loop over the buckets of a key takes the key out of the table at once and queues exactly its buckets that became pure; which these are is `HashPurity.QueuedNext` |
| `HashPurity.QueuedFirst` | src/iblt.rs:274-283 | the first queue holds exactly the buckets with count 1 or -1 whose hash sum is the keyed hash of their key sum, each once and in ascending order |
| `HashPurity.QueuedNext` | src/iblt.rs:296-311 | taking out a key appends exactly the buckets of the key that are of this kind afterwards, each once and in ascending order |
| `HashPurity.StandardPlaces` | src/iblt.rs:212-223 | the buckets of a key are its hashes modulo the size of the table |
| `HashPurity.ToggledFields` | src/iblt.rs:99-118 | an insertion or deletion changes key sum, hash sum and count of the buckets of the key as it should, and no other bucket |
| `HashPurity.BucketIsMix` | src/iblt.rs:99-118 | a bucket of a difference holds the exclusive or of its keys and that of their hashes, whatever their sides |
| `HashPurity.HashTellsKeys` | src/iblt.rs:276-281 | if wherever two or more keys of any part of the difference meet in a bucket the hash of their exclusive or is not the exclusive or of their hashes, no mixture of keys is taken for a key |
| `IbltIterator.IbltIterator.Pop` | src/iblt.rs:293-317 | one round of the loop: one bucket is taken from the queue, and its key is taken out if its count is one in absolute value |
| `Listing.PopIsSound` | src/iblt.rs:293-317 | on the table of a difference this lists a key that was not listed, on its side of the difference, or drops a bucket without a key, and queues no bucket a second time |
| `IbltIterator.IbltIterator.Next` | src/iblt.rs:289-326 | on any table: pops until a key is found; without one it ends with an error exactly if some count is not zero, and then for good |
| `Listing.ListedIsSound` | src/iblt.rs:273-318 | after any number of keys the table of a difference is exactly the encoding of the keys not yet listed, and each listed key was listed once and on its side |
| `Listing.ListingIsExact` | src/iblt.rs:274-326 | a full listing holds exactly the keys outside the core, once each and on their side, is clean exactly if the counts of the core cancel, and takes at most as many buckets from the queue as the table has |
| `Listing.ListingEnds` | src/iblt.rs:274-326 | the listing of a difference ends |
| `Difference.TablesSubtract` | src/iblt.rs:131-142 | subtracting the tables of two sets is the table of their signed difference |
| `Difference.ListAll` | src/iblt.rs:274-326 | running the iterator gives the listing of the table, for every table on which it ends |
| `Difference.ListDifference` | src/iblt.rs:274-326 | on the table of a difference it gives exactly the keys outside the core, once each and on their side |
| `Difference.OpenPart` | src/iblt.rs:131-142 | what is still open between growing sets is part of the original difference: it inherits that the hash tells keys from mixtures, and its core is part of the core |
| `Difference.OneSidedCleanIsComplete` | src/iblt.rs:319-325 | if one set contains the other, the iteration is clean exactly when no key was left out |
| `Difference.CleanEndCanHideKeys` | src/iblt.rs:319-325 | otherwise a clean end can hide keys: two keys of opposite sides in one bucket |
| `Difference.Sync` | src/iblt.rs:145-155 | the synchronised set agrees with the other one outside the core and is unchanged on it |
| `Sketch.LeastIsLeast` | src/iblt.rs:170-174 | an entry of the sketch is a lower bound of the hashes and one of them |
| `Sketch.WithKeyIsSketch` | src/iblt.rs:170-174 | adding a key to the sketch of a set gives the sketch of the larger set |
| `Sketch.SketchAntitone` | src/iblt.rs:159-174 | a larger set has a pointwise smaller sketch |
| `Sketch.AddToMinSketch` | src/iblt.rs:170-174 | the update in place is the addition of a key |
| `Sketch.MinSketch` | src/iblt.rs:159-168 | computes the sketch of the set of keys in the list and counts the list |
| `ContentDb.ReadAfterStore` | src/db.rs:501-529 | a stored row reads back with its digest, and as it was stored, if and only if its text is encoded as a node encodes texts; other rows are as before |
| `ContentDb.RebuiltIfCanonical` | src/db.rs:517-529 | storing the string of a text and encoding it anew gives the same text if and only if it was encoded that way |
| `ContentDb.EmptyTextIsNotCanonical` | src/db.rs:517-529 | an instance: the text of the one byte 0 can be read and comes back as the one byte 1 |
| `ContentDb.ContentDb.ComputeContentIblt` | src/db.rs:442-455 | the table built row by row is the table of the set of keys |
| `ContentDb.ContentDb.ComputeContentSketch` | src/db.rs:457-468 | the sketch of the set of keys and the number of rows |
| `ContentDb.ContentDb.DeleteExpired` | src/db.rs:560-600 | a row stays if and only if height + term is above the given height; every other is deleted and listed once |
| `ContentDb.ContentDb.DeleteConfirmed` | src/db.rs:602-642 | a row stays if and only if another block funds it; every other is deleted and listed once |
| `ContentDb.Overflow` | src/db.rs:536-548 | picks exactly what follows the longest prefix of the order that fits the limit |
| `ContentDb.ContentDb.TruncateContent` | src/db.rs:531-558 | keeps exactly the longest fitting prefix by descending weight and returns exactly the deleted keys |
| `ContentDb.KeptFits` | src/db.rs:531-558 | the kept rows together fit the limit |
| `ContentDb.NothingDropped` | src/db.rs:531-558 | if all rows fit, none is dropped whatever the order of equal weights |
| `ContentDb.NoHeavierRowDropped` | src/db.rs:531-558 | no dropped row is heavier than a kept one |
| `ContentDb.TruncationIdempotent` | src/db.rs:531-558 | truncating again drops nothing, even if the query answers in another order |
| `ContentStore.HeightOf` | src/p2p_bitcoin.rs:344-346 | finds a block exactly if it is on the trunk, at its height |
| `ContentStore.AcceptedExactly` | src/store.rs:301-331 | content is accepted if and only if a trunk block funds it in time, with the right merkle root, a version other than 0 and 1, and an output that commits to the ad, and then it is recorded at the height of that block with the amount per byte of the first such output |
| `ContentStore.UnreadableIsAccepted` | src/store.rs:301-331 | an instance of content that is accepted and whose text cannot be read |
| `ContentStore.AnsweredUnderAnother` | src/db.rs:517-529 | a row that is not canonical is answered under another digest, and the answer is stored only if an output commits to that digest |
| `ContentStore.ContentStore.constructor` | src/store.rs:66-90 | a new store caches no table and has the exact sketch and counter |
| `ContentStore.ContentStore.GetIblt` | src/store.rs:183-187 | answers the cached table, or the one computed from scratch and caches it |
| `ContentStore.ContentStore.AddContent` | src/store.rs:301-360 | stores exactly what is judged acceptable and can be read, and takes the key into every table, the sketch and the counter; the node stops, with the key in the caches and no row, exactly on acceptable content that cannot be read |
| `ContentStore.ContentStore.Forget` | src/store.rs:231-243 | takes deleted keys out of every table; computes sketch and counter anew only if some table was changed |
| `ContentStore.ContentStore.AddHeader` | src/store.rs:226-246 | a row stays if and only if height + term is above the height of the header, and the caches lose what is deleted |
| `ContentStore.ContentStore.UnwindTip` | src/store.rs:249-271 | a row stays if and only if another block funds it, the caches lose what is deleted, and the predecessor is recorded as processed |
| `ContentStore.ContentStore.TruncateToLimit` | src/store.rs:273-292 | deletes exactly what exceeds the limit, in the rows and in the caches |
| `StoreRuns.TableHasSurplus` | src/store.rs:323-333 | along every run a cached table encodes the rows and a surplus, which is there exactly if a row was stored again |
| `Caches.SurplusShows` | src/store.rs:323-333 | a table with a surplus differs from the table of the keys |
| `Caches.DeleteFromSurplus` | src/store.rs:231-236 | deletions take keys out of a table and leave its surplus |
| `StoreRuns.CachedTablesExact` | src/store.rs:183-292 | in every run from exact caches a cached table equals the one computed from scratch if and only if no row was stored again while it was cached |
| `StoreRuns.FreshAddsKeepTables` | src/store.rs:323-333 | runs that add only new rows keep every cached table exact |
| `StoreRuns.SketchAndCounter` | src/store.rs:231-243 | in every run sketch and counter are off by exactly the deletions without a cached table and the repeated additions since the last recomputation |
| `StoreRuns.SketchBounds` | src/store.rs:326-327 | the sketch is pointwise at most the exact one, and the counter at least the number of rows |
| `StoreRuns.ExactWhileCareful` | src/store.rs:231-243 | from the start, or from any deletion with a table cached, sketch and counter are exact as long as only new rows are added and rows are deleted only with a table cached |
| `ChainRuns.StepKeeps` | src/store.rs:226-331 | every step keeps: each row is funded on the trunk and alive, or the notice that removes it is on its way |
| `ChainRuns.RowsAreSound` | src/store.rs:226-331 | in every run that reports each trunk change, once the notices are delivered each row is funded on the trunk at its recorded height, height plus term is at least the tip height, and the node would store exactly this row again |
| `ChainRuns.ConnectedDropsExpired` | src/store.rs:226-246 | in every run, right after a header was connected at a height, the rows are those with height + term above it |
| `ChainRuns.UnwoundDropsFunded` | src/store.rs:249-271 | in every run, right after a header was taken back, the rows are those that its block does not fund |
| `SyncProtocol.AnswerContents` | src/updater.rs:164-176 | answering a request key by key sends each requested row once |
| `Convergence.StepKeeps` | design/protocol.md:10-32 | in the protocol on sets every delivery and every poll keeps: what a node sent a table of has reached the peer, is on its way or was not given away |
| `Convergence.SilenceMeansAgreement` | design/protocol.md:10-32 | in the protocol on sets, once nothing is in flight, a node that was sent a table holds the rows of both but those the tables did not give away |
| `OneExchange.ContentsAreFresh` | src/updater.rs:113-163 | in the protocol on sets, if tables are sent only when nothing of the previous one is on its way, no content arrives at a node that holds it |
| `Exchange.DeliveryLightens` | src/updater.rs:72-176 | between nodes with cached tables, every delivery makes the load smaller in the lexicographic order of polls, clear flags, tables, requests and contents |
| `Exchange.ExchangeRests` | src/updater.rs:57-221 | no infinite sequence of deliveries, whatever the cached tables are worth: between polls by timer or connection every exchange comes to rest |
| `Refinement.RequestIsExact` | src/updater.rs:122-136 | the request made from the difference of two sets names each key only the peer holds once, except those of the core |
| `Refinement.TableRefines` | src/updater.rs:113-151 | between exact tables the table handler is the table step of the protocol on sets |
| `Refinement.GetRefines` | src/updater.rs:164-176 | for rows that read back as stored the request handler is the request step of the protocol on sets |
| `Simulation.StepFollows` | src/updater.rs:72-176 | a step in which no content arrives at a node that holds it and caches tables is a step of the protocol on sets, and keeps all tables exact, cached or on their way |
| `Simulation.Simulates` | src/updater.rs:72-176 | every exchange made of such steps is a run of the protocol on sets |
| `Simulation.NoRequestFails` | src/updater.rs:164-176 | in every such exchange the cached tables of both nodes are exact and no node is asked for a row that it does not hold |
| `Simulation.RequestsAreMissing` | src/updater.rs:118-141 | in every such exchange a request names no key that the requester held when it decoded the table, and no key twice |
| `Simulation.SilenceMeansAgreement` | src/updater.rs:72-176 | in every such exchange, once nothing is on its way, a node that was sent tables holds the rows of both, except keys in the core of their difference for a size that was sent |
| `Simulation.NotStuck` | src/updater.rs:72-176 | in every such exchange, as long as something is on its way something can be delivered |
| `Simulation.NoOverlapIsFresh` | src/updater.rs:72-176 | exchanges in which no table is sent while something of the previous one is on its way are such exchanges |
| `Simulation.FairNodesAgree` | src/updater.rs:72-176 | so in these exchanges no request fails, and nodes that both sent tables which give everything away end with the keys of both, under every interleaving |
| `StaleTables.CachedExactly` | src/store.rs:323-327 | in every exchange whatsoever a cached table is exact if and only if no content arrived at the node while it held it and cached that table |
| `StaleTables.NodesExactly` | src/store.rs:323-327 | both nodes have exact tables if and only if none of their cached tables was hit in this way |
| `Overlap.ListsY` | src/iblt.rs:274-326 | from a table with one key counted three times the iterator lists a key of the receiver as inserted |
| `Overlap.OverlapStopsNode` | src/updater.rs:164-176 | an exchange with overlapping tables in which a node is asked for a row that it does not hold |
| `Agreement.SystemNodesStop` | src/updater.rs:164-176 | for every funding script and any two digests there is a keyed hash, a trunk and two ads for which that exchange is one of nodes of the system |
| `NearTables.CloseRequest` | src/updater.rs:118-136 | from tables in which counts differ by at most one a node requests exactly the keys that the sender counts once more, once each, except those of the core |
| `NearTables.NearExchangesAnswer` | src/updater.rs:72-176 | in every exchange, however its tables overlap and whatever arrives again, no node is asked for a row it does not hold as long as no table is decoded in which some key is counted two times more or less than in the own one |
| `NearTables.RepeatedIsRequested` | src/store.rs:323-327 | a row that both nodes hold and one has stored twice is requested by the other together with the rows it misses |
| `NearTables.RepeatedIsListed` | src/iblt.rs:274-326 | with that row alone the iterator lists it as inserted |
| `NearAgreement.ClearExchangesAgree` | src/updater.rs:72-176 | in every exchange, however its tables overlap, if decoded tables are near and give everything away, no request fails and nodes that both sent tables end with the keys of both |
| `Updater.TableSize` | src/updater.rs:85-90 | the smallest size in the ladder of fours that covers the estimate, or the maximum |
| `Updater.SizesAreLadder` | src/updater.rs:85-90 | the sizes in use are 100, 400, 1600 and so on up to 6553600 |
| `Updater.LeastInLadder` | src/updater.rs:85-90 | so the size is the least of these that covers the estimate, or the largest |
| `Updater.Updater.Poll` | src/updater.rs:207-221 | polls with tip, sketch and counter and remembers the poll; does nothing without a tip |
| `Updater.Updater.OnPollContent` | src/updater.rs:72-111 | is the poll step of the exchange, whatever the cached tables are worth. After an own poll a table is sent if and only if the tips of both polls and of the trunk are the same and the estimate of the difference times 3/2 is positive; it is the cached or computed table of the least size that covers this |
| `Updater.Updater.Decode` | src/updater.rs:118-136 | the request is what the iterator lists as inserted; if the difference of the tables is that of two sets, it names exactly the keys of the peer that this node does not hold once each, except those of the core |
| `Updater.Updater.OnContentIblt` | src/updater.rs:113-151 | is the table step of the exchange for a common tip, whatever the tables are worth, and ignores other tables |
| `Updater.Updater.OnGet` | src/updater.rs:164-176 | answers with exactly the requested contents as they read back, and stops exactly if one is missing |
| `Updater.AnswerIsOnGet` | src/updater.rs:164-176 | that answer is the request step of the exchange |
| `Updater.Updater.Offer` | src/updater.rs:152-158 | stores accepted content and takes it into every cached table; stops exactly on accepted content that cannot be read |
| `Updater.Updater.Trim` | src/updater.rs:159-162 | while contents are expected no row is dropped; otherwise exactly the rows beyond the longest prefix by weight that fits the limit are, in the store and its tables |
| `Updater.Updater.OnContent` | src/updater.rs:152-163 | is the content step of the exchange, and stops without a row exactly on accepted content that cannot be read. With no more contents expected the rows fit the limit and are the longest prefix by weight that does; otherwise all stay |
| `Updater.TruncationKeepsHeaviest` | src/db.rs:531-558 | the rows kept fit the limit together, are the first in the order of weight, and the next one would exceed the limit |
| `Caches.AddKeepsExact` | src/store.rs:323-331 | adding a new key keeps all cached tables exact |
| `Caches.RemoveKeepsExact` | src/store.rs:231-236 | deleting keys keeps all cached tables exact |
| `Agreement.NodesAreFair` | src/store.rs:301-335 | two nodes with rows that are sound for one trunk, canonical and within the limit together meet the conditions of `Simulation` |
| `Agreement.HashesTellApart` | src/iblt.rs:276-281 | the condition on the hash in `HashPurity.HashTellsKeys`, for the sizes sent, meets the hypothesis of agreement |
| `Agreement.NodesAgree` | src/updater.rs:72-176 | for two such nodes, under every interleaving without overlapping tables: exact cached tables, no failing request, and the keys of both at both ends if both sent tables that give everything away; the hash has to tell keys from mixtures for the sizes sent |
| `Agreement.OverlappingNodesAgree` | src/updater.rs:72-176 | the same with overlapping tables, as long as decoded tables are near and give everything away |
| `BlockDownload.BlockDownload.Connected` | src/blockdownload.rs:83-92 | afterwards there is a download peer if this one serves blocks, an earlier download peer is kept, and a new one owes no blocks yet |
| `BlockDownload.BlockDownload.Disconnected` | src/blockdownload.rs:93-103 | the loss of the download peer puts the blocks asked for back in front of those wanted, in their order |
| `BlockDownload.BlockDownload.AskBlocks` | src/blockdownload.rs:125-151 | moves up to a thousand wanted blocks to those asked for and requests all of these, unless the peer is busy |
| `BlockDownload.BlockDownload.Block` | src/blockdownload.rs:153-169 | gives a block to the store exactly if it comes from the download peer and is next (`DownloadRuns.ArriveExactly` says what that does) |
| `BlockDownload.BlockDownload.AfterIncoming` | src/blockdownload.rs:111-116 | the sender of a message becomes the download peer if there is none and is then asked for the first wanted blocks and no others; the download peer is asked for all blocks that are then asked for |
| `BlockDownload.BlockDownload.Disconnect` | src/blockdownload.rs:275-280 | each header taken back after the birth drops the last wanted block and is undone in the store |
| `BlockDownload.BlockDownload.ReadBatch` | src/blockdownload.rs:237-272 | reads headers up to the first that reorganises the chain |
| `BlockDownload.BlockDownload.Headers` | src/blockdownload.rs:236-287 | handles a message batch by batch, each batch first taking back and then adding |
| `BlockDownload.BatchEnd` | src/blockdownload.rs:241-262 | only the last header of a batch reorganises the chain |
| `DownloadRuns.StepKeepsPipeline` | src/blockdownload.rs:93-169 | losing a peer, asking and receiving move blocks along without losing, repeating or reordering any; new headers are appended |
| `DownloadRuns.PipelineIsAnnounced` | src/blockdownload.rs:93-169 | in every run without reorganisation the blocks delivered, asked for and wanted are the initial and the announced ones in order |
| `DownloadRuns.BlocksArriveInOrder` | src/blockdownload.rs:153-169 | the store has received a prefix of them and keeps it |
| `DownloadRuns.ArriveExactly` | src/blockdownload.rs:153-169 | a block is delivered if and only if it is the first one asked for; then it is the last one delivered and the one recorded, and otherwise nothing changes |
| `DownloadRuns.DeliveredAsArrived` | src/blockdownload.rs:153-169 | in every run without reorganisation the blocks delivered are those that arrived when they were next, in that order, and the last of them is recorded |
| `DownloadRuns.AskExactly` | src/blockdownload.rs:125-134 | the first thousand wanted blocks, or all, go behind those asked for |
| `DownloadRuns.AnswersDeliver` | src/blockdownload.rs:135-143 | a request that is answered block by block in its order delivers all blocks asked for |
| `DownloadRuns.RoundsDeliver` | src/blockdownload.rs:125-169 | so n rounds of asking and answering deliver the first thousand times n wanted blocks |
| `DownloadRuns.NewsIsGain` | src/blockdownload.rs:241-286 | the blocks wanted after a message are those it adds to the trunk if and only if its late headers are those that moved the tip |
| `DownloadRuns.PipelineIsTrunk` | src/blockdownload.rs:93-286 | in every run without reorganisation the blocks delivered, asked for and wanted stay the trunk from the first block to process to the tip if and only if in every message the headers later than the birth are exactly those that moved the tip |
| `DownloadRuns.DeliveredByHeight` | src/blockdownload.rs:153-169 | then blocks reach the store in the order of their heights without a gap |
| `DownloadRuns.SideBranchIsWanted` | src/blockdownload.rs:243-250 | an instance: a header stored on a side branch does not move the trunk and is wanted, so two blocks of one height are on their way |
| `DownloadRuns.OnlyLateCount` | src/blockdownload.rs:275-280 | headers that are not later than the birth are passed over when the chain is taken back |
| `DownloadRuns.TakeBackShortens` | src/blockdownload.rs:275-280 | taking back headers shortens the wanted blocks, passes over those asked for and then undoes blocks of the store |
| `DownloadRuns.ReorganisationExact` | src/blockdownload.rs:275-286 | a reorganisation of depth d removes exactly the last d blocks if and only if nothing is asked for or d wanted blocks are there |
| `DownloadRuns.ReorganisationInOneMessage` | src/blockdownload.rs:236-287 | under that condition a branch that arrives in one message replaces the abandoned blocks |
| `DownloadRuns.ProcessedIsLastDone` | src/store.rs:254-254 | after a reorganisation the recorded block is the last one the store has if and only if all blocks wanted and asked for were taken back |
| `DownloadRuns.SplitForkRemainder` | src/blockdownload.rs:236-287 | what remains if part of the new branch came in earlier messages: the newest wanted blocks go instead of the abandoned ones |
| `DownloadRuns.SplitForkLosesBlock` | src/blockdownload.rs:236-287 | so the last block of an earlier message is always lost |
| `ReorganisedRuns.SmoothRunsFollowTrunk` | src/blockdownload.rs:236-287 | in every run, reorganisations included, the blocks delivered and not taken back, asked for and wanted are the trunk from the first block to process to the tip, as long as each reorganisation arrives in one message and meets the condition of `DownloadRuns.ReorganisationExact` |
| `ReorganisedRuns.RestartLosesBlocks` | src/store.rs:254-254 | after a reorganisation that takes back fewer blocks than are wanted and asked for, a restart leaves out trunk blocks that the store does not have |
| `DownloadRuns.RecordRunsAhead` | src/store.rs:254-254 | an instance in which the record names a block the store has not seen |
| `DownloadRuns.AskedBlockStays` | src/blockdownload.rs:275-280 | an instance in which an abandoned block is still delivered |
| `Startup.BelowIsTrunk` | src/p2p_bitcoin.rs:128-132 | below the first ancestor on the trunk there is only trunk |
| `Startup.OnTrunkIsListed` | src/p2p_bitcoin.rs:128-132 | a block is on the trunk exactly if the trunk lists it |
| `Startup.Rollback` | src/p2p_bitcoin.rs:122-136 | ends on every tree whose first block is on the trunk, with the child-first path of exactly the abandoned blocks and their first trunk ancestor; an unknown block stops the program |
| `Startup.InitialQueue` | src/blockdownload.rs:50-69 | collects the ascending trunk after the block looked for, cut at the birth |
| `Startup.QueueInPlainTerms` | src/blockdownload.rs:50-69 | it is a piece of the trunk that ends at the tip and starts at the first block, or above the block looked for or one from before the birth, and it is empty if the tip is not later than the birth |
| `Startup.EndsExactly` | src/blockdownload.rs:57-67 | the loop ends if and only if it looks for nothing or a trunk block, or a block below the tip is from before the birth |
| `Startup.NeverEnds` | src/blockdownload.rs:57-67 | otherwise it still runs after any number of rounds |
| `Startup.StartupMeetsPromise` | src/p2p_bitcoin.rs:116-150 | the queue is the trunk after the first trunk ancestor, cut at the birth, if and only if nothing was abandoned, nothing is to be downloaded, or the birth cuts the trunk above the fork |
| `Startup.ForkAtFirstBlockHangs` | src/p2p_bitcoin.rs:122-150 | an instance in which start-up hangs |
| `WalletFees.Clamp` | src/wallet.rs:100-100 | the rate is between 1 and 100, and unchanged if it was |
| `WalletFees.Fee` | src/wallet.rs:157-159 | the least number of units that covers a quarter of weight times rate |
| `WalletFees.Assemble` | src/wallet.rs:94-177 | the loop ends after two rounds with what two rounds written out give, errors included |
| `WalletFees.Withdraw` | src/wallet.rs:179-254 | the same for a withdrawal, of everything available if no amount is given |
| `WalletFees.DraftBalances` | src/wallet.rs:133-148 | a draft pays the amount less the fee, gives back the rest unless it is dust, has outputs above dust and spends its inputs up to fee and dust, if and only if the fee is at most the amount |
| `WalletFees.SuccessBalances` | src/wallet.rs:132-176 | the same for every transaction returned, whose fee is the weight of the first draft times the clamped rate over four, rounded up |
| `WalletFees.SucceedsExactly` | src/wallet.rs:115-176 | exactly when a transaction is returned |
| `WalletFees.FailsAtOnce` | src/wallet.rs:115-117 | the error before signing: the inputs do not cover the amount, or it does not exceed dust |
| `WalletFees.FailsInFirst` | src/wallet.rs:149-156 | then the error of the first round of signing |
| `WalletFees.FailsInSecond` | src/wallet.rs:132-156 | then the error if what is left after the fee does not exceed dust, or that of the second round |
| `WalletFees.ReturnedIsSigned` | src/wallet.rs:132-176 | the outputs returned are those signed for all inputs in the second round: one payment of what is left of the amount, and change unless that is dust |
| `WalletFees.SumAdds` | src/wallet.rs:106-106 | the total of coins is the sum over their parts |
| `WalletFees.PaymentAboveDust` | src/wallet.rs:134-142 | the check for dust lets nearly every amount below the fee pass |
| `WalletFees.AmountBelowFeeSucceeds` | src/wallet.rs:132-176 | an instance that pays nearly 2^64 with an input of 1000 |
| `Unicode.Utf8Exact` | src/text.rs:106-128 | bytes decode to a string if and only if they are its UTF-8 encoding |
| `Unicode.Utf16Exact` | src/text.rs:106-128 | units decode to a string if and only if they are its UTF-16 encoding |
| `Unicode.Utf8Examples` | src/text.rs:106-128 | the examples of section 7 of RFC 3629 |
| `Unicode.Utf16Example` | src/text.rs:106-128 | the example of section 5 of RFC 2781 |
| `TextCodec.New` | src/text.rs:70-94 | writes the flag and the shorter encoding, compressed if that is shorter |
| `TextCodec.EncodedExactly` | src/text.rs:70-94 | the flag says which encoding is not longer and whether compression is shorter still, and the rest is what it says, so the text is at most a byte longer than either |
| `TextCodec.AsString` | src/text.rs:106-128 | reads by the flag, with all errors; half a unit at the end is passed over |
| `TextCodec.TextRoundTrip` | src/text.rs:70-128 | every string is read back as it was written, in at most one byte more than the shorter of its two encodings |
| `TextCodec.EncodingIsInjective` | src/text.rs:70-128 | different strings are stored differently |
| `TextCodec.ChoiceByScript` | src/text.rs:45-66 | ASCII text is stored as UTF-8, and text of characters that need three bytes as UTF-16 |

## Left out

- Integer widths: bucket counts, key counters, sizes and lengths are unbounded; only the weight of a row, the transaction version and the amounts of the wallet wrap as in the code.
- Foreign code: SipHash, SHA-256, key tweaking, signing, Snappy, CBOR and SQL; database operations succeed.
- `generate_ksequence`: the keys of the hash functions are arbitrary.
- `estimate_diff_size`: the estimate is a parameter, so f32 rounding and the overflow of `estimate * 3 / 2` are not modelled.
- Tables of size zero or with other hash keys, on which the code stops.
- Cached tables are values in a map, not shared objects, and the database is one object without transactions.
- Updater.Updater.OnContentIblt: on a table on which the iterator of the code does not end, the method has no result.
- Updater.Updater.Decode: the same.
- Simulation.FairNodesAgree: both nodes keep one tip and drop no row during the exchange; peers that disconnect in between are not modelled.
- Simulation.NoRequestFails: for exchanges without repeated contents; `NearTables.NearExchangesAnswer` has the others, up to tables with counts that differ by two or more.
- ContentStore.ContentStore.UnwindTip: the coins of the wallet are not modelled, nor is `block_connected` beyond the record of the processed block and the addition of content.
- DownloadRuns.ReorganisationInOneMessage: headers taken back are named last first.
- WalletFees.Assemble: the sum of the inputs fits 64 bits and the weight of a transaction is positive and below 2^56; coin selection, signing, the contract address, the clamped term and the optional script verification are not modelled.
- Startup.InitialQueue: where the loop of the code does not end, the method has no result.
- `discovery.rs`: beyond the laws of its key type; its exchange of addresses repeats the pattern of the updater without requests.
- `api.rs`, `sendtx.rs`, `find_peers.rs`, `p2p_defiads.rs`, configuration, address selection, bans, timers and the creation of wallets: input and output, randomness, or message plumbing.
