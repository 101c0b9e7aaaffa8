# Model of UKV

UKV puts several data structures, its modalities, on one ordered, optimistically transactional
map from (collection, key) to bytes. This project models the parts where a packed layout has to
behave like a simple mathematical object, or where several parties share state, and proves that
they do. Where a promise does not hold, it is stated under the exact condition, with an input that
breaks it.

- `Store`, `Sorting`, `Buffers`, `Numbers`: the common map, batches over it, copies between buffers, and
  numbers as text.
- `Transactions`, `CommitRule`, `Frames`, `PathTransactions`, `GraphTransactions`: watches, commits, what every
  interleaving amounts to, in all collections or in some, and what that gives to the batches of two
  modalities.
- `Graph`, `GraphLayout`, `GraphUpdate`, `GraphBatch`, `GraphExport`: the graph index on values, its
  bytes, its entries edited in place, the three passes of a batch update, and the export of edges.
- `PathLayout`, `PathBucket`, `PathStore`, `PathRead`, `PathMatch`, `Pagination`: the layout of a hash
  bucket, its in-place updates, the store as a map from strings to values, reads that compact in place,
  and paginated matches.
- `Scans`: key scans of two engines.
- `Sessions`, `Commands`, `Columns`: the slots of the Flight server, its command line, and packed
  columns.
- `JsonPrinter`: the printer of the Python bindings and a reader after RFC 8259.
- `Documents`, `DocPatch`, `Conformance`, `Prefixes`, `DocBatch`, `Gist`: pointer-addressed edits after
  RFC 6901, patches, where they meet RFC 6902, patches below a field, batches of documents, and the enumeration of leaf paths.

Code that changes things step by step is a class or a method over arrays and loops, proved against a
function on values; the theorems are about those functions and about whole runs of them.

Where the code and its documentation disagree, the model follows the code. It found that

- a full scan misses the last bucket when that bucket is alone in its batch, so paginated matches can
  miss paths (`PathMatch.VisitedIs`, `Pagination.MatchAll`);
- a read joins blobs on one tape, where a missing blob looks like an empty one, and the tape points
  nowhere until its first byte: removing an edge or a path writes an empty blob where there was none if
  another touched blob has bytes, and erases even stored empty blobs if none has
  (`PathStore.EmptiedBucketDisappears`, `Graph.BatchKeys`); the export never reports a missing vertex
  (`GraphExport.ExportVertices`);
- a query for degrees alone counts self-loops twice (`GraphExport.DegreesAgree`);
- a scan with limit zero from a stored key returns everything (`Scans.ZeroLimitListsAll`);
- destroying a refused lock adds an arena slot to the pool (`Sessions.RunsKeepSlots`);
- the last value of a command without closing ampersand can be read as a flag
  (`Commands.UnterminatedPair`);
- integers outside 64 bits are printed as -1 (`JsonPrinter.WideIntIsLost`);
- a document edit writes its last token without unescaping it, leaves a scalar parent alone without an
  error, and a patch differs from RFC 6902 for existing members, array positions, escaped tokens, `test`
  and operations it does not recognise, which it skips (`Documents.UpsertThenLookUp`, `Conformance.OpIff`);
- a modifying batch of documents with repeated keys writes results under other keys
  (`DocBatch.RepeatedKeysMisplace`);
- a copy or move below a field looks its source up from the root (`Prefixes.CopyLeavesField`);
- leaf paths below the second member of a name are exported but cannot be looked up
  (`Gist.PathsResolve`).

## Model

| member | source | states |
|---|---|---|
| `Transactions.Transaction.Reset` | src/engine_umem.cpp:897-918 | beginning on a used handle forgets its watches, changes and log |
| `Transactions.Transaction.WatchKey` | src/engine_umem.cpp:137-142 | a key keeps the generation of its first watch |
| `Transactions.Transaction.FindAndWatch` | src/engine_umem.cpp:131-149 | a read watches unless told not to, and sees the own changes of the transaction over the stored pairs |
| `Transactions.Transaction.WriteBatch` | src/engine_umem.cpp:548-571 | a transactional write watches unless told not to and stays private; a missing value erases |
| `Transactions.Transaction.ReadBatch` | src/modality_graph.cpp:444-460 | the read of a modality is one watched read step for each key, whatever the caller asked for, and returns their answers |
| `Transactions.Transaction.ReadModifyWrite` | src/modality_paths.cpp:284-347 | a modality update is watched reads, one computed blob per key, then writes with the caller's option; it adds an update, in the sense of the theorems, to whatever the transaction logged before |
| `Transactions.UpdateIsSteps` | src/modality_paths.cpp:284-347 | what a read-modify-write does to a transaction is what its read and write steps do in a run |
| `Transactions.Transaction.Commit` | src/engine_umem.cpp:920-934 | commits exactly when no watched key was updated since it was watched, and then moves the generation of every key it writes |
| `CommitRule.CommitsExactly` | include/ukv/db.h:177-183 | over every run, told from steps and committed logs alone: the commit of an open transaction appends its log exactly when no log committed since one of its watched reads or writes writes the place of that step; otherwise nothing changes |
| `CommitRule.UndisturbedCommits` | include/ukv/db.h:177-183 | a transaction beside which nobody commits always commits, whatever was committed before it began |
| `Transactions.InvariantHolds` | include/ukv/db.h:177-183 | over every interleaving: the pairs are the serial ones, committed logs were answered alone, open transactions would be if their watches held |
| `Transactions.CommittedRunsAreSerial` | src/engine_umem.cpp:131-149 | serializability: however transactions interleave, the pairs are those of running the committed ones alone in commit order, and every watched read got the answer of that serial run |
| `Transactions.ClientsRunAlone` | include/ukv/db.h:177-183 | a committed client that chooses its actions from its answers did, action by action, what it does when run alone at its commit |
| `Transactions.UpdateAlone` | src/modality_paths.cpp:284-347 | the log of a read-modify-write answered alone has the effect of its update on the pairs |
| `Transactions.CallAppends` | src/modality_paths.cpp:284-347 | a call adds itself to the calls of its transaction |
| `Transactions.CallsAlone` | src/modality_paths.cpp:284-347 | the log of several calls answered alone has the effect of the calls one after another |
| `Transactions.NoLostUpdates` | src/modality_graph.cpp:444-444 | whatever calls the committed transactions consist of, the pairs are those of making them one after another in commit order, every modality update computed from what it then finds, also for callers who asked not to watch |
| `Transactions.UpdatesAreCalls` | src/modality_graph.cpp:444-444 | calls that are all modality updates apply the updates in order |
| `Frames.OthersLeaveOurs` | src/engine_umem.cpp:131-149 | under every interleaving some collections hold what the committed updates inside them leave when they run alone in commit order, whatever else the transactions do to other collections |
| `Transactions.UnwatchedReadLosesUpdate` | include/ukv/db.h:177-183 | with unwatched reads there is a run of two increments that both commit and of which one is lost |
| `PathTransactions.WriteIsUpdate` | src/modality_paths.cpp:259-348 | the batched path write is the read-modify-write of the buckets it touches, computed from nothing else |
| `PathTransactions.PathBatchesLoseNothing` | src/modality_paths.cpp:284-284 | under every interleaving the collections of the paths stand for the map the committed path batches build in commit order, for every hash; a transaction may make several batches and any calls to other collections |
| `GraphLayout.KeyRoundTrip` | include/ukv/cpp/types.hpp:98-100 | every 64-bit key reads back from its eight bytes |
| `GraphLayout.VertexRoundTrip` | src/modality_graph.cpp:42-64 | two degrees and two runs of ships read back from the bytes of every vertex that fits 32-bit lengths and 64-bit keys, and only a bare vertex has no bytes |
| `GraphLayout.OneEdgeBytes` | src/modality_graph.cpp:42-64 | the bytes of a vertex with one outgoing edge, one by one |
| `GraphLayout.TwoEdgesBytes` | src/modality_graph.cpp:42-64 | the bytes of a vertex with an outgoing and an incoming edge, one by one, a negative neighbour among them |
| `GraphTransactions.UpdateIsBatch` | src/modality_graph.cpp:472-587 | the graph update is the read-modify-write of the vertices it touches, computed from nothing else |
| `GraphTransactions.GraphBatchesLoseNothing` | src/modality_graph.cpp:444-444 | under every interleaving, and whichever callers asked not to watch, the committed graph batches leave the edges of their unions and differences in commit order, and the mirror holds, all in the bytes of the real layout; a transaction may make several batches and any calls to other collections |
| `Sorting.SortedAndDeduplicated` | include/ukv/cpp/ranges.hpp:663-667 | sorting and deduplicating keeps exactly the places that occur, strictly ascending |
| `Sorting.OffsetInSorted` | src/helpers/algorithm.hpp:25-28 | the binary search finds the first place not below the wanted one, and the wanted one if it is there |
| `Graph.InsertKeepsSorted` | src/modality_graph.cpp:252-262 | inserting where the lower bound is keeps a run strictly sorted and adds exactly the ship |
| `Graph.EraseKeepsSorted` | src/modality_graph.cpp:281-303 | erasing keeps a run strictly sorted and removes exactly the ship |
| `Graph.BatchEffect` | src/modality_graph.cpp:519-586 | after a batch an edge is in its source entry, and its mirror in its target entry, exactly when the batch says so or it was there and is not mentioned; every entry stays sorted |
| `Graph.BatchKeys` | include/ukv/cpp/ranges_args.hpp:69-71 | a touched vertex is stored after a batch, except that a removal erases all it touches exactly when none of them has bytes |
| `Graph.LoneRemovalErases` | src/helpers/linked_array.hpp:104-118 | removing an edge from vertices without bytes erases them, even one that is stored |
| `Graph.RemovalBesideBytesCreates` | src/modality_graph.cpp:462-468 | beside a vertex that has bytes, a removal leaves an empty blob where there was none |
| `Graph.BatchOnEdges` | src/modality_graph.cpp:472-587 | a batch upsert is the union of the stored edge set with the batch, a removal the difference, for any order and repetition |
| `Graph.MirrorStep` | src/modality_graph.cpp:519-531 | a batch keeps the mirror: an edge is in the outgoing run of its source exactly when it is in the incoming run of its target |
| `Graph.RunKeepsMirror` | src/modality_graph.cpp:472-587 | in every state reachable by batches the entries are well formed, the mirror holds and the edges are those of the batches |
| `Graph.DegreesCountEdges` | src/modality_graph.cpp:472-587 | in every reachable state the out-degrees and the in-degrees both add up to the number of edges |
| `GraphUpdate.TrivialInsert` | include/ukv/cpp/ranges.hpp:669-685 | shifts the tail of an array by one and stores the ship in the gap, and nothing else |
| `GraphUpdate.TrivialErase` | include/ukv/cpp/ranges.hpp:687-696 | shifts the tail of an array over one ship, and nothing else |
| `GraphUpdate.LowerBound` | src/modality_graph.cpp:222-225 | the binary search over one run inside a buffer finds the position where the ship is or would go |
| `GraphUpdate.InsertIntoRuns` | src/modality_graph.cpp:252-262 | inserting into one of the two adjacent runs of a buffer leaves the other run as it was |
| `GraphUpdate.EraseFromRuns` | src/modality_graph.cpp:281-303 | erasing from one of the two adjacent runs of a buffer leaves the other run as it was |
| `GraphUpdate.UpdatedEntry.View` | src/modality_graph.cpp:40-64 | an entry is well formed and its byte length is that of its header and both runs |
| `GraphUpdate.UpdatedEntry.constructor` | src/modality_graph.cpp:462-468 | linking an entry gives the stored blob, an empty growth, and a pointer that points somewhere if the tape has bytes |
| `GraphUpdate.UpdatedEntry.CountInsert` | src/modality_graph.cpp:213-229 | the first pass counts a ship exactly when the stored entry does not have it |
| `GraphUpdate.UpdatedEntry.Reallocate` | src/modality_graph.cpp:539-553 | the second pass keeps the entry, makes room for its ships and the counted ones, and gives it a buffer of its own |
| `GraphUpdate.UpdatedEntry.Insert` | src/modality_graph.cpp:235-262 | with room for a new ship, the in-place insertion is the insertion into the blob, also into an entry without header |
| `GraphUpdate.UpdatedEntry.Erase` | src/modality_graph.cpp:268-304 | the in-place removal is the removal from the blob; an entry without header is left alone |
| `GraphBatch.CountInserts` | src/modality_graph.cpp:538-538 | after the first pass each entry has counted what the batch can add to it |
| `GraphBatch.ReallocateAll` | src/modality_graph.cpp:540-553 | after the second pass every entry has the room it counted |
| `GraphBatch.ApplyAllTasks` | src/modality_graph.cpp:519-534 | the third pass, or the only one of a removal, never runs out of room and leaves in each entry what the batch leaves in its vertex |
| `GraphBatch.PullEntries` | src/modality_graph.cpp:430-469 | one entry for each touched vertex, holding what is stored; all of them point somewhere exactly when one has bytes |
| `GraphBatch.WriteBack` | src/modality_graph.cpp:565-586 | entries that point somewhere are written, others are missing values, which erase their vertices; no other vertex changes |
| `GraphBatch.UpdateNeighborhoods` | src/modality_graph.cpp:472-587 | the in-place passes over the columns of a batch leave exactly the edges (collection, source, target, id) they name in addition, or none of them, with the greatest 64-bit key as id of all when none are given; the index stays valid and mirrored |
| `GraphBatch.GrowsAsCounted` | src/modality_graph.cpp:213-262 | whatever repeats, an entry never gains more ships than the counting pass counted against the stored entry |
| `GraphBatch.InsertionsFit` | src/modality_graph.cpp:539-548 | the final byte length of every entry is at most the size computed from the counting pass |
| `GraphExport.ExportVertex` | src/modality_graph.cpp:389-426 | one vertex writes its tuples on the tape and reports their number as its degree |
| `GraphExport.ExportEdgeTuples` | src/modality_graph.cpp:360-427 | the tape never outgrows the capacity counted beforehand, and with the degrees a caller finds on it the tuples of each vertex in turn, as source, target and id |
| `GraphExport.ListsIncidentOnce` | include/ukv/graph.h:111-118 | under the mirror, the export of a vertex in both roles lists every incident edge exactly once, self-loops and parallel edges included, outgoing by target before incoming by source |
| `GraphExport.ListsOutgoing` | src/modality_graph.cpp:391-407 | asked for outgoing edges a vertex lists exactly the stored edges that start at it, once each, by target |
| `GraphExport.ListsIncoming` | src/modality_graph.cpp:407-424 | asked for incoming edges it lists exactly the stored edges that end at it, self-loops included, once each, by source |
| `GraphExport.OneRoleDegrees` | src/modality_graph.cpp:391-424 | in one role the query for degrees alone agrees with the tuples, and in no role nothing is listed |
| `GraphExport.DegreesAgree` | src/modality_graph.cpp:391-424 | asking only for degrees agrees with the exported tuples exactly when the vertex has no self-loop |
| `GraphExport.SelfLoopCountedTwice` | src/modality_graph.cpp:407-424 | for one stored self-loop the export has one tuple and the query for degrees alone says two |
| `GraphExport.ExportVertices` | include/ukv/graph.h:108-109 | each degree is the number of tuples of its vertex; a vertex that is not stored reports zero and never the promised marker |
| `PathLayout.CounterRoundTrip` | src/modality_paths.cpp:57-63 | a counter of four bytes reads back for every 32-bit number |
| `PathLayout.SizeOfBucket` | src/modality_paths.cpp:60-63 | the header of a bucket tells its number of members, also when it is empty |
| `PathLayout.MemberInBlob` | src/modality_paths.cpp:65-81 | every key and value length and every slice found through the prefix sums is the member's own |
| `PathLayout.OnePairBytes` | src/modality_paths.cpp:57-81 | the bytes of a bucket with one short pair, one by one |
| `PathBucket.FindInBucket` | src/modality_paths.cpp:91-109 | walking keys and values side by side ends with the last member of the key |
| `PathBucket.UpsertInBucket` | src/modality_paths.cpp:188-245 | the new blob has exactly the computed size and holds the old members without the key, in order, followed by the new pair |
| `PathBucket.CopyMembers` | src/modality_paths.cpp:219-245 | the copying loop fills the four regions of the new blob completely |
| `PathBucket.RemovePart` | src/modality_paths.cpp:148-157 | what follows a part moves over it, and the view shrinks by the part |
| `PathBucket.RemovedLayout` | src/modality_paths.cpp:159-186 | taking value, key and both lengths out of a bucket, back to front, and lowering the count gives the bucket of the other members |
| `PathBucket.RemoveFromBucket` | src/modality_paths.cpp:159-186 | the in-place removal leaves the bucket of the members without the key, and no bytes when none is left |
| `PathStore.DecodeBucket` | src/modality_paths.cpp:65-100 | decoding a bucket gives back its members in order |
| `PathStore.LookupMeans` | src/modality_paths.cpp:102-109 | with distinct keys, looking a key up means membership |
| `PathStore.BucketRefines` | src/modality_paths.cpp:314-328 | one bucket agrees with the map on every path that hashes to it, whatever else hashes there |
| `PathStore.WriteRefinesMap` | src/modality_paths.cpp:259-348 | for every hash function a batch write is its upserts and removals applied one by one to a map from paths to values, and every bucket keeps distinct keys that hash to it |
| `PathStore.UpdateOne` | src/modality_paths.cpp:322-327 | one task on the view of its bucket updates its members, in the source's layout |
| `PathStore.PathsWrite` | src/modality_paths.cpp:259-348 | the batched write leaves in every touched bucket the result of its own tasks in order, and no other place changed |
| `PathStore.EmptiedBucketDisappears` | src/modality_paths.cpp:159-171 | a bucket left without members is erased exactly when it had one at some point of the batch or no bucket of the batch has stored bytes; otherwise it keeps an empty blob |
| `PathStore.LoneRemovalErases` | include/ukv/cpp/ranges_args.hpp:69-71 | removing one path whose bucket has no bytes erases the bucket, even one stored as an empty blob |
| `PathStore.RemovalBesideBytesCreates` | src/modality_paths.cpp:302-305 | beside a bucket that has bytes, the same removal leaves an empty blob where there was none |
| `PathStore.RunsRefineMap` | src/modality_paths.cpp:259-348 | after any sequence of batches the store represents the map the batches build |
| `PathRead.CompactInPlace` | src/modality_paths.cpp:399-428 | moving found values to the front of the tape they were found on never overwrites a bucket that is not read yet |
| `PathRead.PathsRead` | src/modality_paths.cpp:350-431 | every task's slice is the lookup of its path followed by a zero byte, and a missing path is reported missing, whatever repeats |
| `PathMatch.VisitedIs` | src/helpers/full_scan.hpp:26-80 | the full scan calls back for every bucket, except that a bucket alone in the last batch is missed |
| `PathMatch.ScanBucket` | src/modality_paths.cpp:457-483 | one callback lists the fresh matches of a bucket up to the limit |
| `PathMatch.MatchPage` | src/modality_paths.cpp:438-494 | one page is the first matches after the previous path among the visited buckets, up to the limit |
| `Pagination.PageIs` | src/modality_paths.cpp:438-494 | the page after the first matches is the next stretch of what the scan can see |
| `Pagination.MatchAll` | src/modality_paths.cpp:438-494 | a caller who repeats the match with the last returned path ends; no path is repeated, none before the last bucket is left out, and all are returned exactly when the last bucket has no match or is seen, and fits, where the others run out |
| `Pagination.OneBucketListsNothing` | src/helpers/full_scan.hpp:47-49 | a collection whose paths share one bucket is never matched |
| `Pagination.MatchesAreStored` | src/modality_paths.cpp:438-494 | the matches of a collection are the stored paths that satisfy the predicate, each once |
| `Scans.KeysFromMeans` | src/engine_umem.cpp:151-194 | the reference lists exactly the keys of the collection at or after the start, ascending |
| `Scans.ScanAndWatch` | src/engine_umem.cpp:151-194 | finding the start and following upper bounds ends and returns the first keys up to the limit, exactly when the limit is positive or the start is not stored; otherwise all keys from the start |
| `Scans.ZeroLimitListsAll` | src/engine_umem.cpp:151-194 | with limit zero a scan from the first of two stored keys returns both |
| `Scans.SeekFinds` | src/engine_rocksdb.cpp:570-571 | seeking in the column of a collection is looking the start up in the whole container |
| `Scans.SeekAndStep` | src/engine_rocksdb.cpp:570-577 | the seek and step loop returns the first keys, as many as the limit says or all there are |
| `Scans.ScansAgree` | src/engine_rocksdb.cpp:556-580 | the two engines answer alike exactly when the limit is positive or the start is not stored |
| `Scans.ScanBatch` | src/engine_umem.cpp:627-659 | as long as the answers fit the memory allocated by the limits, the output offsets are the prefix sums of the counts and each task finds its keys between its offsets |
| `Scans.LimitsSuffice` | src/engine_umem.cpp:633-635 | they fit when every limit is positive or its start is not stored |
| `Scans.OneScanFits` | src/engine_umem.cpp:633-645 | a single scan outgrows its memory exactly with limit zero and a stored start |
| `Sessions.SessionPool.constructor` | src/flight_server.cpp:298-301 | a pool starts with all slots free |
| `Sessions.SessionPool.Pop` | src/flight_server.cpp:274-290 | takes a session away only if it is old and not executing; an empty pool refuses |
| `Sessions.SessionPool.ContinueTxn` | src/flight_server.cpp:310-330 | marks a known idle session as executing and hands out its slots |
| `Sessions.SessionPool.RequestTxn` | src/flight_server.cpp:333-361 | a new id gets the last free slots, or those of an evicted session |
| `Sessions.SessionPool.HoldTxn` | src/flight_server.cpp:363-366 | files the slots under the id, idle |
| `Sessions.SessionPool.ReleaseTxn` | src/flight_server.cpp:368-372 | frees both slots |
| `Sessions.SessionPool.ReleaseTxnOf` | src/flight_server.cpp:374-383 | frees the slots of a known id and forgets it |
| `Sessions.SessionPool.RequestArena` | src/flight_server.cpp:385-399 | hands out the last free arena, or evicts a session and frees its transaction |
| `Sessions.SessionPool.ReleaseArena` | src/flight_server.cpp:401-404 | frees an arena; a null handle becomes a free slot that did not exist |
| `Sessions.SessionPool.AcquireLock` | src/flight_server.cpp:406-413 | a lock of a transaction continues it, another borrows an arena |
| `Sessions.SessionPool.DestroyLock` | src/flight_server.cpp:416-423 | returns what the lock held; a refused lock returns a null arena |
| `Sessions.GrantsSurvive` | src/flight_server.cpp:274-290 | whatever candidate is picked for eviction, an executing session, a begun transaction and a lent arena survive every step but their own return |
| `Sessions.GrantedExactly` | src/flight_server.cpp:310-412 | after every disciplined run a transaction is continued or locked exactly when it is filed and nobody holds it, a new one granted exactly when its id is not filed and slots of both kinds are free or an old candidate is held by nobody, and a lone arena likewise |
| `Sessions.GrantsAreExclusive` | src/flight_server.cpp:310-412 | no transaction and no arena is granted while another holder has it |
| `Sessions.ExecutingIsNeverEvicted` | src/flight_server.cpp:274-290 | over every run an executing session keeps its slots until its holder returns them, whatever is evicted |
| `Sessions.StepKeepsInvariant` | src/flight_server.cpp:310-423 | no step loses, doubles or shares a slot; only a refused lock makes one |
| `Sessions.RunsKeepSlots` | src/flight_server.cpp:274-423 | in every disciplined run each arena and transaction slot is in exactly one place; free transactions less free arenas are the outstanding arena-only locks less the refused locks |
| `Sessions.AllReturned` | src/flight_server.cpp:401-423 | with every grant returned, both free lists have the same size exactly when no lock was refused, and nothing is executing |
| `Sessions.RefusedLockMints` | src/flight_server.cpp:416-423 | a pool without slots refuses a lock, and has one arena once the lock is destroyed |
| `Numbers.PaddedValue` | src/flight_client.cpp:124-128 | padded hexadecimal digits have the value of the number they were printed from |
| `Numbers.HexRoundTrip` | src/flight_server.cpp:178-188 | every 64-bit number survives sixteen hexadecimal digits, as long as no further digit follows them |
| `Numbers.DecimalRoundTrip` | src/flight_server.cpp:194-198 | every 64-bit number survives decimal printing |
| `Commands.Search` | src/flight_server.cpp:55-57 | finds the first occurrence at or after the cursor |
| `Commands.ParamValue` | src/flight_server.cpp:51-84 | answers with the value of the first occurrence that is a whole key or ends the text, and with nothing if there is none |
| `Commands.ParamsRoundTrip` | src/flight_server.cpp:51-84 | searching the printed parameters gives back each value, empty for flags, nothing for absent names |
| `Commands.CommandIsRecognised` | src/flight_server.cpp:86-90 | a printed command is recognised by its own name and by no other |
| `Commands.UnterminatedPair` | src/flight_client.cpp:1295-1295 | without the closing ampersand an absent name is reported as given exactly when the last value ends with it |
| `Commands.CollectionNameReadAsFlag` | src/flight_server.cpp:58-60 | creating a collection called flush is read as a request to flush |
| `Commands.ReadCommandRoundTrip` | src/flight_server.cpp:441-471 | the server understands every read request, its ids, snapshot, part and flags, as the client printed it |
| `Columns.BitAssigned` | include/ukv/cpp/ranges.hpp:111-140 | assigning one bit of an octet leaves the other seven |
| `Columns.LowestBitFirst` | include/ukv/cpp/ranges.hpp:111-140 | the first value of an octet has its lowest bit |
| `Columns.ValueOnTape` | src/flight_client.cpp:318-327 | each packed value lies between its offset and the next |
| `Columns.PackColumn` | src/flight_client.cpp:306-332 | offsets, bits and tape describe the values; a missing one takes no bytes and clears its bit |
| `Columns.RebuildLengths` | src/flight_client.cpp:247-259 | a length is the difference of offsets, or the mark of a missing value where the bit is clear |
| `Columns.ColumnRoundTrip` | src/flight_client.cpp:306-332 | packing nullable values and rebuilding the lengths gives them back exactly when no value has the length that marks a missing one and, without presence bits, none is missing |
| `JsonPrinter.Output.AppendEscaped` | python/nlohmann.hpp:74-116 | a character is appended escaped, control characters through two overwritten hexadecimal digits |
| `JsonPrinter.Output.AppendString` | python/nlohmann.hpp:68-119 | appends the quoted, escaped string |
| `JsonPrinter.Output.AppendItems` | python/nlohmann.hpp:120-130 | overwriting the last comma leaves the items separated by commas between brackets |
| `JsonPrinter.Output.AppendEntries` | python/nlohmann.hpp:132-146 | overwriting the last comma leaves the entries separated by commas between braces |
| `JsonPrinter.Output.ToString` | python/nlohmann.hpp:53-149 | appends the text of the value and changes nothing before it |
| `JsonPrinter.CharsRead` | python/nlohmann.hpp:73-118 | reading an escaped string gives back its characters and stops after the closing quote |
| `JsonPrinter.ValueRead` | python/nlohmann.hpp:53-149 | reading the text of a value in front of anything that may follow gives the value and stops right after it |
| `JsonPrinter.PrinterRoundTrip` | python/nlohmann.hpp:53-149 | printed text always parses, and parses to the printed value exactly when every integer fits in 64 bits; others come back as -1 |
| `JsonPrinter.WideIntIsLost` | python/nlohmann.hpp:58-59 | the integer 2 to the 63 comes back as -1 |
| `JsonPrinter.StringsAreEscaped` | python/nlohmann.hpp:73-118 | no raw quote, backslash or control character is left inside a printed string |
| `Documents.PointerSplits` | src/modality_docs.cpp:1045-1050 | a pointer is its parent's pointer and one last token |
| `Documents.UpsertThenLookUp` | src/modality_docs.cpp:1038-1119 | after an upsert or update the same pointer resolves to the new value exactly when its token lands and has no tilde; what it resolves to otherwise is stated too |
| `Documents.TildeIsNotFound` | src/modality_docs.cpp:1104-1113 | an upserted key a~1b is written as it is spelled, and its pointer then finds nothing |
| `Documents.UnescapeZero` | src/modality_docs.cpp:1045-1050 | the two escapes of a token and the wrong ones |
| `Documents.UpsertFrame` | src/modality_docs.cpp:1038-1119 | pointers neither above nor below the edited field resolve as before |
| `Documents.RemovedChild` | src/modality_docs.cpp:1097-1100 | removing a member succeeds exactly when it is there; the name is then gone and no other changes |
| `Documents.InsertedChild` | src/modality_docs.cpp:1093-1096 | an inserted member is found exactly when its name was new; otherwise the old one stays visible |
| `DocPatch.EditedDocument.ModifyField` | src/modality_docs.cpp:1038-1119 | edits the parent of a field, or fails and leaves the document alone |
| `DocPatch.EditedDocument.ApplyOp` | src/modality_docs.cpp:1155-1218 | one operation, with its errors; after an error nothing changes |
| `DocPatch.EditedDocument.Patch` | src/modality_docs.cpp:1142-1220 | the operations in order, the first error deciding the outcome |
| `DocPatch.HereAgrees` | src/modality_docs.cpp:1053-1118 | at one location the source does what RFC 6902 asks exactly under a condition on parent, token and value, escaped tokens included |
| `DocPatch.FieldIff` | src/modality_docs.cpp:1038-1119 | at the end of a pointer the source and RFC 6902 agree exactly under the same condition on the parent |
| `Conformance.PutsMeet` | src/modality_docs.cpp:1203-1216 | two documents that differ in one object become equal by a put exactly when it overwrites the difference |
| `Conformance.CopyIff` | src/modality_docs.cpp:1188-1202 | a copy does what section 4.5 asks exactly under a condition; from the empty pointer, exactly when both fail |
| `Conformance.MoveIff` | src/modality_docs.cpp:1203-1217 | a move does what section 4.4 asks exactly under a condition; when the last token of its source has a tilde, exactly when both fail or the target covers up that two different members were removed |
| `Conformance.OpIff` | src/modality_docs.cpp:1142-1220 | every operation of a root-level patch that the source defines does what section 4 of RFC 6902 asks exactly under its condition, texts that are no pointers and escaped tokens included; test and unrecognised operations are skipped |
| `Conformance.PatchAgrees` | src/modality_docs.cpp:1142-1220 | a root-level patch whose operations meet their conditions gives the result of RFC 6902, or its failure |
| `Conformance.CopyLands` | src/modality_docs.cpp:1188-1202 | after a copy the target holds the value its source names, by pointer or by member name; without one the copy fails |
| `Conformance.MoveLands` | src/modality_docs.cpp:1203-1217 | after a move the target holds the value its source names |
| `Conformance.SkippedOperations` | src/modality_docs.cpp:1155-1218 | tests and operations that are not recognised leave the document alone |
| `Conformance.NothingLeft` | src/modality_docs.cpp:1050-1051 | once the whole document is removed every operation at a place in it fails |
| `Prefixes.PointerConcat` | src/modality_docs.cpp:1121-1140 | the path of a prefixed pointer is the path of the prefix followed by the path of the pointer |
| `Prefixes.OperationBelow` | src/modality_docs.cpp:1142-1187 | adding, removing or replacing below a field does to the document found there what it does to a whole document |
| `Prefixes.OperationAt` | src/modality_docs.cpp:1121-1140 | with an empty path the operation is at the field itself |
| `Prefixes.CopyBelow` | src/modality_docs.cpp:1188-1202 | a copy below a field takes its source from the root of the document |
| `Prefixes.MoveBelow` | src/modality_docs.cpp:1203-1217 | a move below a field takes its value from the root and removes below the field |
| `Prefixes.CopyLeavesField` | src/modality_docs.cpp:1188-1202 | below a field, a copy takes a member of the root instead of the one below the field |
| `Conformance.AddDoublesMember` | src/modality_docs.cpp:1093-1096 | adding a member that exists doubles it instead of replacing its value |
| `Conformance.CopyOverwritesElement` | src/modality_docs.cpp:1076-1081 | copying onto an array element overwrites it instead of inserting before it |
| `Conformance.CopyTakesEmptyName` | src/modality_docs.cpp:224-225 | copying from the empty pointer takes a member called "" instead of the whole document |
| `Conformance.DashRemovesFirst` | src/modality_docs.cpp:1053-1069 | removing the position past the end removes the first element instead of failing |
| `Conformance.MoveRemovesAnother` | src/modality_docs.cpp:1203-1216 | moving a~1b copies the member a/b but removes the one spelled a~1b |
| `DocBatch.AllAscending` | include/ukv/cpp/ranges.hpp:653-661 | tells whether the keys strictly ascend |
| `DocBatch.ReadUnique` | src/modality_docs.cpp:1254-1309 | distinct places are read in the order of the tasks |
| `DocBatch.ReadDocs` | src/modality_docs.cpp:1401-1492 | any order and repetition of keys gives each task the field of its own document, or nothing for a missing or empty one |
| `DocBatch.ChoosePlaces` | src/modality_docs.cpp:1416-1448 | distinct places are written as they are given, others sorted and without repetitions |
| `DocBatch.DocCollection.ModifyDocs` | src/modality_docs.cpp:1494-1555 | a batch fails, and then changes nothing, exactly when a task is rejected; over distinct places the bytes stored afterwards parse to what each task asks for: after an upsert or update the field holds the content wherever its token lands, after an insert the new member or element is there, without a field the content is the document, and a root patch that meets its conditions gives the document of RFC 6902 |
| `DocBatch.RewrittenMeans` | src/modality_docs.cpp:1222-1250 | one task fails exactly on bytes that are no document, on a plain insert over a stored key, or when its edit is refused, an update of a missing member among them; otherwise its document has become what it should |
| `DocBatch.PutMeans` | src/modality_docs.cpp:1105-1113 | after an upsert or update the field resolves to the content exactly when its token lands, and unrelated paths resolve as before, with or without a leading slash |
| `DocBatch.InsertMeans` | src/modality_docs.cpp:1063-1096 | after an insert a new member is found and hides none, and an element stands at its index or at the end |
| `DocBatch.DistinctKeysLand` | src/modality_docs.cpp:1494-1555 | over distinct places each place holds its own document and no other place changes |
| `DocBatch.RepeatedKeysLand` | src/modality_docs.cpp:1537-1549 | whatever the documents are, every place holds a result of its own exactly when the leading tasks name the written places in order |
| `DocBatch.RepeatedKeysMisplace` | src/modality_docs.cpp:1537-1549 | tasks over the keys 2, 1, 1 leave the result for key 2 under key 1 |
| `Gist.LowerBound` | src/modality_docs.cpp:1797-1797 | the binary search over exported paths splits them at the wanted one |
| `Gist.Enumeration.WriteKey` | src/modality_docs.cpp:1768-1770 | writes a slash and a key inside the buffer, behind the path at hand, with a terminator |
| `Gist.Enumeration.ExportLeaf` | src/modality_docs.cpp:1794-1809 | exports a path that was not exported before and keeps the array sorted |
| `Gist.Enumeration.Visit` | src/modality_docs.cpp:1745-1810 | fails exactly when some path does not fit; otherwise appends the new leaf paths below the node and restores the buffer to the path of the node |
| `Gist.DocsGist` | src/modality_docs.cpp:1853-1866 | fails exactly when some document has an overlong path; otherwise exports the leaf paths of all documents in order of their first occurrence |
| `Gist.OneKeyFits` | src/modality_docs.cpp:1763-1763 | a document of one member fits exactly when slash, key and terminator take less than 512 characters |
| `Gist.FittingLeaves` | src/modality_docs.cpp:1763-1763 | a document that fits has only leaf paths shorter than 512 characters |
| `Gist.EveryLeafOnce` | src/modality_docs.cpp:1853-1866 | each distinct leaf path of all documents is exported exactly once |
| `Gist.PointersAreFirstLeaves` | src/modality_docs.cpp:1745-1810 | for keys that need no escaping, a pointer leads to a leaf exactly when it is a leaf path of the document without the later members of each name |
| `Gist.PathsResolve` | src/modality_docs.cpp:1745-1810 | every exported path leads to a leaf exactly when the first members of each name have all the leaf paths |
| `Gist.LeavesAreListed` | src/modality_docs.cpp:1745-1810 | every pointer to a leaf is among the exported paths, repeated names or not |
| `Gist.SecondOfANameIsHidden` | src/modality_docs.cpp:1755-1772 | with two members of one name a leaf below the second is listed but cannot be reached |

## Left out

- The staging and commit internals of the container library: a commit is one atomic step under the
  documented rule; scans inside transactions and the absence of keys between scanned ones are not watched
  there and not part of the interleavings.
- Non-transactional writes of the in-memory engine, which erase by storing an empty pair.
- `ukv_graph_remove_vertices`, and removals of all edges between two vertices at once.
- Widths of counts: outside the stored layouts, degrees, offsets and lengths are unbounded numbers, and a
  key one past the largest does not wrap around. Buckets, and vertices in transactions, are required to fit
  their 32-bit counters.
- Vertex collections: an edge names one collection for both of its ends, as the update loop does.
- The last offset of a path read is written past the allocated array in the source; the model has room for it.
- Prefix and regular-expression predicates of a path match: the predicate is any function of the path.
- Time in the session pool: whether the candidate for eviction is old enough is any answer, and which
  session is the candidate is any choice. Handles are slots with an identity, null handles included.
- The error paths of the server's transaction actions, which return grants they were not given.
- Request kinds other than reads in the end-to-end command theorem; they are printed with the same parts.
- The strides of packed columns, and columns that are already packed.
- Floating-point numbers, byte strings and dictionaries with other keys in the JSON printer; escapes
  beyond the basic plane in the reader.
- Trees of documents are values: an edit rebuilds the path to its parent, where the source changes nodes
  in place. Aliasing of nodes is not captured.
- The merge modification, and the parsing of patch operations: one with missing or superfluous members
  is malformed, although RFC 6902 would ignore superfluous ones.
- Copying to the whole document, and moving it or something onto it: the source then builds a text from a
  null pointer, which is undefined.
- Conformance.OpIff: arrays that an operation indexes are taken to be shorter than 2 to the 64.
- Gist.PathsResolve: documents with a slash, a tilde or a zero character in a key are excluded.
- Gist.PointersAreFirstLeaves: the same documents are excluded.
- Gist.LeavesAreListed: the same documents are excluded.
- Scans.ScanBatch: answers that outgrow the allocated memory are excluded, as the source then writes past it.
- The entries of a batch update hold ships, not bytes; `GraphLayout` lays out what is stored. Bytes shorter
  than the ships their header counts are read past their end in the source, and as no edges in the model.
- BSON and MessagePack conversion, `ukv_docs_gather`, and bitmaps that share memory.
