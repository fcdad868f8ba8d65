# ParqDB: verified model of the browser client, the IPC decoder and publication

This project models the stateful core of ParqDB and proves what it promises.

- **Browser range cache and request coalescer** (`browser/src/http.ts`). `RangeCache` holds the
  byte-bounded LRU as a class whose methods equal functions on its state; `RangeCacheRuns` proves
  invariants over every sequence of reads and load callbacks. `Coalescing` proves the greedy merge of
  pending reads sound and optimal. `RangeClient` composes any number of buffers with one cache and a
  network that answers in any order; `RangeClientRuns` proves that the whole refines a plain read and
  that every slice settles exactly once; `RangeClientOutcomes` says which slices are accepted, what a flush
  sends, and that the shared cache always is in a state of its own runs.
- **Query pipeline** (`browser/src/index.ts`). `Planning`, `WorkerPool` and `TopK` treat pruning, the
  concurrent readers and the two-level merge; `Search` joins them: a query is a plain scan of the
  selected lists, sorted and cut.
- **Manifest** (`browser/src/manifest.ts`). `Artifacts` and `Manifest` say exactly which descriptors and
  inventories are accepted, and turn neighbour checks into global order facts. `StrictJson` is the recursive-descent parser as a class with a position, equal to a parser on
  texts; `JsonDocuments` and `JsonValues` prove that it accepts exactly the renderings of well-formed
  documents without duplicate keys, and which values survive a round trip; `JsonTokens` gives
  delimiters, white space and string escapes in code points; `JsonLayout` proves that all JSON of the subset
  is parsed, and which of the accepted texts are JSON.
- **Arrow IPC decoder driver** (`python/src/ipc.rs`). `IpcDecoder` and `IpcDecoderRuns`: byte
  conservation, frame limits, what failures mean, and independence of the chunking, for any lawful
  stream decoder. `IpcDecoderCalls` tells the outcome of a push from its input beforehand.
- **Publication** (`python/parqdb/publish.py`). `Publish` and `PublishRuns`: the manifest as commit
  marker under writes that become visible bit by bit, fail, or leave parts behind, and under failing
  deletes.
- **Array loops**: streaming sampling (`Sampling`) and the ID-domain check (`IdDomain`).

`Wrappers`, `Numbers`, `Sequences`, `Bags` and `Sorting` are shared helpers.

How to read it: a class (`HttpRangeCache`, `HttpRangeBuffer`, `StrictJsonParser`, `PyIpcDecoder`,
`S3Writer`, `LocalWriter`) has the source's fields; each of its methods is proved equal to a function
on the state. The lemmas speak about these functions. A run is a sequence of events; `After` applies
those that are enabled, so a statement about `After` for all event sequences holds in every reachable
state under every interleaving. JavaScript runs each synchronous stretch atomically, so such a
stretch is one event.

## Findings

- **A dangling manifest is possible.** For an object store there are two ways. A reader can see a part
  of the manifest: while it is written, or because its write failed and left a truncated object. Or the
  write raises after the whole manifest became visible, the delete that should retract it fails, and a
  cleanup delete of a data object then succeeds. `PublishRuns.ManifestCommits` shows that the commit
  property holds if and only if neither happens, `PublishRuns.DanglingExamples` gives a run of each
  kind, and `PublishRuns.LocalManifestCommits` is the counterpart for a directory. With atomic writes
  the property always holds (`PublishRuns.AtomicWritesCommit`).
- **A schema can be lost.** When the push that finds the schema goes on to raise, the caller never
  receives it (`IpcDecoderRuns.SchemaLostExample`). Which inputs do this is known beforehand: the stream
  decoder refuses a byte after it found the schema, or it finds the schema within the first window and a
  whole frame and more follows without a batch (`IpcDecoderCalls.LossForeseen`). The schema is returned
  exactly once if and only if no push of the run met such an input
  (`IpcDecoderCalls.SchemaReturnedExactly`); chunks of at most one byte more than a frame may hold avoid
  the second case (`IpcDecoderRuns.ShortChunksKeepSchema`). Such a decoder cannot recover
  (`IpcDecoderRuns.FailureIsFinal`), so a run that finishes has lost nothing
  (`IpcDecoderRuns.FinishedIsComplete`).
- **Bytes can be left in the buffer after the stream decoder was fed them**, because the input is not
  advanced over a window in which a malformed byte is found (`IpcDecoderCalls.FedTwiceExample`). The
  bytes fed, followed by the buffer, are the accepted chunks after every push but exactly those whose
  input holds a malformed byte within reach that opens neither the first window nor the second
  (`IpcDecoderCalls.ConservationExact`).
- **The key `__proto__` does not survive the manifest parser.** Assigning it sets a prototype, so a
  value tree comes back unchanged if and only if none of its objects has that key
  (`JsonValues.ValueRoundTrip`, `JsonValues.ProtoIsLost`).
- **The parser accepts texts that are not JSON**: it skips every white space of the source language,
  RFC 8259, section 2, only four. An accepted text is JSON if and only if its layout uses only these
  (`JsonLayout.JsonExactly`, `JsonLayout.AcceptedButNotJson`); `JsonTokens.SpaceUnits` lists all that it
  skips.
- **The guard `ranges.get(key) !== entry` never fires in the success callback**: an entry still
  loading cannot be removed by anything but its own callback (`RangeCacheRuns.DueIsResident`).
- **The test `written != rows` in sampling is implied** by the row-count test beside it
  (`Sampling.AllBelow`).
- **A duplicate inside one batch passes the per-batch uniqueness test**; the final count catches it by
  a pigeonhole argument (`IdDomain.ValidateIds`, `IdDomain.Pigeonhole`).

## Model

| member | source | states |
|---|---|---|
| Coalescing.Flush | browser/src/http.ts:217-241 | The merge loop over the sorted pending reads gives ranges whose groups, concatenated, are the sorted reads; whose `gapBytes` is the number of byte positions no read wants; which respect both limits; and no plan, with groups of neighbours or not, has fewer requests. |
| Coalescing.CoalescedSound | browser/src/http.ts:225-241 | For every sorted list of acceptable reads the greedy ranges are exact, feasible, a partition in order, and each later group opens with a read that ends after every earlier one and could not have joined the group before. |
| Coalescing.UncoveredSnoc | browser/src/http.ts:228-236 | Appending a read adds to the uncovered positions exactly the hole between the old end and its start. |
| Coalescing.ExtendRange | browser/src/http.ts:230-237 | Extending a range keeps start, end and `gapBytes` exact, and the two tests hold if and only if one request may serve the extended group. |
| Coalescing.FeasibleSuffix | browser/src/http.ts:229-239 | Dropping leading reads keeps a group servable when the first one kept ends last so far. |
| Coalescing.StaysAhead | browser/src/http.ts:225-241 | After any number of groups the greedy cut has served at least as many reads as any other feasible cut. |
| Coalescing.GreedyIsOptimal | browser/src/http.ts:225-241 | No assignment of the reads to requests within both limits uses fewer requests, whether or not the reads of a request are neighbours. |
| Coalescing.NoFetchForTwoOpeners | browser/src/http.ts:230-239 | One request within the limits cannot serve the opening reads of two greedy groups. |
| Coalescing.CutIsPlan | browser/src/http.ts:225-241 | Every feasible cut into consecutive groups is such an assignment, so no cut has fewer groups either. |
| Coalescing.SortedByComparator | browser/src/http.ts:226-226 | For every input the reads end up ordered by start, and reads with one start by end. |
| RangeCache.Covering | browser/src/http.ts:72-80 | Finds a covering range of the same object if there is one, the shortest, and among equals the first in insertion order. |
| RangeCache.Oldest | browser/src/http.ts:123-127 | Finds a settled range with minimal `lastUsed`, or none exactly when nothing is settled. |
| RangeCache.HttpRangeCache.constructor | browser/src/http.ts:38-50 | A new cache is empty with all counters zero. |
| RangeCache.HttpRangeCache.ReadRange | browser/src/http.ts:63-102 | The synchronous part of `read`: bypass, hit on the shortest covering range, oversize bypass, or insert, with the whole new state. |
| RangeCache.HttpRangeCache.OnSuccess | browser/src/http.ts:104-115 | The success callback: settle, drop the contained settled ranges of the object while iterating, evict; the whole new state. |
| RangeCache.HttpRangeCache.OnFailure | browser/src/http.ts:116-116 | The failure callback removes its own entry if resident. |
| RangeCache.HttpRangeCache.EvictToCapacity | browser/src/http.ts:121-131 | The eviction loop terminates and gives the state of the recursive eviction. |
| RangeCache.HttpRangeCache.DropAt | browser/src/http.ts:133-137 | Removal takes one entry and its length, nothing else. |
| RangeCacheRuns.ReadOutcome | browser/src/http.ts:70-102 | Which of the four outcomes a read has, by the capacity and the resident ranges: bypass without capacity, hit on a shortest resident range around it, oversize bypass exactly if longer than the capacity, otherwise an appended entry; with the whole new state. |
| RangeCacheRuns.ReadIsServed | browser/src/http.ts:72-102 | After any run, a read that fits an enabled cache awaits a resident entry that contains it. |
| RangeCacheRuns.ReadValid | browser/src/http.ts:70-102 | A read keeps the state valid; an insert appends and never overwrites a live key. |
| RangeCacheRuns.EvictKeeps | browser/src/http.ts:121-131 | Eviction removes only settled entries, never one in flight, and counts each removal. |
| RangeCacheRuns.EvictBound | browser/src/http.ts:121-131 | After eviction the settled bytes are within capacity. |
| RangeCacheRuns.EvictIsShortestPrefix | browser/src/http.ts:121-131 | What eviction removes is a prefix of the settled entries in `lastUsed` order; it suffices, and every cutoff that suffices keeps no more entries. |
| RangeCacheRuns.SucceedEffect | browser/src/http.ts:104-115 | After the success callback the entry is settled or evicted, every survivor was resident and is not superseded, every other entry still loading stays, and the counters balance. |
| RangeCacheRuns.SucceedExactly | browser/src/http.ts:104-115 | The success callback keeps the arrived range and every other but the settled ones of its object inside it, and then evicts the settled ones used longest ago, as few as suffice. |
| RangeCacheRuns.FailExactly | browser/src/http.ts:116-116 | The failure callback removes the failed range and nothing else. |
| RangeCacheRuns.DueIsResident | browser/src/http.ts:105-105 | A load whose callback is due has exactly one resident entry, which is unsettled. |
| RangeCacheRuns.RunInv | browser/src/http.ts:63-137 | Every state reachable by reads and callbacks in any order satisfies all cache invariants. |
| RangeCacheRuns.SizeAccounting | browser/src/http.ts:101-136 | In every reachable state `sizeBytes` is the sum of resident lengths, settled bytes are within capacity, and with nothing in flight so is `sizeBytes`. |
| RangeCacheRuns.MissAccounting | browser/src/http.ts:87-137 | Misses are oversize bypasses plus resident, evicted, superseded and failed entries. |
| RangeCacheRuns.NestedRanges | browser/src/http.ts:72-113 | Of two nested settled resident ranges the inner one was issued first and settled last. |
| RangeCacheRuns.LookupsAndRecency | browser/src/http.ts:81-99 | Lookups of an enabled cache are hits plus misses; `lastUsed` orders the entries by the last read they served. |
| RangeCacheRuns.EntriesDistinct | browser/src/http.ts:91-101 | No two resident entries share a key or a `lastUsed` value, so the eviction victim is unique; residents stand in issue order. |
| RangeClient.HttpRangeBuffer.constructor | browser/src/http.ts:178-193 | A new buffer has nothing pending and no timer. |
| RangeClient.HttpRangeBuffer.Slice | browser/src/http.ts:195-214 | A slice is rejected exactly if it is empty, outside the object, or over the limit without being the whole object; the whole object is fetched directly, every other is queued with its bounds; a timer is set exactly when none was outstanding. |
| RangeClient.HttpRangeBuffer.OnTimer | browser/src/http.ts:208-213 | The timer takes all pending reads and clears the flag. |
| RangeClientRuns.IssueInv | browser/src/http.ts:242-250 | Sending one coalesced range through the cache keeps every invariant and moves exactly its tickets from the batch to those awaiting it. |
| RangeClientRuns.CoalescedRangesOk | browser/src/http.ts:217-241 | The coalesced ranges of a valid buffer lie inside the object, contain each of their reads, and carry each pending ticket once. |
| RangeClientRuns.FlushInv | browser/src/http.ts:217-258 | A flush, including the rejection for a bad gap option, keeps every invariant. |
| RangeClientRuns.CallbackInv | browser/src/http.ts:103-117 | A cache callback keeps every invariant of the client. |
| RangeClientRuns.AnswerOk | browser/src/http.ts:84-85 | Both slicing steps together give a read exactly its own bytes of the object, or the error of the load it awaited. |
| RangeClientRuns.DeliverInv | browser/src/http.ts:251-256 | Settling the reads of a range keeps every invariant. |
| RangeClientRuns.RunInv | browser/src/http.ts:63-258 | All invariants hold after every interleaving of slices, flushes, load results, callbacks and deliveries on any number of buffers sharing a cache. |
| RangeClientRuns.RefinesPlainRead | browser/src/http.ts:63-258 | Every answer settles as the load its caller awaited: with exactly object[start..end) of its request if that load succeeded, with its error if it failed; a read never issued reports the gap-option error of a buffer of that object. |
| RangeClientRuns.FlushScheduledIffPending | browser/src/http.ts:204-213 | In every reachable state a flush is scheduled if and only if reads are pending. |
| RangeClientRuns.ExactlyOnePlace | browser/src/http.ts:195-258 | In every reachable state each accepted slice is pending once, awaited once or answered once, and never two of these. |
| RangeClientRuns.Progress | browser/src/http.ts:204-258 | While a slice is unanswered, a flush, a load result or a delivery can happen. |
| RangeClientRuns.WorkDecreases | browser/src/http.ts:195-258 | Every event other than a slice strictly lowers a natural measure of pending reads, unfinished loads, callbacks and deliveries, and keeps the answers given. |
| RangeClientRuns.NoMoreRangesThanReads | browser/src/http.ts:225-241 | A flush never issues more requests than it has reads. |
| RangeClientRuns.RestWithinWork | browser/src/http.ts:195-258 | Once slices stop, at most as many events follow as the measure says, and answers given are kept. |
| RangeClientRuns.ReachesRest | browser/src/http.ts:195-258 | From every reachable state some sequence of events leads to rest. |
| RangeClientRuns.EverySliceSettlesOnce | browser/src/http.ts:195-258 | Every accepted slice settles exactly once: once slices stop the client comes to rest within a bounded number of events, and then each slice ever accepted has exactly one answer, which is right in the sense of RefinesPlainRead. |
| RangeClientOutcomes.SliceOutcome | browser/src/http.ts:195-214 | In a run a slice is handed a ticket exactly if it is within bounds and limit; a whole object is loaded at once past the cache, any other waits with its own bounds and ticket. |
| RangeClientOutcomes.EveryAllowedSliceSettles | browser/src/http.ts:195-258 | Every slice within bounds and limit made in a run has, once slices stop and the client is at rest, exactly one reply, for the bounds it gave. |
| RangeClientOutcomes.IssueOutcome | browser/src/http.ts:242-250 | A range inside a resident one issues no load and awaits that range; any other is loaded, and exactly those that fit the cache are entered. |
| RangeClientOutcomes.FlushOutcome | browser/src/http.ts:217-250 | A flush empties the buffer; with a gap option outside [0, maxRangeBytes] it rejects each pending read, otherwise it sends the fewest ranges under the two options of its buffer, in order and through the cache. |
| RangeClientOutcomes.CacheIsRun | browser/src/http.ts:63-258 | In every state of a client its cache is the cache after a run of its own, of the reads of the flushes and the callbacks that fit how each load ended. |
| RangeClientOutcomes.RestingCacheWithinCapacity | browser/src/http.ts:101-131 | A client at rest holds settled ranges only, within the capacity. |
| TopK.MergeHits | browser/src/index.ts:169-195 | The loop over batches and hits, the sort by (distance, order) and the cut give the merged list the lemmas below speak of. |
| TopK.SortedByCloseness | browser/src/index.ts:186-191 | Sorting by (distance, push order) sorts by (distance, batch, row). |
| TopK.MergedIsTopOfKept | browser/src/index.ts:169-195 | The merged list is the best k of the kernel hits, in order. |
| TopK.TopOfKept | browser/src/index.ts:178-193 | Discarding a row loses nothing once k kept rows beat it. |
| TopK.MergedIsTopOfAll | browser/src/index.ts:169-195 | Under the kernel contract the merged list is the best k of all candidate rows by (distance, batch, row), for every split of rows into batches. |
| TopK.TopUnique | browser/src/index.ts:191-193 | The best k are unique in members and order. |
| TopK.SortedPrefixIsTop | browser/src/index.ts:191-193 | Sorting everything and cutting at k lists the best k. |
| Planning.PlanPostings | browser/src/index.ts:298-309 | Planning succeeds exactly for a file that agrees with the manifest, and its spans are strictly increasing, never touch, and hold exactly the rows of selected CIDs; the first row group that does not fit decides the error. |
| Planning.PlanExact | browser/src/index.ts:299-307 | The same for the loop over the row groups, for every list of row groups. |
| Planning.AppendSpanMembers | browser/src/index.ts:317-321 | Appending a span adds exactly its rows and keeps the spans canonical. |
| Planning.CandidateRowsExact | browser/src/index.ts:131-134 | The total span length of a file is the number of its rows with a selected CID. |
| Planning.KeptFiles | browser/src/index.ts:126-126 | The files a query reads are exactly those whose CID range holds a selected CID, in order. |
| Planning.PruningIsSafe | browser/src/index.ts:313-315 | A pruned file holds no row of a selected list. |
| WorkerPool.RunInv | browser/src/index.ts:323-339 | Under every interleaving positions are started in order, held by one worker each, and done exactly when started and not held. |
| WorkerPool.StartedPositions | browser/src/index.ts:328-337 | Started positions are 0..next-1, split disjointly into in flight, done and failed; at most `concurrency` are in flight; the mapper was called once for each. |
| WorkerPool.Completion | browser/src/index.ts:337-338 | When all workers have returned, results[i] is the mapper applied to values[i], for every i. |
| WorkerPool.Progress | browser/src/index.ts:330-336 | Until all workers have returned or thrown, one of them can take a step. |
| WorkerPool.RunsEnd | browser/src/index.ts:328-337 | Every run has at most two events for each value and one for each worker. |
| WorkerPool.RunToRest | browser/src/index.ts:328-337 | Every run can be continued, without the mapper throwing, until all workers have returned or thrown. |
| WorkerPool.RestIsCompletion | browser/src/index.ts:337-338 | Where no event can follow, all workers have returned or thrown; if the mapper never threw, every result is in place. |
| Search.JobsExact | browser/src/index.ts:126-151 | The read jobs are ordered by file, disjoint, and together hold exactly the selected rows. |
| Search.SearchIsTop | browser/src/index.ts:125-195 | The query result is the best k of the selected rows by (distance, file, row). |
| Search.SearchIsPlainScan | browser/src/index.ts:125-195 | For a well-formed artifact, every completed pool interleaving and every kernel meeting its contract, the query returns the first k rows of a plain scan of the selected lists sorted by (distance, file, row). |
| Search.CandidateRowsCountSelected | browser/src/index.ts:131-134 | `candidateRows` over all files is the exact number of rows in the selected lists. |
| Manifest.CheckCidOffsets | browser/src/manifest.ts:138-149 | The check accepts exactly strictly increasing integer offsets from 0 to nlist. |
| Manifest.CidInExactlyOneBucket | browser/src/manifest.ts:138-149 | With accepted offsets a CID is in [0, nlist) if and only if some bucket holds it, and then exactly one does. |
| Manifest.CheckPostings | browser/src/manifest.ts:152-185 | The loops accept exactly the inventories with proper descriptors and fields, paths under the prefix of their bucket, unique paths, neighbours in order of bucket, first CID, last CID and path that share at most a boundary CID within a bucket, and rows that sum to ntotal. |
| Artifacts.ArtifactExactly | browser/src/manifest.ts:311-325 | A descriptor is accepted exactly if its path is proper, its size a positive portable integer and its digest 64 lowercase hexadecimal digits. |
| Artifacts.PathExactly | browser/src/manifest.ts:336-349 | A path is accepted exactly if it is a sequence of segments joined by slashes, none of them empty or dots, ends in `.parquet` and has no backslash, question mark or hash. |
| Artifacts.BucketSpelled | browser/src/manifest.ts:169-170 | The prefix of a bucket spells its number in decimal, with zeros in front up to six digits and no further. |
| Artifacts.PathNamesBucket | browser/src/manifest.ts:169-170 | A path lies under the prefix of at most one bucket, although numbers beyond six digits are not padded. |
| Manifest.FilesOrdered | browser/src/manifest.ts:165-182 | For any two accepted files i < j, maxCid(i) <= minCid(j), strictly if their buckets differ. |
| Manifest.NeighboursOrdered | browser/src/manifest.ts:327-334 | The comparison and the overlap test on neighbours order their CID ranges, whatever the locale comparison of paths does. |
| Manifest.HoldersContiguous | browser/src/manifest.ts:165-182 | The files that may hold a CID form one contiguous run inside the bucket of that CID; inner files of the run hold only that CID. |
| Manifest.CheckSourceFiles | browser/src/manifest.ts:250-262 | The loop over `expectedBegin` accepts exactly the lists with valid descriptors whose neighbours meet and that run from 0 to rows. |
| Manifest.SourceFilesPartition | browser/src/manifest.ts:250-262 | Those lists are exactly the ordered partitions of [0, rows) into non-empty, validly described files. |
| StrictJson.ParseValue | browser/src/manifest.ts:413-431 | The value parser consumes input whenever it succeeds, which is why the recursion ends. |
| StrictJson.StrictJsonParser.constructor | browser/src/manifest.ts:402-404 | The parser starts at position 0. |
| StrictJson.StrictJsonParser.Parse | browser/src/manifest.ts:406-411 | The object returns what the parser on texts returns, including every error. |
| StrictJson.StrictJsonParser.Value | browser/src/manifest.ts:413-431 | Dispatch on the first token; result and final position agree with the parser on texts. |
| StrictJson.StrictJsonParser.Atom | browser/src/manifest.ts:419-430 | Literals and integers without leading zeros, the negative zero kept apart, rejecting numbers outside the portable range. |
| StrictJson.StrictJsonParser.Object | browser/src/manifest.ts:433-452 | The loop over object entries agrees with the parser on texts: every key counts for duplicates, and an entry `__proto__` leaves no own property. |
| StrictJson.StrictJsonParser.Entry | browser/src/manifest.ts:440-447 | One entry, with the duplicate-key and missing-colon errors in the source's order. |
| StrictJson.StrictJsonParser.Separator | browser/src/manifest.ts:448-450 | Closing token, comma, or the missing-comma error. |
| StrictJson.StrictJsonParser.Array | browser/src/manifest.ts:454-465 | The loop over array elements agrees with the parser on texts. |
| StrictJson.StrictJsonParser.String | browser/src/manifest.ts:467-484 | The scan for the closing quote with escape skipping, then decoding; unterminated and invalid strings are told apart. |
| StrictJson.StrictJsonParser.Space | browser/src/manifest.ts:486-488 | White space is skipped to the first other unit. |
| JsonTokens.SpaceUnits | browser/src/manifest.ts:487-487 | The units skipped, as a list of code points. |
| JsonTokens.Vocabulary | browser/src/manifest.ts:416-425 | Delimiters, literals and the portable range, in characters. |
| JsonTokens.DecodesExactly | browser/src/manifest.ts:475-475 | A string literal is decoded to a text exactly if it spells it in units for themselves, two-unit escapes and hexadecimal escapes. |
| JsonTokens.RejectedNumber | browser/src/manifest.ts:425-429 | A number outside the portable range is rejected as such. |
| StrictJson.StrictJsonParser.Consume | browser/src/manifest.ts:490-494 | A token is taken if and only if it is next. |
| JsonDocuments.ScanInContext | browser/src/manifest.ts:470-482 | A string literal that decodes is scanned to its own closing quote, whatever follows. |
| JsonDocuments.RoundTrip | browser/src/manifest.ts:413-465 | Parsing any layout of a document, in front of any delimiter, yields its value and the rest, or the duplicate-key error if a key repeats at some depth. |
| JsonDocuments.RoundTripItems | browser/src/manifest.ts:459-464 | The same for the element loop, after any elements already read. |
| JsonDocuments.RoundTripFields | browser/src/manifest.ts:439-451 | The same for the entry loop, after any entries already read. |
| JsonDocuments.DocumentRoundTrip | browser/src/manifest.ts:406-411 | The same for a whole text with white space around the value. |
| JsonDocuments.ParsedIsRendering | browser/src/manifest.ts:413-484 | Whatever the value parser accepts is white space followed by a rendering of a well-formed document with unique keys and that value. |
| JsonDocuments.AcceptsExactlyRenderings | browser/src/manifest.ts:401-495 | A text parses to a value if and only if it renders a well-formed document with unique keys denoting that value. |
| JsonValues.WrittenWell | browser/src/manifest.ts:401-495 | Every portable value tree has a well-formed document, with unique keys if its objects have distinct keys, that denotes the tree without its `__proto__` entries. |
| JsonValues.ValueRoundTrip | browser/src/manifest.ts:401-495 | Parsing the spelling of a tree of null, booleans, portable integers, strings, arrays and objects with distinct keys returns the tree without its `__proto__` entries, hence the same tree if and only if it has none. |
| JsonValues.ProtoIsLost | browser/src/manifest.ts:447-447 | An object with the single entry `__proto__` comes back empty. |
| JsonValues.AcceptedValues | browser/src/manifest.ts:401-495 | The values the parser can return are exactly these trees without the key `__proto__`. |
| JsonLayout.DocSame | browser/src/manifest.ts:413-484 | Two layouts of one text agree on where the value ends and on whether their white space is that of JSON. |
| JsonLayout.JsonParses | browser/src/manifest.ts:406-488 | Every JSON layout of a document, with spaces, tabs, line feeds and carriage returns at will, is parsed to its value, or rejected for a duplicate key. |
| JsonLayout.JsonExactly | browser/src/manifest.ts:486-488 | An accepted text is JSON if and only if every white space of its layout is one of the four of RFC 8259, section 2. |
| JsonLayout.AcceptedButNotJson | browser/src/manifest.ts:486-488 | A no-break space in front of a value is accepted although the text is not JSON. |
| IpcDecoder.PyIpcDecoder.constructor | python/src/ipc.rs:97-107 | A new decoder has consumed nothing. |
| IpcDecoder.PyIpcDecoder.PushChunk | python/src/ipc.rs:109-123 | `push` gives the result and the whole new state of one call, refusing a finished decoder. |
| IpcDecoder.PyIpcDecoder.DecodeNext | python/src/ipc.rs:142-195 | The window loop terminates and gives the result and state of the recursive loop. |
| IpcDecoder.PyIpcDecoder.AfterWindow | python/src/ipc.rs:167-184 | The bookkeeping after one window: pending input, bytes since the boundary, schema. |
| IpcDecoder.PyIpcDecoder.FinishStream | python/src/ipc.rs:125-138 | `finish` is idempotent, and refuses unconsumed or incomplete input. |
| IpcDecoderRuns.FinishOutcome | python/src/ipc.rs:125-138 | In every run without a malformed stream `finish` succeeds exactly if nothing is buffered and the stream may end, or an earlier one did; success means complete output and makes every push raise, failure changes nothing and tells its reason. |
| IpcDecoderRuns.PushAccepted | python/src/ipc.rs:110-151 | A push is turned away exactly if the decoder finished, or if it brings input while some is buffered. |
| IpcDecoderRuns.LoopOk | python/src/ipc.rs:156-195 | A call that met no malformed stream conserves bytes, agrees with feeding the consumed bytes one at a time, and keeps the distance to the last boundary exact. |
| IpcDecoderRuns.RunInv | python/src/ipc.rs:109-195 | All decoder invariants hold after every sequence of pushes and finishes without a malformed stream. |
| IpcDecoderRuns.BytesConserved | python/src/ipc.rs:146-174 | In every run, whatever raised, the bytes advanced over followed by the pending buffer are the accepted chunks, and `bytes_since_boundary` never exceeds the limit. |
| IpcDecoderRuns.BatchSpacing | python/src/ipc.rs:157-186 | Successive batches are at most `max_frame_bytes` consumed bytes apart, the first at most twice that from the start. |
| IpcDecoderRuns.FrameLimitExact | python/src/ipc.rs:157-163 | A frame is refused only when exactly `max_frame_bytes` bytes were taken since the last batch, or since the window that found the schema. |
| IpcDecoderRuns.FailureIsFinal | python/src/ipc.rs:109-163 | Once a push raised for the frame limit or for lack of progress, every continuation of the run leaves the session as it is, with input pending, and no push or `finish` succeeds. |
| IpcDecoderRuns.LoopSticks | python/src/ipc.rs:156-192 | A call that raises so ends with its input pending, at the frame limit or before a byte the stream decoder never takes. |
| IpcDecoderRuns.OutputIsReference | python/src/ipc.rs:142-195 | Whichever pushes raised, the returned batches are those the stream decoder emits on the consumed bytes one at a time. |
| IpcDecoderCalls.SchemaReturnedExactly | python/src/ipc.rs:154-182 | After every run without a malformed stream the schema of the decoder was returned once, if and only if no push met an input that loses it; the condition is on the state and chunk before that push. |
| IpcDecoderCalls.LossForeseen | python/src/ipc.rs:156-192 | A push finds the schema and raises exactly if a byte is refused with the schema found, or the first window finds it and more than a whole frame follows without a batch. |
| IpcDecoderCalls.CallForeseen | python/src/ipc.rs:156-194 | The result of the window loop follows from where the stream decoder stops in the input and how far the windows reach: malformed, no progress, batch, frame too large, or drained. |
| IpcDecoderRuns.SchemaReturnedOnce | python/src/ipc.rs:154-182 | The schemas returned are that of the decoder, once, unless the push that found it raised. |
| IpcDecoderRuns.SchemaLostExample | python/src/ipc.rs:176-182 | A run in which the schema is found and marked as emitted, and the push raises without returning it. |
| IpcDecoderRuns.ShortChunksKeepSchema | python/src/ipc.rs:157-182 | With chunks of at most one byte more than the frame limit, and a stream decoder that refuses no byte, the schema is never lost. |
| IpcDecoderRuns.ChunkingIrrelevant | python/src/ipc.rs:142-195 | Two runs over the same bytes with nothing left buffered, under any chunkings and any frame limits, return the same schema at most once and the same batches. |
| IpcDecoderRuns.DrainedIsComplete | python/src/ipc.rs:142-195 | A run with nothing left buffered returned the reference output of everything accepted, schema included. |
| IpcDecoderCalls.EmptyPush | python/src/ipc.rs:142-195 | An empty push that does not raise leaves nothing pending, or returns a batch and shortens the pending input. |
| IpcDecoderCalls.DrainingEnds | python/src/ipc.rs:142-195 | As many empty pushes as there are bytes pending drain a session, unless one of them raises. |
| IpcDecoderRuns.FinishedIsComplete | python/src/ipc.rs:125-138 | A run that finished has no input pending, no push of it raised for a limit, its output is the reference output of everything accepted, and the decoder stands where its stream may end. |
| IpcDecoderRuns.FaultIsReference | python/src/ipc.rs:164-171 | Up to the push that first finds the stream malformed, the batches are the reference batches of the bytes before the malformed one, which is among the accepted bytes. |
| IpcDecoderCalls.ConservationExact | python/src/ipc.rs:164-171 | A push reports a malformed stream exactly if its input holds a malformed byte within reach; the bytes fed followed by the buffer are the accepted chunks unless that byte opens neither the first window nor the second. |
| IpcDecoderCalls.FedTwiceExample | python/src/ipc.rs:168-171 | A push after which both its bytes are pending although the stream decoder was fed the first. |
| IpcDecoderRuns.FaultChunkingIrrelevant | python/src/ipc.rs:164-171 | Two runs over one malformed stream return the same batches before they find it malformed. |
| Publish.PublicationObjects | python/parqdb/publish.py:552-632 | Succeeds exactly for a well-shaped index manifest with truthful entries and consistent inputs, and gives exactly the index files, the source and the assets, in order, followed by `manifest.json`, which lists each with its size and digest. |
| Publish.EnsureUniquePaths | python/parqdb/publish.py:642-647 | Accepts exactly the lists without a repeated path. |
| Publish.S3Writer.EnsureEmpty | python/parqdb/publish.py:694-700 | Accepts exactly when no destination key exists, neither as an object nor as a directory above one. |
| Publish.S3Writer.Write | python/parqdb/publish.py:702-717 | A write may show parts of the object on the way; it stores the object, or fails leaving nothing, or the whole or a part of it, retracted or not; only a success is recorded as written. |
| Publish.S3Writer.CleanupAfterFailure | python/parqdb/publish.py:719-724 | The written objects are deleted last first, ignoring failed deletes; every store passed through is stated. |
| PublishRuns.CleanupLastFirst | python/parqdb/publish.py:719-724 | After a failed write the keys deleted are those of the earlier objects, last first. |
| Publish.S3Writer.UploadAll | python/parqdb/publish.py:100-103 | The write loop stops at the first failure with exactly the earlier keys recorded. |
| Publish.S3Writer.PublishObjects | python/parqdb/publish.py:99-105 | Every store passed through by the check, the uploads and the cleanup, and whether publication succeeded. |
| Publish.LocalWriter.EnsureEmpty | python/parqdb/publish.py:666-670 | Refuses a path that exists as a file, as a directory above stored files or as an empty directory, and fails if the directory cannot be made; otherwise records that it made one. |
| Publish.LocalWriter.Write | python/parqdb/publish.py:672-678 | A local write may show parts on the way and leave the whole or a part when it fails, with no retraction. |
| Publish.LocalWriter.CleanupAfterFailure | python/parqdb/publish.py:680-682 | Deletes the files of the directory in the order the environment gives, as far as each delete is granted, only if this writer made the directory. |
| Publish.LocalWriter.PublishObjects | python/parqdb/publish.py:99-105 | The local counterpart of the publication run. |
| PublishRuns.UploadStates | python/parqdb/publish.py:100-103 | The upload passes through exactly the stores of the writes it reaches, each on top of the complete earlier objects, and ends complete or with what the failed write left. |
| PublishRuns.AttemptStates | python/parqdb/publish.py:672-717 | During a write the store is as before, as after, or with what a reader may see of the object. |
| PublishRuns.DeletionsCommitted | python/parqdb/publish.py:680-724 | From a complete store, a sequence of deletes keeps the commit if and only if the first granted one that hits a published object does not hit a data object. |
| PublishRuns.ManifestCommits | python/parqdb/publish.py:97-105 | In every store of a run a visible manifest has all its objects with the described bytes, if and only if no reader can see a part of the manifest and its write does not fail leaving it whole with its retraction refused and a cleanup delete granted. |
| PublishRuns.LocalManifestCommits | python/parqdb/publish.py:661-682 | The same for a local directory: if and only if no reader can see a part of the manifest and no failed manifest write leaves it whole to a cleanup that deletes a data object before it. |
| PublishRuns.DanglingExamples | python/parqdb/publish.py:702-724 | Two concrete runs: the manifest outlives an object it lists, and a truncated manifest stays. |
| PublishRuns.AtomicWritesCommit | python/parqdb/publish.py:589-590 | With atomic writes a visible manifest is always complete, whichever writes and deletes fail. |
| PublishRuns.ExistingObjectsUntouched | python/parqdb/publish.py:694-724 | No store of any run has lost or changed an object that was there before. |
| PublishRuns.FailureRestores | python/parqdb/publish.py:103-105 | A failed run whose deletes succeed ends with exactly the initial store. |
| PublishRuns.SuccessPublishes | python/parqdb/publish.py:99-103 | A successful run ends with the old objects and exactly the published ones, complete. |
| PublishRuns.PublishIndex | python/parqdb/publish.py:89-105 | From inputs to stores: the upload starts exactly for accepted inputs with distinct paths and is then the publication run; nothing old is changed, with atomic writes the manifest commits, and success stores the announced manifest. |
| PublishRuns.PublishIndexLocally | python/parqdb/publish.py:89-105 | The same for a local directory, with the exact commit condition. |
| PublishRuns.LocalOutsideUntouched | python/parqdb/publish.py:666-682 | A local run never touches anything that was stored before. |
| PublishRuns.LocalFailureRestores | python/parqdb/publish.py:680-682 | A failed local run whose cleanup deletes its whole directory restores the store, whatever the failed write left. |
| Sampling.SampleRows | benchmarks/tools/datasets.py:198-213 | For every split into batches sample[i] is source row selected[i] for all i; the run fails exactly when the batches do not add up to the row count. |
| Sampling.CountSeparates | benchmarks/tools/datasets.py:202-203 | The search position separates the selected rows below an offset from the rest. |
| Sampling.AllBelow | benchmarks/tools/datasets.py:211-212 | Once all rows were seen, all selected rows were written. |
| IdDomain.ValidateIds | benchmarks/tools/validate_wikipedia.py:37-56 | The check accepts exactly the columns that are a permutation of 0..rows-1, however they are batched. |
| IdDomain.CheckBatch | benchmarks/tools/validate_wikipedia.py:42-51 | A batch passes exactly when it has no NULL, only values in range and none seen in an earlier batch; the errors have the source's precedence. |
| IdDomain.MarkBatch | benchmarks/tools/validate_wikipedia.py:52-52 | Marks exactly the values of the batch. |
| IdDomain.Pigeonhole | benchmarks/tools/validate_wikipedia.py:54-55 | Among rows values in 0..rows-1 none repeats if and only if all occur. |
| IdDomain.RejectedBatch | benchmarks/tools/validate_wikipedia.py:44-51 | A column with a rejected batch is no permutation. |
| IdDomain.Verdict | benchmarks/tools/validate_wikipedia.py:54-55 | The final count and the all-seen test together decide the permutation property. |

## Left out

Reductions inside what is modelled:

- RangeClient.HttpRangeBuffer.Slice: byte limits are natural numbers and offsets integers; the test that offsets are safe integers is left to the types.
- RangeClientRuns.RefinesPlainRead: a load is a promise that fails or delivers exactly the bytes asked for; the HTTP request, its headers, status codes and abort signals are not part of this model. Cache callbacks, resolution and delivery are separate events, which allows more interleavings than the JavaScript job queue does.
- RangeCache.HttpRangeCache.ReadRange: the identity of an entry is the number of its promise, and the NUL-joined keys are tuples.
- TopK.MergeHits: distances are real numbers without NaN; the final scaling of the distance and the conversion of a row into a result are left out.
- Search.SearchIsPlainScan: the kernel appears through its contract (min(rows, k) smallest hits by distance, then row) and Parquet decoding as a function of file and span; `k` is the effective one, already capped by ntotal and 100; argument checks, the `maxCandidateRows` limit and the choice of the CIDs are left out.
- WorkerPool.Completion: the mapper is a function of its argument; what it computes at which moment is not observable.
- Planning.PlanPostings: the metadata cache of a file is left out; row groups come with their row count and, if usable, their CID.
- Manifest.CheckPostings: the test for exactly the expected keys and their types belongs to the typed layer; the sum of rows is exact, while the source adds rounded numbers once a partial sum exceeds 2^53, which is above any accepted ntotal.
- Manifest.FilesOrdered: `localeCompare` is an arbitrary function.
- StrictJson.StrictJsonParser.Object: an object is its own properties in the order of assignment; the prototype an entry `__proto__` sets and the enumeration order of integer-like keys are left out.
- IpcDecoder.PyIpcDecoder.PushChunk: the stream decoder is a deterministic automaton on bytes that stops right after a batch; conversion of schema and batches to Python is left out.
- IpcDecoderRuns.RunInv: covers runs up to the push that first finds the stream malformed, which FaultIsReference and ConservationExact describe; what a stream decoder emits after it reported an error is not part of this model.
- Publish.PublicationObjects: files are values, so a file that changes or vanishes between hashing and upload is left out; digest and safe-path test are parameters; sizes in the index manifest are integers; the row structure of the source descriptor and the content of the embedding block are left out.
- PublishRuns.LocalFailureRestores: speaks of stored files; parent directories made for the destination are not recorded.
- PublishRuns.ManifestCommits: no other writer is active, and HTTP verification after publication is left out; what a reader finds of an unfinished write is the whole object or some bytes in its place.
- Sampling.SampleRows: the random choice is a parameter, any ascending list of row positions.
- IdDomain.ValidateIds: the conversion of the column to 64-bit integers is left out.

Parts of the repository without a model:

- URL and CORS validation, `Content-Range` parsing, manifest download: input and output.
- The typed layer that turns parsed JSON into a manifest (exact keys, types, the UUID and key-type patterns, the embedding block): field checks without interplay. No claim is made that every published manifest parses: the parser accepts integers only (`browser/src/manifest.ts:425`), while publication writes fractional probe values (`python/parqdb/publish.py:459`).
- Centroid loading and the LVQ arithmetic: the kernel's source is not part of this model.
- Python session, server, command line, DataFusion wrappers, encoders and downloads: forwarding to native code or single-branch checks.
- Benchmark runners, charts, dataset preparation and release tools: measurement and file handling.
