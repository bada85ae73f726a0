# Verified model of Factorio Cacher

Factorio Cacher sits between a Factorio server and its players. Its server side downloads the game
world, takes the ZIP file apart and cuts every file into content-defined chunks. Its client side gets
the list of chunk hashes, collects the chunks from a shared cache or from the server, and rebuilds a
ZIP file. The size and the CRC of that ZIP file have already been announced to the game, so the client
pads it and inserts four bytes that force the CRC. The game then reads the stream in blocks of 503
bytes while it is still being produced.

This project models those parts in Dafny and proves what they promise, up to one statement over the
whole way (`EndToEnd.DeliverWorld`). Any number of other tasks work on the shared cache, in any
interleaving with this one. A transfer finishes exactly if its loop builds all files and they fit the
announced size, which their names and lengths decide. The stream then contains, by the server's own
slicing rule, a ZIP file of exactly the announced size, with exactly the announced CRC, in which an
independent ZIP reader finds the original files, in order, with the original content. Every other ending has its cause: the connection
broke on a request of this task; a file does not fit a ZIP entry; more bytes were inserted into the shared
cache than it can hold, so that some waiter lost a chunk and poisoned the lock; or the task waits for ever
for a batch that another task never fulfils. All files are built if and only if none of these happens
(`EndToEnd.NothingInTheWay`). Without other tasks only the first two remain (`EndToEnd.AloneDelivers`).

| file | models |
|---|---|
| `Bytes.dfy` | byte strings, little-endian numbers |
| `Crc32.dfy` | CRC-32/ISO-HDLC, by table and by single bits (section 8 of RFC 1952) |
| `RevCrc.dfy` | the CRC run backwards, and CRC forging |
| `Chunker.dfy` | rolling hash and content-defined chunking |
| `ChunkStore.dfy` | the size-bounded, insertion-ordered chunk store |
| `ChunkCache.dfy` | the locked regions of the shared cache |
| `CacheProtocol.dfy` | every interleaving of the tasks that share it |
| `CacheFile.dfy` | the cache file's reader and writer |
| `ZipFormat.dfy` | ZIP records and a ZIP reader (APPNOTE 4.3.7, 4.3.12, 4.3.16) |
| `ZipWriter.dfy` | the ZIP writer |
| `Dedup.dfy` | taking a world apart, putting a file together |
| `Reconstruct.dfy` | the world with an announced size and CRC |
| `Packets.dfy` | the game's packets, and rewriting the announced size in them |
| `ServerProxy.dfy` | the windowed block download and the reassembly |
| `ClientProxy.dfy` | the block server over the growing stream |
| `Transfer.dfy` | the client's fetch-and-rebuild loop |
| `EndToEnd.dfy` | server and client together |

For each operation there are laws that say what it does without using its definition, with the program's
numbers written out: which bytes are a record, a packet or a file, what is hashed, what is sent, asked for
and answered.

State that the program changes in place is a class here; each method is proved against a function on
values, and the laws are lemmas about those functions. Foreign code is a parameter: blake3 is any
function, with absence of collisions among the chunks that come up as a stated premise; zlib is any
pair of functions for which inflating undoes deflating up to the program's limit; zstd and msgpack are
the identity. Elapsed-time tests are booleans that an adversary chooses, and so is the schedule: whenever
a task awaits, the others take any steps that the cache protocol allows them. Panics are either proved
unreachable (as assertions in the method bodies), or outcomes of the model (among them the poisoned lock
that a panicking waiter leaves behind), or, for the directory's `expect`s and the 32-bit block
arithmetic, preconditions.

Where code and documentation differ, the model follows the code:

- The comment on `get_chunks_batched` says that a waiter gets its chunks once the other tasks are done.
  The chunk can be evicted in between, and then the `expect` panics: `CacheProtocol.WaiterCanPanic`
  shows such a run. The panic happens under the lock and poisons it, so that every later call panics too,
  whether its chunks are there or not. `CacheProtocol.WaiterOutcome` says exactly which waiters succeed,
  `CacheProtocol.PoisonedIff` exactly when a run ends poisoned, and `CacheProtocol.PoisonedForever` that
  nothing changes the cache from then on.
- The other tasks may also never be done: `CacheProtocol.WaiterCanBlock` shows a run in which a batch is
  dropped and its waiter never goes on. `CacheProtocol.BlockedForeverIff` says exactly when that happens:
  when a batch waited for was dropped, or is still outstanding under a poisoned lock.
- The same comment says that None means that all requests are fulfilled. That needs a positive batch
  size (`ChunkCache.NoneMeansAllFetched`, `ChunkCache.ZeroBatchSizeGivesUp`); the only caller passes 512.
- Rewriting the announced size in forwarded packets goes by content, not by position. The game client decodes
  the new announcement if and only if the bytes of the old one do not occur earlier in the packet, or the
  world is empty (`Packets.AnnouncementIsRewritten`). A packet for which it fails is in
  `Packets.AnnouncementCanBeLost`.
- The repository's README says that the client announces the map when the ZIP is complete. In the code
  the rewritten announcement is passed on at once and blocks are served from the growing stream.

## Model

| member | source | states |
|---|---|---|
| `Crc32.StepIsBits` | src/factorio_protocol.rs:8 | the table-driven byte step is the bit-at-a-time CRC of the reflected polynomial |
| `Crc32.CheckValue` | src/factorio_protocol.rs:8 | the modelled CRC of "123456789" is the published check value 0xCBF43926 |
| `Crc32.RunConcat` | src/dedup.rs:108-109 | feeding a digest piecewise is feeding it the concatenation |
| `Crc32.Digest.Update` | src/dedup.rs:108-109 | the update loop advances the digest by exactly the data |
| `RevCrc.TopBytesArePermutation` | src/rev_crc.rs:15-18 | slot h of the reverse table is written by exactly one n: the top bytes of the forward table are a permutation |
| `RevCrc.SlotIsReverseEntry` | src/rev_crc.rs:16 | the value scattered for n is what the slot it names has to hold |
| `RevCrc.RevCRC.constructor` | src/rev_crc.rs:9-24 | the filling loop leaves every one of the 256 slots correct |
| `RevCrc.TableStepIsUnStep` | src/rev_crc.rs:28 | one table-driven reverse step is eight inverse bit steps |
| `RevCrc.RevCRC.Update` | src/rev_crc.rs:26-32 | the loop over the bytes, last first, computes the reverse run |
| `RevCrc.RevDigest.constructor` | src/rev_crc.rs:34-39 | the reverse digest starts from the target with the final xor undone |
| `RevCrc.RevDigest.Update` | src/rev_crc.rs:50-52 | appending in front runs the state backwards |
| `RevCrc.UnRunRun` | src/rev_crc.rs:26-32 | running backwards undoes running forwards, for every state and byte string |
| `RevCrc.RunUnRun` | src/rev_crc.rs:26-32 | running forwards undoes running backwards, for every state and byte string |
| `RevCrc.UnRunConcat` | src/dedup.rs:145-147 | digesting auxiliary data and then the footer is digesting their concatenation backwards |
| `RevCrc.StateAndBytesCommute` | src/rev_crc.rs:61-66 | running from r over the bytes of s equals running from s over the bytes of r |
| `RevCrc.ForgeCrc` | src/rev_crc.rs:61-66 | the method returns the specified four bytes |
| `RevCrc.ForgedChecksum` | src/rev_crc.rs:59-66 | for all prefixes, suffixes and targets, the CRC with the four bytes in between is the target |
| `Chunker.PolySlide` | src/chunker.rs:24-29 | how the direct polynomial changes when the window slides by one byte |
| `Chunker.NextHashIsModular` | src/chunker.rs:26-29 | the wrapping 32-bit update is the exact update modulo 2^32 |
| `Chunker.MaskIsModulus` | src/chunker.rs:78 | for every hash, the bitwise and with the mask that the scan tests is the remainder by 2048 |
| `Chunker.HashStep` | src/chunker.rs:24-36 | one update keeps the hash equal to the direct polynomial, window full or not |
| `Chunker.RingUpdate` | src/chunker.rs:27-32 | the slot about to be overwritten holds the byte that leaves the window, and the ring stays a ring |
| `Chunker.RabinKarpHash.constructor` | src/chunker.rs:15-21 | a new hash is the hash of no bytes |
| `Chunker.DirectHashIs` | src/chunker.rs:8-12 | the hash in numbers: the last 32 bytes since the reset (or fewer), each plus 31, weighted with 0x08104225^k, k = 1 for the newest, modulo 2^32 |
| `Chunker.RabinKarpHash.Update` | src/chunker.rs:24-36 | the rolling update returns exactly that sum |
| `Chunker.RabinKarpHash.Reset` | src/chunker.rs:38-42 | after a reset the hash starts over |
| `Chunker.ScanCut` | src/chunker.rs:73-81 | the scan stops at the first admissible cut, or at the end |
| `Chunker.FirstCut` | src/chunker.rs:71-81 | a chunk has 1 to 4096 bytes, and more than 512 unless it is the rest of the data |
| `Chunker.FirstCutIff` | src/chunker.rs:44-47 | where a chunk ends, in numbers: at the first length over 512 at which the hash of the bytes after the first 512 is divisible by 2048, at 4096 at the latest, or at the end |
| `Chunker.Chunker.FindCut` | src/chunker.rs:71-81 | the scanning loop, with its rolling hash, finds the specified first cut |
| `Chunker.Chunker.Next` | src/chunker.rs:66-89 | the iterator yields the first chunk and keeps the rest, and ends on no data |
| `Chunker.ChunksConcat` | src/chunker.rs:66-89 | the chunks of a file concatenate to the file |
| `Chunker.ChunkSizes` | src/chunker.rs:45-47 | every chunk has 1 to 4096 bytes, every one but the last at least 513 |
| `Chunker.ChunksSplitAtBoundary` | src/chunker.rs:66-89 | if a boundary falls between a and s, the chunks of a + s are those of a and those of s |
| `Chunker.ChunksResynchronise` | src/chunker.rs:66-89 | two files with a common suffix and a common boundary in it have identical chunks from there on |
| `Chunker.BoundaryIsChunkPrefix` | src/chunker.rs:66-89 | boundaries are exactly the total lengths of leading groups of chunks |
| `ChunkStore.RawChunkCache.constructor` | src/chunk_cache.rs:264-270 | a new store is empty |
| `ChunkStore.RawChunkCache.InsertChunk` | src/chunk_cache.rs:272-284 | the size counter stays exact and within the limit, `pop_front` never fails, and the contents are as specified |
| `ChunkStore.EvictIsLongestSuffix` | src/chunk_cache.rs:280-283 | eviction leaves the longest suffix that fits |
| `ChunkStore.StoreIsBounded` | src/chunk_cache.rs:272-284 | after any insertions, keys are distinct and the total is at most the limit |
| `ChunkStore.EvictThenInsert` | src/chunk_cache.rs:272-284 | evicting early never changes what a later insertion leaves |
| `ChunkStore.StoreIsLongestFittingSuffix` | src/chunk_cache.rs:272-284 | after any insertions (a key always with the same length) the store is the longest fitting suffix of those not superseded |
| `ChunkStore.SameSizeIsNeeded` | src/chunk_cache.rs:272-284 | the premise on lengths is needed: three insertions for which the previous claim fails |
| `ChunkStore.StoreOfDistinctKeys` | src/chunk_cache.rs:272-284 | with distinct keys it is the longest fitting suffix of the insertions |
| `ChunkStore.CachedIff` | src/chunk_cache.rs:272-288 | an inserted key is found exactly if the latest insertions from it onward fit |
| `ChunkStore.Retained` | src/chunk_cache.rs:272-284 | a chunk stays as long as the bytes inserted from it onward fit, whatever was there before |
| `ChunkStore.StoredIsFromLog` | src/chunk_cache.rs:272-284 | the store contains nothing that was not inserted |
| `ChunkCache.SortIsOk` | src/chunk_cache.rs:128-149 | nothing requested is lost; the batch is fresh, duplicate-free and at most `batch_size`; what stays is being fetched or found the batch full |
| `ChunkCache.BatchIsFirstFresh` | src/chunk_cache.rs:136-146 | the batch is exactly the first `batch_size` requested keys that nobody has or fetches, in order, each once |
| `ChunkCache.KeptIs` | src/chunk_cache.rs:128-149 | what stays requested is, in order, everything but the cached keys and one occurrence of each batch key |
| `ChunkCache.WaitsSplit` | src/chunk_cache.rs:171-180 | the second pass turns exactly the pending keys into waits |
| `ChunkCache.SplitInOrder` | src/chunk_cache.rs:171-180 | waits and remaining keys keep the order of the request list |
| `ChunkCache.SplitCounts` | src/chunk_cache.rs:171-180 | together they are exactly the request list, with repetitions |
| `ChunkCache.CollectedIff` | src/chunk_cache.rs:193-202 | the waiter succeeds exactly if every waited-on chunk is cached, and then outputs all of them |
| `ChunkCache.ClaimShrinks` | src/chunk_cache.rs:122-187 | with a positive batch size a call strictly shrinks a non-empty request list, whatever the others did |
| `ChunkCache.ClaimLosesNothing` | src/chunk_cache.rs:128-180 | every requested key stays requested, is output, is in the batch, or is waited for |
| `ChunkCache.NoBatchMeansAllFound` | src/chunk_cache.rs:128-187 | without a batch no key stays requested, and each is output at once or waited for |
| `ChunkCache.NoneMeansAllFetched` | src/chunk_cache.rs:117-205 | over both regions: the request list is empty, and the call returns, with every key requested at entry in the output, if and only if there is nothing to wait for or the lock is sound and every waited-on key is cached at the lookup |
| `ChunkCache.NoBatchEmptiesIff` | src/chunk_cache.rs:128-187 | a call without a batch empties the request list exactly if the batch size is positive or each key was cached or being fetched |
| `ChunkCache.ZeroBatchSizeGivesUp` | src/chunk_cache.rs:136-138 | with batch size 0 the previous claim is false |
| `ChunkCache.ChunkCache.constructor` | src/chunk_cache.rs:24-32 | a new cache is empty and nothing is pending |
| `ChunkCache.ChunkCache.SortRequested` | src/chunk_cache.rs:128-149 | the first `retain` computes the specified split |
| `ChunkCache.ChunkCache.SplitPending` | src/chunk_cache.rs:169-180 | the second `retain` computes the specified split |
| `ChunkCache.ChunkCache.Claim` | src/chunk_cache.rs:122-187 | the first locked region: new state, remaining requests, outputs, and batch, waits or the panic on a poisoned lock |
| `ChunkCache.ChunkCache.Collect` | src/chunk_cache.rs:193-204 | the second locked region: a missing chunk panics and poisons the lock, a poisoned lock panics |
| `ChunkCache.ChunkCache.Fulfill` | src/chunk_cache.rs:241-254 | inserts the batch in order, ends its being pending, closes its event; on a poisoned lock it panics and does none of that |
| `ChunkCache.ChunkCache.MarkDirty` | src/chunk_cache.rs:214-217 | sets the flag and changes nothing else, or panics on a poisoned lock |
| `CacheProtocol.StepInv` | src/chunk_cache.rs:117-254 | every step of every task keeps the invariant |
| `CacheProtocol.RunInv` | src/chunk_cache.rs:117-254 | the invariant holds along every interleaving |
| `CacheProtocol.NoDoubleFetch` | src/chunk_cache.rs:136-165 | pending keys are the disjoint union of the unfulfilled batches, are not cached, and no batch repeats a key |
| `CacheProtocol.BatchesStayWithin` | src/chunk_cache.rs:136-165 | if every claim asks for at most B chunks, no unfulfilled batch has more, in any interleaving |
| `CacheProtocol.FulfillNeverReplaces` | src/chunk_cache.rs:247-250 | when a batch is fulfilled, none of its keys is in the store |
| `CacheProtocol.CachedIsAuthentic` | src/proxy/client_proxy.rs:327-337 | at any time every cached chunk has its key as hash |
| `CacheProtocol.WaiterOutcome` | src/chunk_cache.rs:189-202 | a waiter that may go on gets all its chunks if and only if the lock is not poisoned and the bytes from each one's latest insertion onward fit |
| `CacheProtocol.WaiterSucceeds` | src/chunk_cache.rs:189-202 | sufficient without any premise on chunk sizes: a sound lock, and since each chunk's insertion no more bytes than the limit were inserted |
| `CacheProtocol.RoomMeansNoPanic` | src/chunk_cache.rs:189-202 | while no more was inserted in all than the store can hold, the lock is sound and every waiter that may go on succeeds |
| `CacheProtocol.PoisonedIff` | src/chunk_cache.rs:194-198 | a run ends with a poisoned lock if and only if some waiter in it lost a chunk |
| `CacheProtocol.SoundIff` | src/chunk_cache.rs:189-202 | a run keeps the lock sound if and only if, whenever a waiter went on, the bytes from each of its chunks' latest insertion onward still fitted |
| `CacheProtocol.PoisonedForever` | src/chunk_cache.rs:123-254 | after that, no step of any task changes the cache |
| `CacheProtocol.OthersRun` | src/chunk_cache.rs:117-254 | the steps of other tasks leave a task's waits and its batches alone, and give it no new ones |
| `CacheProtocol.WaitersProceed` | src/chunk_cache.rs:189-191 | a waiter may go on if and only if no batch that it waits for is outstanding |
| `CacheProtocol.BlockedForeverIff` | src/chunk_cache.rs:189-191 | no continuation lets a waiter go on if and only if it waits for an outstanding batch that was dropped, or for any outstanding batch under a poisoned lock |
| `CacheProtocol.AbandonedBlocks` | src/proxy/client_proxy.rs:313-331 | the keys of a dropped batch stay pending and uncached for ever, and its waiters never go on |
| `CacheProtocol.WaiterCanBlock` | src/proxy/client_proxy.rs:313-331 | a run of three steps after which a waiter never goes on, whatever happens |
| `CacheProtocol.WaiterCanPanic` | src/chunk_cache.rs:196-198 | a run in which every batch is fulfilled and the waiter's lookup still fails |
| `CacheFile.WriteChunkCache` | src/chunk_cache.rs:331-356 | the writer's loop produces the specified file |
| `CacheFile.ReadChunkCache` | src/chunk_cache.rs:293-329 | the reader's loop inserts exactly the genuine entries, or reports the first error |
| `CacheFile.FileIs` | src/chunk_cache.rs:331-356 | the file byte by byte: the count in four bytes, then 32 bytes of key, four of length and the chunk for each entry, in order, and nothing else |
| `CacheFile.EntryIsRead` | src/chunk_cache.rs:303-316 | what the reader makes of any bytes: an entry, the end of the file, or a length over 20,000,000, which is looked at before the chunk |
| `CacheFile.FileRoundTrip` | src/chunk_cache.rs:293-356 | a written file is read back as written, whatever follows it, if and only if no chunk is over 20,000,000 bytes |
| `CacheFile.CutFileIsRejected` | src/chunk_cache.rs:293-329 | a file cut short anywhere is an error |
| `CacheFile.GenuineIff` | src/chunk_cache.rs:318-325 | the entries kept are exactly those that have their key as hash |
| `CacheFile.GenuineConcat` | src/chunk_cache.rs:318-325 | each entry is kept or skipped on its own, in order |
| `CacheFile.SavedStoreIsRestored` | src/chunk_cache.rs:293-356 | saving and loading restores the same entries in the same order, or the longest suffix that fits a smaller limit |
| `CacheFile.LoadedIsGenuine` | src/chunk_cache.rs:318-325 | whatever file is accepted, every loaded entry has its key as hash and was in the file |
| `ZipFormat.DecodeEncodedFields` | src/zip_writer.rs:37-47 | any list of little-endian fields is read back, with what follows it |
| `ZipFormat.RecordLengths` | src/zip_writer.rs:20-21 | the records have the sizes that the writer's constants claim |
| `ZipFormat.LocalHeaderIs` | src/zip_writer.rs:37-48 | every number of the local header, in its place, and the name |
| `ZipFormat.CentralHeaderIs` | src/zip_writer.rs:78-96 | every number of the central directory header, in its place, and the name |
| `ZipFormat.EndRecordIs` | src/zip_writer.rs:99-106 | every number of the end record, in its place |
| `ZipFormat.Signatures` | src/zip_writer.rs:37 | the first four bytes of the three records |
| `ZipFormat.BodyAt` | src/zip_writer.rs:50-59 | every file's local header and data are at the recorded offset |
| `ZipFormat.PlacedIsRead` | src/zip_writer.rs:68-109 | files at any recorded offsets, with any bytes between them: the reader finds exactly them, through the directory |
| `ZipFormat.ZipIsRead` | src/zip_writer.rs:30-109 | records, any bytes in between, directory and end record: the reader finds exactly the files, in order, with their CRCs |
| `ZipWriter.ZipWriter.constructor` | src/zip_writer.rs:23-28 | a new writer has no entries |
| `ZipWriter.ZipWriter.EncodeFileHeader` | src/zip_writer.rs:30-62 | returns the local header and records the file at its true offset, after other files or after a gap |
| `ZipWriter.ZipWriter.AdvanceOffset` | src/zip_writer.rs:64-66 | moves the offset and nothing else |
| `ZipWriter.ZipWriter.EncodeCentralDirectory` | src/zip_writer.rs:68-109 | returns directory and end record for the files written |
| `ZipWriter.ZipWriter.CentralDirectorySize` | src/zip_writer.rs:111-119 | is the length of what `EncodeCentralDirectory` will return, wherever it starts |
| `Dedup.AfterLastIff` | src/dedup.rs:191 | the name taken from a path is the only suffix without a slash that is the whole path or follows a slash |
| `Dedup.DecodedIs` | src/dedup.rs:190-206 | only a path "level.dat" plus digits, alone or after a slash, is inflated, and fails if that fails; any other file is taken as it is |
| `Dedup.DecodeAgain` | src/dedup.rs:190-217 | encoding a decoded file again gives, under its name, a file that decodes the same |
| `Dedup.DescribedIs` | src/dedup.rs:231-236 | the description has type, name and length of the file, and the hashes of its chunks in order |
| `Dedup.ChunkFile` | src/dedup.rs:219-237 | the description lists the hashes of the file's chunks, and the map gains exactly those chunks |
| `Dedup.DeconstructWorld` | src/dedup.rs:39-67 | describes every file, collects the chunks of all files by hash, and fails exactly if a file does not decode |
| `Dedup.WorldChunksHold` | src/dedup.rs:39-67 | that collection has every described chunk under its own hash, and only chunks of the files |
| `Dedup.ContentIff` | src/dedup.rs:92-98 | a file can be assembled exactly if all its keys are there |
| `Dedup.ContentIsLossless` | src/dedup.rs:92-98 | any mix of chunks that have their keys as hashes assembles to the decoded file or reports a missing chunk |
| `Reconstruct.WorldReconstructor.constructor` | src/dedup.rs:77-82 | nothing is emitted yet |
| `Reconstruct.WorldReconstructor.ReconstructWorldFile` | src/dedup.rs:84-112 | needs more data exactly if a chunk is missing; panics exactly if the file does not fit a ZIP entry; otherwise emits header and data |
| `Reconstruct.WorldReconstructor.CompleteZip` | src/dedup.rs:114-167 | fails exactly if the world does not fit; otherwise the size and CRC assertions hold, and what was emitted and what it returns are the world |
| `Reconstruct.WorldReconstructor.FinalizeWorldFile` | src/dedup.rs:114-187 | the whole stream is world and auxiliary data in whole blocks, and the last assertion holds |
| `Reconstruct.WorldReconstructor.ForgeBack` | src/dedup.rs:144-151 | the four bytes computed backwards from the target over auxiliary data and footer |
| `Reconstruct.AlignedBounds` | src/dedup.rs:171-175 | the aligned length is the next multiple of 503 |
| `Reconstruct.MinimalSizeIs` | src/dedup.rs:119-128 | the size that has to fit is 26 plus 76 + 2·name + data for each file, so the size error can be foretold from names and lengths |
| `Reconstruct.WorldSize` | src/dedup.rs:157-158 | the world has exactly the announced size |
| `Reconstruct.WorldCrc` | src/dedup.rs:160-167 | world and auxiliary data together have exactly the announced CRC |
| `Reconstruct.WorldIsZip` | src/dedup.rs:114-155 | the reader recovers exactly the files given to the reconstructor, despite padding and forged bytes |
| `Reconstruct.WorldLayout` | src/dedup.rs:130-155 | the world in detail: records, zero bytes, four forged bytes, footer |
| `Reconstruct.StreamLayout` | src/dedup.rs:171-184 | the stream in detail: world, zero bytes to a multiple of 503, auxiliary data, zero bytes to the next |
| `Packets.BlockPacketIff` | src/factorio_protocol.rs:117-124 | a packet is a block if and only if it has type 13 and five bytes at least, with number and data from these bytes; if shorter it is malformed |
| `Packets.BlockPacketIsDecoded` | src/factorio_protocol.rs:117-124 | what a server encodes as a block is decoded as that, for every number, data and flags |
| `Packets.AnnouncementIff` | src/factorio_protocol.rs:147-202 | a packet is an announcement if and only if its bytes are those of a heartbeat with that action first, and then its five numbers are these |
| `Packets.RequestIff` | src/factorio_protocol.rs:93-99 | a packet is a block request if and only if it has type 12 and five bytes at least |
| `Packets.SentPackets` | src/factorio_protocol.rs:101-133 | the packets that the proxies send themselves, byte by byte, are decoded by the other side |
| `Packets.InfoRoundTrip` | src/factorio_protocol.rs:194-210 | an encoded announcement is decoded to itself |
| `Packets.InfoRoundTripBack` | src/factorio_protocol.rs:194-210 | any 20 bytes are what their decoded announcement is encoded to, so the filter's needle occurs in the packet it came from |
| `Packets.MatchesAre` | src/proxy/server_proxy.rs:332 | the positions replaced are occurrences, in ascending order, without overlap |
| `Packets.OccurrenceIsCovered` | src/proxy/server_proxy.rs:332 | every occurrence starts within a replaced one |
| `Packets.FilteredByte` | src/proxy/server_proxy.rs:329-344 | every byte of the filtered packet: from the replacement within a match, unchanged elsewhere |
| `Packets.FilteredNothing` | src/proxy/server_proxy.rs:343 | a packet without the old announcement is passed on as it is |
| `Packets.FilterPacket` | src/proxy/server_proxy.rs:329-344 | the loop computes that packet, and reports a replacement exactly if there is an occurrence |
| `Packets.AnnouncementIsRewritten` | src/proxy/server_proxy.rs:252-274 | the game client decodes the forwarded announcement to one with twice the size if and only if the old bytes do not occur earlier in the packet, or the size is 0 |
| `Packets.AnnouncementCanBeLost` | src/proxy/server_proxy.rs:252-274 | a packet whose forwarded form is no announcement any more |
| `ServerProxy.Min` | src/proxy/server_proxy.rs:304 | the first element of an ordered set |
| `ServerProxy.PacketKeepsInv` | src/proxy/server_proxy.rs:171-242 | every packet in every phase keeps the invariant |
| `ServerProxy.RunKeepsInv` | src/proxy/server_proxy.rs:171-327 | the invariant holds along every sequence of packets |
| `ServerProxy.DownloadIsSafe` | src/proxy/server_proxy.rs:192-227 | queued, in-flight and received blocks partition all block ids; at most 16 are in flight, exactly 16 while some are queued |
| `ServerProxy.FinalisesOnce` | src/proxy/server_proxy.rs:207-211 | a download is handed over at most once, then with every block exactly once; the stream is there until then |
| `ServerProxy.LatePacketRetransmits` | src/proxy/server_proxy.rs:217-226 | a late packet causes requests for exactly the blocks in flight, and the download does not change |
| `ServerProxy.FillRequestsAre` | src/proxy/server_proxy.rs:302-310 | the window asks for exactly the blocks it moves into flight |
| `ServerProxy.InflightWasRequested` | src/proxy/server_proxy.rs:302-310 | a block in flight has been asked for |
| `ServerProxy.RequestsAll` | src/proxy/server_proxy.rs:218-221 | retransmission asks once for each block in flight |
| `ServerProxy.AcceptedShrinks` | src/proxy/server_proxy.rs:199-210 | an accepted block shrinks queue and window together by exactly one; nothing else becomes missing or received |
| `ServerProxy.DownloadCompletesIff` | src/proxy/server_proxy.rs:192-227 | a download is handed over if and only if every missing block arrives in the run, in any order and among any packets; until then exactly the blocks that did not arrive are missing |
| `ServerProxy.ForwardsOne` | src/proxy/server_proxy.rs:171-242 | every packet is passed on to the game client, exactly once and in every phase, except block packets during the download, which are not |
| `ServerProxy.AsksFor` | src/proxy/server_proxy.rs:207-226 | what a packet causes to be asked for: exactly the blocks that become in flight, once each, and after a late packet once more those in flight |
| `ServerProxy.SmallestFirst` | src/proxy/server_proxy.rs:302-310 | the window is filled with the smallest block numbers |
| `ServerProxy.FillRequestsAscend` | src/proxy/server_proxy.rs:302-310 | and they are asked for in ascending order |
| `ServerProxy.WaitingEffect` | src/proxy/server_proxy.rs:177-191 | the announcement starts the download of all its blocks; nothing else changes a waiting proxy |
| `ServerProxy.BlockEffect` | src/proxy/server_proxy.rs:196-214 | a missing block is kept, any other ignored, and the last missing one ends the download |
| `ServerProxy.OtherEffect` | src/proxy/server_proxy.rs:217-239 | any other packet can only end the filtering, on a positive time test without replacement |
| `ServerProxy.WholeDownload` | src/proxy/server_proxy.rs:171-372 | from the raw packets: if after the first announcement every block arrives, in any order among any packets, with its bytes, then the download is handed over once and cut into exactly world and auxiliary data |
| `ServerProxy.ForwardedIs` | src/proxy/server_proxy.rs:231-241 | a forwarded packet is the one that came in, rewritten exactly while the filter is on or when it is turned on; without the announcement in it, it is unchanged |
| `ServerProxy.FilterStaysOn` | src/proxy/server_proxy.rs:234-238 | without a positive time test the filter stays on for the rest of the run |
| `ServerProxy.ClientSeesTwiceTheSize` | src/proxy/server_proxy.rs:244-300 | on the announcement the download starts and the game client is sent exactly one packet; it sees twice the size if and only if the old bytes do not occur earlier in it, or the world is empty |
| `ServerProxy.ServerProxyState.constructor` | src/proxy/server_proxy.rs:163-169 | starts waiting, with the stream |
| `ServerProxy.ServerProxyState.RequestNextBlocks` | src/proxy/server_proxy.rs:302-310 | the loop fills the window from the front of the queue |
| `ServerProxy.ServerProxyState.Retransmit` | src/proxy/server_proxy.rs:218-221 | the loop asks for the blocks in flight in order |
| `ServerProxy.ServerProxyState.FinalizeWorld` | src/proxy/server_proxy.rs:312-327 | takes the stream and hands over the download |
| `ServerProxy.ServerProxyState.PassOn` | src/proxy/server_proxy.rs:231-241 | filters, and stops filtering only if the test is positive and nothing was replaced |
| `ServerProxy.ServerProxyState.TransitionToDownloadingWorld` | src/proxy/server_proxy.rs:244-300 | forwards the rewritten announcement, turns the filter on, and asks for the first blocks |
| `ServerProxy.ServerProxyState.OnTransferBlock` | src/proxy/server_proxy.rs:199-213 | keeps the block, hands over a complete download, or refills the window |
| `ServerProxy.ServerProxyState.OnPacketFromServer` | src/proxy/server_proxy.rs:171-242 | one raw packet: new state, the bytes forwarded and the blocks asked for; taking the stream never fails |
| `ServerProxy.TransferWorldData` | src/proxy/server_proxy.rs:354-372 | sorts, concatenates and slices as specified; no slice is out of range |
| `ServerProxy.SortedBlocks` | src/proxy/server_proxy.rs:354 | a complete download, sorted, has block i at position i |
| `ServerProxy.SliceOfPadded` | src/proxy/server_proxy.rs:364-372 | slicing block-aligned data gives back world and auxiliary data |
| `ServerProxy.DownloadRecovers` | src/proxy/server_proxy.rs:347-372 | if the raw block packets carry their 503 bytes of a source, any run that hands over a download cuts exactly that source, with the length error exactly if it is too short |
| `ServerProxy.DownloadRecoversWorld` | src/proxy/server_proxy.rs:347-372 | so world and auxiliary data come back, whether or not the last block is filled up |
| `ClientProxy.ClientProxyState.constructor` | src/proxy/client_proxy.rs:179-187 | no data, nothing parked |
| `ClientProxy.ClientEventIs` | src/proxy/client_proxy.rs:189-203 | a packet of type 12 with five bytes at least is a block request; any other is not looked into |
| `ClientProxy.ClientProxyState.OnPacketFromClient` | src/proxy/client_proxy.rs:189-212 | a raw packet is handled as a request or as another packet |
| `ClientProxy.ClientProxyState.TryFulfillBlockRequest` | src/proxy/client_proxy.rs:238-249 | block n is the 503 bytes from 503·n on, if and only if there are that many |
| `ClientProxy.ClientProxyState.OnBlockRequest` | src/proxy/client_proxy.rs:190-202 | answers or parks |
| `ClientProxy.ClientProxyState.OnOtherPacket` | src/proxy/client_proxy.rs:205-211 | forwards, and cleans up only after the end |
| `ClientProxy.ClientProxyState.OnNewWorldData` | src/proxy/client_proxy.rs:214-236 | appends, answers, and leaves the swap set empty |
| `ClientProxy.ClientProxyState.AnswerPending` | src/proxy/client_proxy.rs:224-230 | answers the covered requests in ascending order and keeps the others |
| `ClientProxy.RunInv` | src/proxy/client_proxy.rs:141-147 | between events no parked request could be answered and the swap set is empty |
| `ClientProxy.AnswersAreFromStream` | src/proxy/client_proxy.rs:189-249 | every answer for block i is block i of the whole stream |
| `ClientProxy.HoldsStream` | src/proxy/client_proxy.rs:189-236 | the data held is the stream so far, and nothing from the cleanup on, which is the first late packet after the end of a non-empty stream |
| `ClientProxy.ParkedIff` | src/proxy/client_proxy.rs:189-236 | a block is parked exactly if it was asked for early and is not covered yet, or was asked for after the cleanup |
| `ClientProxy.AnsweredExactly` | src/proxy/client_proxy.rs:189-236 | answers to a block over any run: one per request that finds it available, and one for all earlier requests as soon as it is covered |
| `ClientProxy.NothingAfterCleanup` | src/proxy/client_proxy.rs:193-211 | after the cleanup no answer is ever sent, and what is parked or asked for stays parked |
| `ClientProxy.BlockIsSentIff` | src/proxy/client_proxy.rs:189-249 | over a whole run before a cleanup: a block is sent if and only if it was asked for and its 503 bytes have come, and then it is those |
| `ClientProxy.ForwardsExactly` | src/proxy/client_proxy.rs:211 | every packet that is no block request is forwarded, once; nothing else is |
| `ClientProxy.AnswersAscend` | src/proxy/client_proxy.rs:224-230 | parked requests are answered in ascending order |
| `ClientProxy.EveryBlockIsServed` | src/proxy/client_proxy.rs:238-249 | every block of the finished stream is served, the last one too |
| `ClientProxy.EveryRequestIsAnswered` | src/proxy/client_proxy.rs:189-249 | with the whole stream in a run, every block asked for at any time is sent |
| `ClientProxy.ServedBlocksAreWorld` | src/proxy/client_proxy.rs:238-249 | all blocks of the finished stream are served, and cut with the server's rule they are world and auxiliary data |
| `Transfer.AcceptAnswer` | src/proxy/client_proxy.rs:327-335 | fails exactly if some chunk has the wrong hash; otherwise the answer enters the local cache |
| `Transfer.Answered` | src/proxy/client_proxy.rs:311-338 | the batch is answered while the others run, checked and put into the shared cache, or dropped with the error |
| `Transfer.WaitedFor` | src/chunk_cache.rs:189-204 | the wait, of any length or without end, and the lookup |
| `Transfer.FetchChunks` | src/proxy/client_proxy.rs:308-338 | one round on the shared cache is the specified one, for every schedule |
| `Transfer.RoundShrinks` | src/proxy/client_proxy.rs:304-338 | a round that continues strictly shrinks the request list |
| `Transfer.AskedKeys` | src/proxy/client_proxy.rs:308-313 | the server is asked for the first 512 keys that nobody has or fetches, or for all of them |
| `Transfer.AllKeysConcat` | src/proxy/client_proxy.rs:280-283 | the request list lists the chunks file after file |
| `Transfer.RoundKeeps` | src/proxy/client_proxy.rs:304-338 | a round consists of legal steps, loses no described key, keeps every local chunk authentic, returns the task's batch, and stops only with the cause of its failure: no answer, or a wrong hash or count in the answer, to the batch it then dropped; a key it waited for that was inserted and is gone; a poisoned lock; or a wait of its own for a batch of another task that never closes |
| `Transfer.Culprit` | src/chunk_cache.rs:189-191 | a wait without end is due to a single event that never closes |
| `Transfer.PlayKeeps` | src/proxy/client_proxy.rs:291-353 | the whole loop, for every schedule and server: legal steps lead to its end, every file built is put together from chunks inserted under its keys, the "Emptied chunk list" panic is unreachable, and the loop is complete with nothing of the task left in the cache, or there is one of those reasons why not |
| `Transfer.HonestFailures` | src/proxy/client_proxy.rs:291-353 | an honest server leaves only oversized files and the other tasks as reasons; with a sound lock no chunk was lost |
| `Transfer.AloneSchedules` | src/proxy/client_proxy.rs:291-353 | the premise on the other tasks can be met |
| `Transfer.AlonePlays` | src/proxy/client_proxy.rs:291-353 | a task alone with a sound cache is never blocked, never loses a chunk and never meets a poisoned lock |
| `Transfer.BuildFile` | src/proxy/client_proxy.rs:294-341 | the inner loop terminates, and emits the next file or ends with the failure that the specification gives |
| `Transfer.Conclude` | src/proxy/client_proxy.rs:353-360 | after the loop: the panic of `mark_dirty`, the size error, or the finished stream |
| `Transfer.TransferWorldData` | src/proxy/client_proxy.rs:280-362 | the outcome and the final state of the shared system are those of the specified run, with all the laws above; a size error occurs exactly if the built files do not fit |
| `EndToEnd.MadeOfIsData` | src/dedup.rs:92-98 | data made of authentic chunks under a file's keys is the file |
| `EndToEnd.WorldIsSame` | src/dedup.rs:114-155 | read back and decoded, the rebuilt world has the original's files with the original's content |
| `EndToEnd.ServerIsHonest` | src/proxy/server_proxy.rs:401-405 | a request for described chunks is answered with them as long as the connection holds: the server's `expect` never fails |
| `EndToEnd.DeliveryLaw` | src/proxy/client_proxy.rs:252-363 | for every schedule, connection and prior cache: legal steps lead to the end; how a delivery can fail, tied to this task's own requests and waits; and that without collisions the files built are the first entries of the original archive, all of them if nothing failed |
| `EndToEnd.AloneDelivers` | src/proxy/client_proxy.rs:252-363 | without other tasks, with a connection that holds and files that fit, every file is built |
| `EndToEnd.NothingInTheWay` | src/proxy/client_proxy.rs:252-363 | among any other tasks, every file is built if and only if the files fit, the lock is sound, the connection does not break on a request of this task, and no batch it waits for is held for ever |
| `EndToEnd.SoundDelivery` | src/chunk_cache.rs:189-202 | during a delivery the lock stays sound if and only if every waiter that went on did so while its chunks still fitted |
| `EndToEnd.OutcomeIsOk` | src/dedup.rs:114-187 | a finished stream delivers the same world with the announced size and CRC and fits the size; a size error means that it does not fit; an oversized entry is one of the original archive |
| `EndToEnd.DeliverWorld` | src/proxy/client_proxy.rs:252-363 | the whole way: the outcome is that of the specified run; no wrong hash, wrong count or emptied list; finished exactly if nothing failed and the files fit; the world delivered is the original one |

## Left out

- QUIC, UDP sockets, TLS, channels and task spawning: only the order in which events reach the state machines is modelled.
- zlib, zstd, msgpack, blake3 and the `zip` crate's reader: parameters with stated premises, or the identity.
- The datagram codec: a short fixed layout that would add only easy members.
- Clocks and durations: each elapsed-time test is a free boolean; nothing is said about how long anything takes.
- Saving the cache in the background (`needs_saving`, temporary file, rename): the file's content is modelled, not when it is written.
- 64-bit overflow of the store's size counter and of `usize` offsets: numbers are unbounded except where a 16-bit or 32-bit field is written or a 32-bit computation is made.
- Logging, statistics and number formatting: presentation.
- ChunkStore.StoreIsLongestFittingSuffix: needs that a key always comes with the same length, which hash-checked chunks without collisions satisfy; `ChunkStore.SameSizeIsNeeded` shows what happens otherwise.
- CacheProtocol.WaiterOutcome: needs absence of collisions among the chunks inserted.
- CacheProtocol.BlockedForeverIff: needs that chunks with the requested hashes exist, since otherwise nobody could fulfil a batch.
- Transfer.TransferWorldData: the game client's end of the stream is taken to stay open; a failing `send` would end the task between rounds.
- EndToEnd.DeliverWorld: the game client's own reading of the stream is represented by the server's slicing rule and by the model's ZIP reader.
