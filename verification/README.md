# BitGraph: a Dafny model of its core algorithms

BitGraph records files in signed Merkle trees, settles the records on Base, and lets anyone check them later from
the file, an export and public data. This project models the algorithms those checks rest on, one module per
component, and proves what they promise. Code that works step by step is a method over arrays, sequences or the
fields of a class, proved against a function that says what it computes; lemmas about those functions carry the
promises. Protocols are step systems, over every order of steps and every cut-off.

| component | modules |
|---|---|
| RFC 6962 trees, their audit paths, the parallel build | `Rfc6962`, `ParallelTree` |
| settlement: blob codec, frames, RLP, batches, block numbers | `OpBlob`, `Frames`, `Rlp`, `RlpTolerant`, `Batches`, `BatchCodec`, `Schedule` |
| streaming tar: fields, headers, PAX, archives, the chunk queue, other writers | `TarNumbers`, `TarHeader`, `TarPax`, `TarArchive`, `TarStream`, `TarForeign` |
| lineage cycles and counter gaps | `Cycles`, `Gaps` |
| the sealed counter: its values, their order, its standstill | `KmsCounter`, `KmsOrder`, `KmsStandstill` |
| contents hash and entry scanner | `ContentsHash`, `Scanner` |
| Merkle-Patricia proofs, tree members | `Mpt`, `Placement`, `TarScan`, `TreeMember` |
| recovery entries and their writer | `RecoveryEntry`, `RecoveryWriter` |
| shared: byte strings, numerals, the library sort, lexicographic order | `Bytes`, `Numerals`, `Sorting`, `Lex` |

Where a promise turned out not to hold of the code, the code is kept and the exact condition is proved:

- `headAt` answers block 0 for a time before genesis, though nothing is stamped by then (`Schedule.HeadIsNewest`).
- A channel whose batches share one second, do not fill it and do not begin it is numbered from that second's first
  block (`Schedule.NumbersAreTheBlocks`, `Schedule.OneBlockMisnumbered`), so a cut channel can be numbered otherwise
  than the whole one; and with a pinned batch a cut channel can be refused where the whole one is not
  (`Batches.CutStreamNumbered`, `Schedule.PinnedPrefixRefused`, `Schedule.PinLost`).
- Where the schedule's second part holds one block a second, a span batch reaching past its first second is accepted
  with numbers that do not have its timestamps (`Schedule.SpanBlocksAreStamped`, `Schedule.SpanMisstamped`).
- A channel can read whole and lose an item: a block whose content is cut short inside its item, or a header at the
  channel's very end. Where none is lost and every block is complete, it is exactly what was written (`BatchCodec.ItemsLost`, `BatchCodec.ChannelIsWritten`).
- A tar path that starts with a byte-order mark loses it (`TarArchive.PathComesBack`, `TarArchive.MarkIsLost`).
- An anchored counter never repeats a value, but may return values out of order, exactly as its calls end in another
  order than the anchor took them (`KmsOrder.ReturnsInOrder`, `KmsOrder.OutOfOrder`); one failed blob write can stop it
  for good, and it stands still exactly when it is stuck (`KmsStandstill.FailedWriteSticks`,
  `KmsStandstill.StandstillIffStuck`). Past 32 digits a sealed counter does not open as itself
  (`KmsCounter.SealedOpens`).
- A stream longer than the tar reader's total cap is read to the last chunk that fits, so what is seen of it depends on
  how it is cut (`TarStream.ReadTarEntries`, `TarStream.CutsDiffer`).
- The checker's tar scan of a placement need not end: a negative size can bring it back to where it has been
  (`TarScan.EndlessIff`, `TarScan.LoopsForever`).
- The checker's tar header of a file of 8^11 bytes or more is longer than a block (`Placement.Ustar`).

Without an anchor the order of the counter's values rests on the disk: they rise as long as no write that outlived its
caller lands over a later value's (`KmsCounter.SequentialRuns`), and a run in which one does repeats a value
(`KmsCounter.LateWriteRepeats`).

`dafny verify dfyconfig.toml` checks the whole project.

## Model

| member | source | states |
|---|---|---|
| Rfc6962.ComputeSplit | src/tree-worker.ts:18-22 | the doubling loop stops at the largest power of two below n, the split RFC 6962 section 2.1 asks for |
| Rfc6962.RootFromPath | spec/tools/check.py:492-509 | the bit-shifting loop gives, for every index, size and path of any length, what climbing the power-of-two recursion gives; no root for an index out of range |
| Rfc6962.LeavingLeft | spec/tools/check.py:500-507 | coming out of a full left subtree the shifting loop has used every sibling but the last inside it, and the last goes on the right |
| Rfc6962.LeavingRight | spec/tools/check.py:500-507 | coming out of a right subtree it has taken the same turns as inside it, and the last sibling goes on the left |
| Rfc6962.PathReachesRoot | spec/tools/check.py:483-509 | completeness for every tree size and index: the RFC 6962 section 2.1.1 audit path leads the leaf to `mth` |
| Rfc6962.PathBindsLeaf | spec/tools/check.py:483-509 | soundness: any path of any length that leads a hash to `mth(leaves)` at (i, n) starts from exactly leaves[i] and is its audit path, unless a pair hashed on the way collides with a pair of the tree |
| ParallelTree.BlockList.Walk | src/tree-parallel.ts:61-68 | the recursive walk pushes the blocks of [lo, hi) behind those already there, in order |
| ParallelTree.BlocksTile | src/tree-parallel.ts:61-68 | the blocks partition the leaves, none larger than C, each a node of the RFC 6962 split |
| ParallelTree.TileOf | src/tree-parallel.ts:61-68 | every leaf lies in exactly one block |
| ParallelTree.LeastLoaded | src/tree-parallel.ts:72-73 | the inner loop finds the first worker with the least load |
| ParallelTree.Assign | src/tree-parallel.ts:69-76 | every block goes to exactly one worker, each load is the size of its share, and the greedy loads satisfy cores * maxLoad <= n + (cores - 1) * C |
| ParallelTree.Plan | src/tree-parallel.ts:59-76 | blocks, largest first, shared out: the shares pool to the blocks of [0, n) and stay within the load bound |
| ParallelTree.StepKeepsPool | src/tree-worker.ts:32-39 | whichever worker moves next, no hash or root any worker has produced is spoilt |
| ParallelTree.StepLeft | src/tree-worker.ts:32-39 | every step of every worker leaves strictly less to do, so all interleavings end |
| ParallelTree.FinishedOutput | src/tree-worker.ts:32-39 | when all workers are done the shared buffer holds every leaf hash, whatever the interleaving was |
| ParallelTree.SubtreeIsMth | src/tree-worker.ts:24-30 | the recursion over a range of the shared buffer is the RFC 6962 tree head of that range |
| ParallelTree.JoinIsMth | src/tree-parallel.ts:95-97 | joining known subtree heads along the split gives the tree head, whichever subtrees are known |
| ParallelTree.RunWorkers | src/tree-parallel.ts:78-88 | from any shares that pool to the blocks, any order of worker steps ends with all workers done and their outputs right |
| ParallelTree.BuildTreeParallel | src/tree-parallel.ts:38-98 | the parallel build returns the sequential leaf hashes and the sequential root, for every n, number of cores, block size and interleaving |
| OpBlob.Reassemble | packages/audit/src/settlement-blobs.ts:167-175 | the three data bytes spread over the leading six-bit bytes are put at their places and nothing else changes |
| OpBlob.UnpackPack | packages/audit/src/settlement-blobs.ts:167-181 | unpacking inverts the six-bit packing of the OP Stack version 0 encoding, for every number of rounds |
| OpBlob.PackUnpack | packages/audit/src/settlement-blobs.ts:167-181 | packing inverts unpacking on every blob whose field elements have their high bits clear |
| OpBlob.AcceptedIsEncoded | packages/audit/src/settlement-blobs.ts:148-185 | a blob is accepted with a payload if and only if the payload has at most 130,044 bytes and the blob is its encoding |
| OpBlob.OneBlobPerPayload | packages/audit/src/settlement-blobs.ts:148-185 | two accepted blobs with equal data are equal |
| OpBlob.DecodeOpBlob | packages/audit/src/settlement-blobs.ts:148-185 | the decoding loop, filling `out` in place and never indexing out of range, answers a payload only for its encoding and refuses only what encodes nothing |
| Frames.ParseFrames | packages/audit/src/settlement-blobs.ts:197-215 | the cursor loop reads the frames of the layout, or refuses |
| Frames.ParseIsLayout | packages/audit/src/settlement-blobs.ts:197-215 | data parses into a list of frames if and only if it is the version byte and the layout of those frames, each with sizes its fields can hold |
| Frames.Assemble | packages/audit/src/settlement-blobs.ts:623-634 | the frames of one channel by number, refusing a repeated number, a missing frame 0 and a misplaced is_last |
| Frames.AssembledIs | packages/audit/src/settlement-blobs.ts:623-643 | frames are joined into a run if and only if no number is there twice, the run is the channel's frames 0, 1, ... up to the first missing one, and a frame marked last ends it with none of the channel's left out; it is called complete if and only if its last frame is so marked |
| Frames.AnyFramesJoin | packages/audit/src/settlement-blobs.ts:623-643 | from any subset, in any order, of a well-formed channel that includes frame 0, the joined bytes are a prefix of the channel up to the first frame missing, called complete exactly when none is |
| Frames.Join | packages/audit/src/settlement-blobs.ts:641-643 | the buffer filled at a moving offset is the frames' data in order |
| Rlp.ReadLen | packages/audit/src/settlement-blobs.ts:221-227 | the length loop gives the big-endian length, refusing a leading zero and a short length in long form |
| Rlp.SpanHeader | packages/audit/src/settlement-blobs.ts:230-250 | whatever span the strict reader finds, its header is the one the encoder writes |
| Rlp.HeaderSpan | packages/audit/src/settlement-blobs.ts:230-250 | the encoder's header is found as its span |
| Rlp.ListItems | packages/audit/src/settlement-blobs.ts:530-540 | the recursive cursor loop computes the items of a list span |
| Rlp.StrictIsCanonical | packages/audit/src/settlement-blobs.ts:230-250 | a payload reads as items if and only if it is their encoding, at any nesting (Ethereum Yellow Paper, Appendix B) |
| Rlp.EncodingInjective | spec/tools/check.py:124-135 | no two item lists share an encoding |
| RlpTolerant.DecodeRlpList | packages/audit/src/rlp.ts:26-34 | the whole input is one list item and nothing more |
| RlpTolerant.DecodesEncoding | packages/audit/src/rlp.ts:36-103 | the tolerant reader inverts the encoder wherever the encoding stands, and stops exactly behind it |
| RlpTolerant.Reencoding | packages/audit/src/rlp.ts:36-103 | whatever it accepts, encoding it again is never longer, and as long only when the bytes were canonical |
| RlpTolerant.PyIsDecode | spec/tools/check.py:95-121 | inside the buffer the Python and the TypeScript reader find the same items |
| RlpTolerant.RlpDecodeIs | spec/tools/check.py:88-93 | the Python reader of a whole buffer reads exactly what the TypeScript one reads whole |
| RlpTolerant.RlpDecodeInverts | spec/tools/check.py:88-135 | `rlp_decode` after `rlp_encode` is the identity |
| RlpTolerant.RlpDecodeShortest | spec/tools/check.py:88-135 | of all byte strings read as an item the encoder's is the shortest, and the only one of its length |
| Batches.ReadTxs | packages/audit/src/settlement-blobs.ts:386-398 | the transaction loop, complete or cut |
| Batches.ParseSingularBatch | packages/audit/src/settlement-blobs.ts:358-402 | the reads of the five fields and the transaction loop compute the parse that `BatchCodec.BlockIsWritten` states by the encoder |
| Batches.ReadBatches | packages/audit/src/settlement-blobs.ts:314-342 | the batch loop, with its silent end inside a header and its cut last batch |
| Batches.DecodeBatches | packages/audit/src/settlement-blobs.ts:307-350 | reading, pinning and numbering together compute the decoding that `BatchCodec.ChannelIsWritten` and `BatchCodec.DecodesWritten` state by the encoder |
| Batches.PinFrom | packages/audit/src/settlement-blobs.ts:343-346 | the pin is the first block that matches by parent hash or by a transaction's hash, and there is none exactly when no block does |
| Batches.ParseAgrees | packages/audit/src/settlement-blobs.ts:358-402 | a batch is read from the bytes before its limit alone |
| Batches.ParseLess | packages/audit/src/settlement-blobs.ts:358-402 | a batch cut anywhere is not read, or read with the same header and a prefix of its transactions |
| Batches.CutStream | packages/audit/src/settlement-blobs.ts:307-342 | cut-stream soundness: if a channel reads whole without error, reading any prefix of it as cut never throws and yields a prefix of the same batches, with equal complete blocks and at most a cut last block whose transactions are a prefix of the true ones |
| Batches.CutTimestamps | packages/audit/src/settlement-blobs.ts:343-347 | the timestamps of a cut channel are a prefix of the whole channel's |
| Batches.CutPin | packages/audit/src/settlement-blobs.ts:343-346 | a cut channel's pin is the whole channel's as long as that block is there and still known by it; a block known by a transaction that is cut away is pinned no more, and no other takes its place |
| Batches.CutStreamNumbered | packages/audit/src/settlement-blobs.ts:307-350 | with any pin or none: only the numbering can refuse a cut, if and only if it ends inside the channel's first second, does not fill it, and the pin puts it outside; its numbers are the whole channel's if and only if it passes that second or both begin it at the same block |
| Batches.CutStreamUnpinned | packages/audit/src/settlement-blobs.ts:307-350 | without a pin no cut is refused; its numbers are the whole channel's if and only if it passes the first second, or that second is full, or it is all the channel has |
| BatchCodec.BlockIsWritten | packages/audit/src/settlement-blobs.ts:358-402 | a payload is read as a block with all its transactions if and only if it is the encoding of [parent, epoch, epoch hash, time, transactions] for some epoch and two hashes of 32 bytes, and the block has that parent, time and those transactions |
| BatchCodec.ChannelReads | packages/audit/src/settlement-blobs.ts:307-342 | any written channel of blocks and readable spans reads whole, each batch at its offset with its own parent, time and content |
| BatchCodec.ChannelIsWritten | packages/audit/src/settlement-blobs.ts:307-342 | a channel reads whole, with every block complete and no item that comes to nothing, if and only if it is a sequence of batches written out, and then as exactly those |
| BatchCodec.ItemsLost | packages/audit/src/settlement-blobs.ts:316-342 | two channels read whole as no batch though they are not empty: a block item without content, and a header without its payload |
| BatchCodec.ChannelShows | packages/audit/src/settlement-blobs.ts:307-402 | a written channel cut anywhere is not refused and all that is there is read: the batches that end by the cut and, of a block whose transaction list has begun, the transactions that end by it |
| BatchCodec.DecodesWritten | packages/audit/src/settlement-blobs.ts:307-350 | a written channel of consecutive blocks decodes to its batches and to consecutive numbers; they are the blocks' own if and only if a rightly pinned block is found, or the blocks do not share one second without filling it, or begin it |
| Schedule.MainnetIsSteady | packages/audit/src/rollup-schedule.ts:27-31 | the schedule of Base mainnet is one of those the results below are about |
| Schedule.SlotIsItsBlocks | packages/audit/src/rollup-schedule.ts:34-50 | `blocksAt` and `timeOfBlock` are inverse: the slot of a timestamp is exactly the blocks stamped with it |
| Schedule.TimesAscend | packages/audit/src/rollup-schedule.ts:34-38 | later blocks are never stamped earlier, across the change of schedule |
| Schedule.HeadIsNewest | packages/audit/src/rollup-schedule.ts:53-57 | `headAt` is the greatest block stamped by t if and only if t is not before genesis; before it the answer is block 0 |
| Schedule.NumberSingularBatches | packages/audit/src/rollup-schedule.ts:74-105 | the nested loops compute the run-by-run numbering with its four refusals |
| Schedule.NumbersAreStamped | packages/audit/src/rollup-schedule.ts:74-105 | whatever is returned has the given timestamps, and is consecutive where seconds are shared |
| Schedule.NumbersAreTheBlocks | packages/audit/src/rollup-schedule.ts:59-105 | from the timestamps of consecutive blocks, unpinned, exactly those blocks come back if and only if they span more than one second, fill theirs, or begin it |
| Schedule.PinnedNumbersAreTheBlocks | packages/audit/src/rollup-schedule.ts:69-95 | with one batch pinned to its own block they come back in every case |
| Schedule.PrefixNumbers | packages/audit/src/rollup-schedule.ts:74-105 | a prefix of a numbered channel, under the pin that is left of the channel's: refused if and only if it ends inside the first second, does not fill it, and the pin puts it outside; its numbers agree if and only if it passes that second or both begin it at the same block, case by case over the places of the pins |
| Schedule.PrefixUnpinned | packages/audit/src/rollup-schedule.ts:74-105 | without a pin a prefix is never refused, and agrees if and only if it passes the first second, that second is full, or it is all there is |
| Schedule.PrefixPinKept | packages/audit/src/rollup-schedule.ts:84-95 | with the pinned batch still there, an accepted prefix agrees if and only if it passes the first second, or fills it, or the channel has no more than part of that second, or the pin names the block the channel itself gives to its batch |
| Schedule.PrefixPinLost | packages/audit/src/rollup-schedule.ts:84-95 | with the pin lost no prefix is refused, and it agrees if and only if it passes the first second, or that second is full, or the channel has no more and the pin did not move it from the second's first block |
| Schedule.PinnedPrefixRefused | packages/audit/src/rollup-schedule.ts:84-95 | a pinned channel that is numbered and whose first batch alone is refused under the same pin |
| Schedule.PinLost | packages/audit/src/rollup-schedule.ts:84-95 | one batch whose number changes when its pin is cut away |
| Schedule.OneBlockMisnumbered | packages/audit/src/rollup-schedule.ts:84-95 | the second block of a shared second, alone and unpinned, is numbered as its first |
| Schedule.SpanAccepted | packages/audit/src/settlement-blobs.ts:512-526 | a span batch is accepted if and only if its first and its last timestamp each stamp exactly one block, and its numbers count on from that first block |
| Schedule.SpanBlocksAreStamped | packages/audit/src/settlement-blobs.ts:512-526 | an accepted span batch's blocks are all stamped as the schedule says if and only if it ends by the first shared second, is one block, or blocks take a second throughout |
| Schedule.SpanMisstamped | packages/audit/src/settlement-blobs.ts:512-526 | an accepted span batch of three whose last block the schedule stamps otherwise |
| TarNumbers.Octal | packages/audit/src/tar.ts:542-548 | the octal field writer, zero-padded, its last byte NUL |
| TarNumbers.DigitsRead | packages/audit/src/tar.ts:241-261 | octal digits ended by a NUL, or by a NUL and a space, are read as their value |
| TarNumbers.PaddedReads | packages/audit/src/tar.ts:241-261 | octal digits between spaces and NULs are read as their value, a blank field as zero |
| TarNumbers.BinaryReads | packages/audit/src/tar.ts:241-253 | a base-256 field is read as its number up to the largest safe integer and refused above it |
| TarNumbers.SizeFieldExact | packages/audit/src/tar.ts:241-261 | a size goes through its twelve-byte field unchanged if and only if it is below 8^11 |
| TarHeader.VerifyChecksum | packages/audit/src/tar.ts:263-272 | the stored checksum is compared with the sum that counts its own field as spaces |
| TarHeader.WriteHeader | packages/audit/src/tar.ts:517-540 | the block filled in place, field by field, sum and then checksum, is the header |
| TarHeader.SumSmall | packages/audit/src/tar.ts:533-539 | the six-digit checksum field never overflows |
| TarHeader.ReadHeader | packages/audit/src/tar.ts:209-228 | name and prefix up to their NULs, size and kind, or a refusal |
| TarHeader.HeaderReads | packages/audit/src/tar.ts:209-272 | a header of this writer passes its checksum and is read back: name, prefix, size and kind |
| TarHeader.HeadReads | packages/audit/src/tar.ts:209-272 | a header of any writer with its checksum is read: its name, behind the prefix if and only if its magic is the POSIX one, its kind, and the number in its size field, or refused with that field |
| TarHeader.SealedIsNotZero | packages/audit/src/tar.ts:274-279 | no block with a checksum in place is taken for the end marker |
| TarHeader.OneByteOff | packages/audit/src/tar.ts:263-272 | a block with any one byte changed outside its checksum is refused |
| TarPax.PaxCount | packages/audit/src/tar.ts:551-557 | the fixpoint loop ends, at a count equal to the whole record's length (section "pax Extended Header" of POSIX.1 `pax`) |
| TarPax.CountIsLeast | packages/audit/src/tar.ts:553-556 | of the counts that are right it finds the least |
| TarPax.PaxPathRecord | packages/audit/src/tar.ts:551-558 | the loop writes the record with that count |
| TarPax.ParsePaxRecords | packages/audit/src/tar.ts:290-316 | the record loop, with its refusals |
| TarPax.PaxRecordReads | packages/audit/src/tar.ts:290-316 | a path record is read back as that path, whatever bytes the path has |
| TarPax.RecordIs | packages/audit/src/tar.ts:290-316 | a record is read at a place if and only if one stands there: a numeral that counts it, a space, text with an equals sign and a newline; and it is read as that key and value |
| TarPax.RecordsRead | packages/audit/src/tar.ts:290-316 | any records one behind the other are read as the map they come to, the last one of a key counting, whatever bytes the values have |
| TarPax.SplitBefore | packages/audit/src/tar.ts:500-515 | the split is at the last slash that leaves a name of 1 to 100 bytes and a prefix of at most 155, if there is one |
| TarPax.SplitUstarPath | packages/audit/src/tar.ts:500-515 | the downward loop finds that slash |
| TarPax.Cut | packages/audit/src/tar.ts:561-568 | text over the limit is cut at the last place that is not inside a character |
| TarPax.TruncateBytes | packages/audit/src/tar.ts:561-568 | the loop finds that place; what is left is decoded, which drops a byte-order mark in front |
| TarArchive.WriteTarArchive | packages/audit/src/tar.ts:470-493 | the parts pushed file by file, over ustar, prefix and PAX paths, and two zero blocks are the archive |
| TarArchive.ReadsOneFile | packages/audit/src/tar.ts:67-170 | a file's blocks, in front of anything, are read as one entry and leave nothing behind in the reader's state |
| TarArchive.ReadsArchive | packages/audit/src/tar.ts:67-170 | reading an archive gives its files in order with their contents and ends at its end marker, within any caps that let it through |
| TarArchive.PathComesBack | packages/audit/src/tar.ts:209-224 | a path comes back as written if and only if the header fields that carry it hold no NUL and no leading byte-order mark; a PAX path always does |
| TarArchive.MarkIsLost | packages/audit/src/tar.ts:331-333 | a NUL-free path that does not come back |
| TarArchive.ArchiveRoundTrip | packages/audit/src/tar.ts:67-170 | reading what was written returns exactly the files if and only if all their paths are of that kind |
| TarForeign.OwnSays | packages/audit/src/tar.ts:542-548 | what this writer puts in a size field says that size |
| TarForeign.SaidIsRead | packages/audit/src/tar.ts:241-261 | a size field of either form is read as the number it says |
| TarForeign.NotesRead | packages/audit/src/tar.ts:105-131 | any metadata entries in any order, before anything: the last records and the last long name wait for the next file, global records add up, long link names of any length are passed over |
| TarForeign.ForeignReads | packages/audit/src/tar.ts:67-170 | an archive of any writer, in front of anything: each file with its content under the path that counts for it (its own record, else its long name, else the global record, else its header) and the size that counts (record, global record, header); its own records and long name end with it, global ones go on |
| TarForeign.ForeignArchive | packages/audit/src/tar.ts:67-170 | the same from the start to a zero block, whatever follows it, or to the end of the stream |
| TarForeign.FloodRefused | packages/audit/src/tar.ts:100-102 | a header past the cap on headers is refused, whatever it says |
| TarForeign.MetaRefused | packages/audit/src/tar.ts:79-85 | records, global records and long names over their cap are refused |
| TarForeign.DamageRefused | packages/audit/src/tar.ts:263-272 | a header with one byte changed outside its checksum ends the reading with an error |
| TarForeign.HugeRefused | packages/audit/src/tar.ts:241-253 | so does a base-256 size above the largest safe integer |
| TarStream.ChunkReader.Fill | packages/audit/src/tar.ts:358-376 | pulling a chunk changes nothing in what is still to be read; it throws only when everything that fits under the cap has been pulled and the stream goes on |
| TarStream.ChunkReader.Advance | packages/audit/src/tar.ts:431-438 | passing over bytes drops exactly those from the flat stream |
| TarStream.ChunkReader.Take | packages/audit/src/tar.ts:418-429 | the bytes copied out of the chunk queue are the first n of the flat stream |
| TarStream.ChunkReader.ReadExact | packages/audit/src/tar.ts:383-392 | exactly n bytes while so many fit; null only at a clean end within the cap; an error exactly otherwise |
| TarStream.ChunkReader.ReadSome | packages/audit/src/tar.ts:395-405 | 1 to max bytes of the front; null only at the end within the cap, an error only at the cap |
| TarStream.ChunkReader.Skip | packages/audit/src/tar.ts:407-416 | n bytes dropped, or an error if and only if fewer are left under the cap |
| TarStream.TakeTurn | packages/audit/src/tar.ts:87-168 | one turn of the loop over the chunk queue is one turn over the flat stream |
| TarStream.ReadTarEntries | packages/audit/src/tar.ts:67-170 | for every split into chunks and every cap, the streaming reader hands out exactly the flat reader's entries of the chunks that fit under the cap, as much of each body as is asked for, and ends in peace if and only if that meets the end marker, or the stream's end within the cap |
| TarStream.FrontReads | packages/audit/src/tar.ts:67-170 | reading a front of a stream gives a front of its entries, only the last body cut, and comes to the end marker, with everything, if and only if the marker is inside the front |
| TarStream.StreamedIsFront | packages/audit/src/tar.ts:346-376 | however the stream is cut, what is seen is a front of the flat reader's entries; the streaming reader ends in peace, having seen all of them, if and only if the flat one does and its end marker is inside what fits under the cap, or the whole stream is within it |
| TarStream.ArchiveMarker | packages/audit/src/tar.ts:470-493 | a written archive's end marker is the first of its two zero blocks |
| TarStream.CutsAgree | packages/audit/src/tar.ts:346-376 | two ways to cut one stream within the cap read alike |
| TarStream.OneChunkOver | packages/audit/src/tar.ts:366-373 | a stream given as one chunk over the cap is refused with nothing seen |
| TarStream.CutsDiffer | packages/audit/src/tar.ts:366-373 | one file's archive, capped at the file's own blocks: nothing is seen of it as one chunk, the file when it is cut behind those blocks |
| TarStream.ReadBack | packages/audit/src/tar.ts:67-493 | written, cut into any chunks and streamed back under any cap, an archive gives its first files in order, each under its path, and all of them in full, ending in peace, if and only if everything up to its first zero block fits under the cap |
| Cycles.CanonicalizeCycle | packages/audit/src/anomalies.ts:764-770 | the loop turns a cycle so that its least id leads |
| Cycles.RotationsAreOne | packages/audit/src/anomalies.ts:764-770 | rotations of one cycle canonicalise to the same list |
| Cycles.JoinTellsApart | packages/audit/src/anomalies.ts:749-751 | joined names tell cycles apart when no id holds the separator |
| Cycles.Explore | packages/audit/src/anomalies.ts:722-755 | one tree of the search terminates, visits what it starts from, keeps every node left behind closed up to edges that closed a cycle, reports only true cycles, and comes to what the recursive search of the graph arranged to ascend comes to |
| Cycles.WalkUsesBack | packages/audit/src/anomalies.ts:722-755 | every closed walk among the nodes left behind uses an edge that closed a cycle |
| Cycles.FindCycles | packages/audit/src/anomalies.ts:717-762 | it terminates; it reports exactly what the recursive search of the graph arranged to ascend finds, in name order; every cycle reported is a real simple cycle led by its least id, under its own name; one is reported if and only if the graph has a closed walk; and when no id holds the separator every closed walk shares an edge with a reported cycle |
| Cycles.FoundInOrder | packages/audit/src/anomalies.ts:721-755 | what is found is what a search in the order of any one arrangement with ascending ids and ascending successors finds |
| Cycles.OrderIsNothing | packages/audit/src/anomalies.ts:682-762 | two graphs with the same ids and, for each, the same successors, each in any order, have equal results |
| Gaps.Collect | packages/audit/src/anomalies.ts:119-125 | the explained positions are every parsed counter and slot counter, once |
| Gaps.GapNext | packages/audit/src/anomalies.ts:132-141 | one turn of the loop keeps the ranges sorted, disjoint and exactly the unexplained positions so far, and the count exact |
| Gaps.ListGap | packages/audit/src/anomalies.ts:138-140 | a gap's positions are listed while the list has room |
| Gaps.AnalyzeGaps | packages/audit/src/anomalies.ts:111-151 | the ranges are sorted, do not touch, and cover exactly the unexplained positions of [min, max]; count = max - min + 1 - explained; the list is the first min(count, 10,000) of them; there is no report if and only if nothing is missing |
| KmsCounter.SealedOpens | packages/adapter-nitro/src/kms-counter.ts:326-331 | a sealed counter opens as itself if and only if it has at most 32 digits |
| KmsCounter.SpentStep | packages/adapter-nitro/src/kms-counter.ts:51-87 | every event keeps: what the anchor let through is at most its last value, and each of it is held or returned once |
| KmsCounter.AnchoredRuns | packages/adapter-nitro/src/kms-counter.ts:51-87 | with an anchor no value is returned twice, over all interleavings of `next` and `restore` in any number of objects, lost replies, restarts, rolled-back blobs, and requests that take effect after their caller is gone |
| KmsOrder.OrderStep | packages/adapter-nitro/src/kms-counter.ts:51-87 | every event keeps values given out and values held in the order in which the anchor took them |
| KmsOrder.ReturnsInOrder | packages/adapter-nitro/src/kms-counter.ts:51-87 | in every anchored run two values are returned in the order of size if and only if the anchor took them in the order their calls ended; all rise if and only if every call ends in the order it was taken |
| KmsOrder.TakenAt | packages/adapter-nitro/src/kms-counter.ts:76-80 | what is noted of a returned value is the one event that brought the anchor to it |
| KmsOrder.OneAtATimeRises | packages/adapter-nitro/src/kms-counter.ts:51-87 | anchored calls begun only when no call is waiting, in any number of objects, return rising values, whatever replies are lost and however often objects restart |
| KmsOrder.OutOfOrder | packages/adapter-nitro/src/kms-counter.ts:71-87 | an anchored run that returns 3 and then 1 |
| KmsStandstill.StuckForever | packages/adapter-nitro/src/kms-counter.ts:51-87 | once every value an object or a restart could try has been taken by the anchor, nothing is ever returned again |
| KmsStandstill.DecryptingGoesOn | packages/adapter-nitro/src/kms-counter.ts:54-67 | a restore that holds a blob of a value the anchor has not passed goes on to a returned value, whatever the disk holds by then |
| KmsStandstill.NotStuckGoesOn | packages/adapter-nitro/src/kms-counter.ts:51-87 | in any other state some run with an honest disk returns one more value |
| KmsStandstill.StandstillIffStuck | packages/adapter-nitro/src/kms-counter.ts:51-87 | after any history, no honest continuation ever returns anything again if and only if whatever an object, a call at any of its awaits, a restart, the stored blob or a write under way could come to is at or below what the anchor took, and no `next` has its value and waits for the disk |
| KmsStandstill.FailedWriteSticks | packages/adapter-nitro/src/kms-counter.ts:76-84 | from a level state one failed write of the blob after the anchor took its value brings that about |
| KmsCounter.OrderedStep | packages/adapter-nitro/src/kms-counter.ts:51-87 | without an anchor, in turn, every event keeps returned values rising and at or below the latest blob |
| KmsCounter.SequentialRuns | packages/adapter-nitro/src/kms-counter.ts:51-87 | without an anchor, one call at a time and the latest blob restored after each restart, returned values strictly rise across a restart at any await, while 32 digits hold them, as long as no write that outlived its caller lands over a later value's |
| KmsCounter.LateWriteRepeats | packages/adapter-nitro/src/kms-counter.ts:76-84 | a run of that kind in which such a write does land late, and value 3 is returned twice |
| ContentsHash.CompareBytes | packages/audit/src/contents-hash.ts:88-95 | the index loop is lexicographic order with the shorter first |
| ContentsHash.ComputeEntryDigest | packages/audit/src/contents-hash.ts:41-47 | the hash of path, NUL and content, refused for a path with a NUL |
| ContentsHash.CombineEntryDigests | packages/audit/src/contents-hash.ts:67-79 | the hash of the digests in path order |
| ContentsHash.ComputeContentsHash | packages/audit/src/contents-hash.ts:54-60 | both together over a list of entries |
| ContentsHash.OrderDoesNotMatter | packages/audit/src/contents-hash.ts:54-79 | when no two different entries share a path the order they come in makes no difference |
| ContentsHash.HashedInPathOrder | packages/audit/src/contents-hash.ts:67-79 | in whatever order the entries come, the result is the hash of their digests in the arrangement whose paths rise byte for byte |
| ContentsHash.HashBindsContents | packages/audit/src/contents-hash.ts:41-79 | with no collision among what is hashed, equal results are of the same entries, each as often |
| Scanner.HashEntryStream | packages/audit/src/ingest.ts:800-875 | for every split into chunks the same strings are hashed, and the entry is kept, dropped or marked too large by one function of its content, declared size and cap; what is kept is the whole content |
| Scanner.OverCapIsMarked | packages/audit/src/ingest.ts:819-870 | for an arbitrary declared size: an export over its cap is kept if and only if it passes as an ordinary document, and otherwise marked too large unless it is declared past the ordinary cap and ends inside the opening window, which no call in the source brings about |
| Scanner.TrueSizeJudges | packages/audit/src/ingest.ts:155-185 | in the calls the source makes, with no size declared or the content's own, the declared size makes no difference: an export over its cap is marked too large if and only if it is not kept as an ordinary document, and nothing else is marked |
| Mpt.NextIsShorter | spec/tools/check.py:151-191 | an embedded node is strictly shorter than the node that holds it, the second part of the termination measure |
| Mpt.MptGet | spec/tools/check.py:151-191 | the loop terminates by (proof nodes left, length of the wanted node) and computes the walk |
| Mpt.OneValue | spec/tools/check.py:151-191 | two proofs of one root and key that both give a value give the same, unless two of their nodes collide (Ethereum Yellow Paper, Appendix D) |
| Mpt.HexPrefixReads | spec/tools/check.py:144-149 | a hex-prefixed path is read back with its leaf flag |
| Mpt.NibblesAre | spec/tools/check.py:144-149 | each byte gives its high nibble and then its low one |
| Mpt.HonestProof | spec/tools/check.py:151-191 | the honest proof of a key gives what the trie keeps there, its absence included |
| Mpt.AnyProof | spec/tools/check.py:151-191 | any proof under the trie's root ends short or gives what the trie keeps, unless two nodes collide |
| Placement.Ustar | spec/tools/check.py:438-452 | for every name and size the checker's slice assignments; with a name that fits, the archive writer's block if and only if eleven octal digits hold the size, and a longer one otherwise |
| Placement.Place | spec/tools/check.py:459-470 | a placement exists exactly for the codes 0 to 3 |
| Placement.TrailerIs | spec/tools/check.py:462-463 | code 1 is the original, the mark, eight zeros and the commitment: a trailer of 48 bytes |
| TreeMember.PlacedEntries | spec/tools/check.py:464-469 | code 2 holds the manifest and then the original, code 3 the original and then the manifest, under their names, and nothing more |
| TarScan.TarEntries | spec/tools/check.py:583-594 | the offset loop, with negative sizes and offsets: the entries up to a zero block or the end, an exception, or no end |
| TarScan.EndlessIff | spec/tools/check.py:583-594 | the loop never ends if and only if it comes to some offset twice |
| TarScan.LoopsForever | spec/tools/check.py:583-594 | one block, of size minus 512, on which it never ends |
| TarScan.ScanForward | spec/tools/check.py:583-594 | a tar without a negative size is read forward, entry by entry, and the loop ends |
| TarScan.Tar2Reads | spec/tools/check.py:583-594 | both entries of a tar placement are found again, in order, with their contents |
| TreeMember.MagicSpelled | spec/tools/check.py:513 | the first sixteen bytes of a root document spell bitgraph-tree/1 and a NUL |
| TreeMember.RootDocReads | spec/tools/check.py:512-518 | a root document is read as (count, root, commitment) if and only if it is those, well formed, written out |
| TreeMember.StripsBack | spec/tools/check.py:570-579 | stripping a placement gives the original back |
| TreeMember.CheckTreeMember | spec/tools/check.py:538-580 | the guard sequence of the check computes the answer that the next five members state by the input, and none where its tar scan never ends |
| TreeMember.MarkRefused | spec/tools/check.py:541-548 | NOT_TREE, UNKNOWN_SPEC and INVALID_TREE_MARKER are for proofs that are not marked, each if and only if title, spec or name is what is wrong |
| TreeMember.TreeRefused | spec/tools/check.py:549-563 | for a marked proof INVALID_TREE_ROOT if and only if no well-formed document was brought that is the one signed, a slot refusal when its commitment is not the proof's, and INVALID_TREE_PATH if and only if the evidence leads from no leaf to its root |
| TreeMember.JudgedPasses | spec/tools/check.py:538-563 | every other answer, and a positive one above all, is given only for a marked proof, the document signed, its commitment and a path to its root |
| TreeMember.FileJudged | spec/tools/check.py:564-580 | which of AS_IS, FROM_ORIGIN, RECONSTRUCTION_MISMATCH and NO_MATCH is given, if and only if, and what is left for a file of the committed digest |
| TreeMember.DirectWhen | spec/tools/check.py:570-579 | DIRECT if and only if the file is some original of the origin digest placed, for a trailer and for every tar below 8^11 bytes |
| TreeMember.HonestAnswers | spec/tools/check.py:538-580 | for every record and member, honest evidence answers AS_IS, FROM_ORIGIN or DIRECT rightly for the original and for the committed file |
| TreeMember.EvidenceBinds | spec/tools/check.py:538-563 | whatever document and evidence pass are those of the leaf at that index, unless something hashed collides |
| TreeMember.AnswerMeans | spec/tools/check.py:538-580 | a positive answer names the very file: the original of the member at that index, or, for DIRECT, place(code, original, commitment) |
| RecoveryEntry.MarksOneSide | src/recovery.ts:728-755 | marking a side in the progress byte settles that side and leaves the member's other side as it was |
| RecoveryEntry.TreeFromParts | src/recovery.ts:574-613 | exactly the trees that pass every check before sealing are accepted |
| RecoveryEntry.LeavesDiffer | src/recovery.ts:590-602 | neighbours in strict order: no committed digest is in the list twice |
| RecoveryEntry.PlaintextForReads | src/recovery.ts:670-693 | an honest member's plaintext passes the strict reader, its path reaching the root |
| RecoveryEntry.ListedMeans | src/recovery.ts:1099-1131 | whoever wrote an entry: when it is listed for a digest and its locator names a tree's document, it holds a leaf of that tree at its own index that has the digest on the side matched, unless something hashed collides |
| RecoveryEntry.SameMemberIs | src/recovery.ts:509-514 | two plaintexts are the same member's if and only if they are equal but for name and salt |
| RecoveryEntry.HeldIsListed | src/recovery.ts:813-824 | the writer counts a stored entry as this member's if and only if a reader lists it as this member |
| RecoveryEntry.NameTells | src/recovery.ts:268-286 | what a name hashes tells digest, proof, leaf and salt, deterministic or salted |
| RecoveryEntry.KeyTells | src/recovery.ts:1099-1131 | two envelopes listed under one key, for whatever digests, are of one digest, proof, leaf and salt, unless their names collide |
| RecoveryEntry.CollectPages | src/recovery.ts:946-980 | a listing followed to its end, at most so many pages, its cursor always advancing, or a failure |
| RecoveryEntry.CollectedWhen | src/recovery.ts:946-980 | a listing is collected if and only if some number of its pages, within the limit, are pages of the address whose 32-byte cursors rise up to one without; then it is all that opens in them, in order |
| RecoveryEntry.DedupedFirst | src/recovery.ts:920-931 | the entry that stands for a member is the first listed of it |
| RecoveryEntry.DedupedIs | src/recovery.ts:920-931 | every member listed is listed once, by an entry that was there |
| RecoveryEntry.FindOwn | src/recovery.ts:835-848 | an own entry found was listed, opens for the digest and is this member's; none found means none collected is |
| RecoveryWriter.TruthGrows | src/recovery-write.ts:24-32 | nothing others write makes a saved state untrue |
| RecoveryWriter.CreatedIsFindable | src/recovery-write.ts:232-234 | an entry answered "created" is found by a reader under a name its own plaintext derives |
| RecoveryWriter.HeldIsFindable | src/recovery-write.ts:235-239 | so is one that exists and passes the test |
| RecoveryWriter.NotHeldIsTaken | src/recovery-write.ts:240-244 | one that exists and does not pass is another entry holding that name |
| RecoveryWriter.Writer.Post | src/recovery-write.ts:175-220 | answers say what the create-only store holds, however many replies are lost; every salt sent is in a state handed out before, or the one begun from |
| RecoveryWriter.Writer.NextBatch | src/recovery-write.ts:156-169 | every pending side from the cursor on is in the batch, each once, at most 500 and as many as fit, and the cursor moves |
| RecoveryWriter.Writer.SettleOne | src/recovery-write.ts:229-246 | one answer applied: kept only when findable, blocked only when the names are held; `written` counts exactly the answers "created" |
| RecoveryWriter.Writer.LookOne | src/recovery-write.ts:256-274 | an own entry found where it is listed counts as there and its salt is taken over; a side is called not there only when the pages of its address, read since, showed no entry of this member |
| RecoveryWriter.Writer.LookFirst | src/recovery-write.ts:254-276 | before a salted write the address is read: kept rises by what is found there, and what goes on to a salt is pending, has its plain name taken and was looked for |
| RecoveryWriter.Writer.Resalt | src/recovery-write.ts:277-284 | a salt for each, handed out to be kept before its write, and the sides sealed again under it |
| RecoveryWriter.Writer.Apply | src/recovery-write.ts:227-287 | applying answers keeps every claim true, changes no settled side, and recurses at most once; kept rises by written + alreadyThere; with every entry answered and nothing amiss in what is awaited the whole batch is settled |
| RecoveryWriter.Writer.SendRound | src/recovery-write.ts:302-314 | one round from any state: in time and with the site willing, something went amiss at one of the awaits it took up, or nothing is pending behind it |
| RecoveryWriter.Writer.Tally | src/recovery-write.ts:316-333 | entries = kept + blocked + pending, each the number of sides in that state, and `salted` the number of kept sides that have a salt |
| RecoveryWriter.Writer.WriteRecoveryEntries | src/recovery-write.ts:132-334 | a run terminates; cut off at any await or not, its own state and every state it handed out are true: kept is findable, blocked is taken, by default under both names; a settled side stays as it is; its report adds up and `written` is the number of answers "created"; its last state is handed out; and in time and at a site that takes writes, when something goes amiss at no more awaits than it has retries, a run that comes to its report leaves nothing pending, whatever others write |
| RecoveryWriter.ManyRuns | src/recovery-write.ts:132-149 | over any number of runs, each begun from the fresh state or from any state any run before handed out or reported, with others writing in between, every one of those states is true of the store, then and later |

## Left out

- KZG commitments, brotli and zlib, Keccak-256, SHA-256, AES-GCM, signatures: hashes are function parameters, collision-freedom is stated on the finite set of inputs hashed, and an envelope opens only under its digest's key and its object key.
- Transactions of span batches: `decodeSpanBatch` is a parameter of the batch reader; its timestamps and block numbers alone are modelled (`Schedule.SpanBlocksAreStamped`).
- Which channel id is taken when a settlement names none (settlement-blobs.ts:609-622), and the expectations checked after decoding.
- Timestamps that are not whole seconds, and the precision of JavaScript numbers above 2^53: numbers are integers.
- `MerkleTree`, `buildTree` and `sortTreeLeaves` of packages/verify are not part of this model: trees are the recursive form of check.py and tree-worker.ts, and `known` subtree heads are joined along the same split.
- The one-thread fallback of `buildTreeParallel` below 50,000 leaves, and its choice of C: the build is proved for every C.
- Text: UTF-8 decoding that replaces invalid bytes, white space outside ASCII, base64 and hex spellings, JSON parsing and canonical JSON; documents are records, and text that spells bytes is the bytes.
- BatchCodec.ChannelIsWritten: a block's epoch number and epoch hash are read and checked by the source but not kept, so they are only said to be there.
- TarForeign.ForeignReads: a file's size is below 2^53, and a record's key does not begin with the first byte of a byte-order mark.
- TarPax.ParsePaxRecords: a record's count is a decimal numeral; other numerals JavaScript's Number reads (exponents, prefixes, white space) are refused here.
- TarArchive.ReadsArchive: contents and PAX records are below 8^11 bytes, as `TarNumbers.SizeFieldExact` shows they must be.
- TarScan.TarEntries: numeral prefixes, underscores and undecodable names are not modelled.
- KmsCounter.SequentialRuns: a counter without a blob store is not modelled.
- Scanner.HashEntryStream: the opening pattern of an export is a parameter, a function of the opening bytes.
- RecoveryEntry.FindOwn: all pages of a listing are read at one moment; as the store only grows, and a listing may show any part of it, pages read later show nothing else.
- RecoveryWriter.Writer.WriteRecoveryEntries: sides blocked by a run without salted names are held to the weaker claim only as long as runs stay without them; names are taken as already clamped, wall-clock time as a verdict at each await.
- The batch lookup `recoverFromDigests`, `mapPool` and the limit of 200 members per digest.
- Not every simple cycle is reported by `findCycles` (it says so of none); what is reported is stated in `Cycles.FindCycles`.
- `fuse.ts`, `export.ts`, attestation, ceilings and floors, witness, policies, reports, HTTP, file systems and command lines.
