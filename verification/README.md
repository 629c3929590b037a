# Linux 2.6.8 file-system and crypto core: a verified model

Dafny models of the parts of `fs/` and `crypto/` whose correctness rests on
state kept over many steps. Each model takes the form of its source: structures
updated in place are classes, loops are loops, table-driven or bit-sliced code
keeps its tables and registers, and code that runs concurrently is a state
machine with one atomic step for each section under a lock, so that statements
about runs hold for every interleaving.

- **Direct I/O** (`direct_io*.dfy`, `dio_completion.dfy`). The walk over user
  pages, file blocks and disk blocks, with deferred sections, contiguous BIOs
  and zeroing of new blocks. Whatever is merged or deferred, the BIOs cut back
  into single blocks are exactly what the block map prescribes. The counting of
  BIOs is a protocol of submitter and completions, with and without waiting.
- **Dentry cache** (`dcache*.dfy`). A tree with counts, hash chains, a lazily
  kept list of unused dentries and walks with goto. One invariant, kept by all
  operations: the parent links form a tree, every count is outside references
  plus children, the statistics are exact, every unused dentry is listed, every
  hashed one is on the chain of its bucket, and its bucket is that of its parent
  and name unless it is an anonymous root.
- **Asynchronous I/O** (`aio_*.dfy`). The event ring as a FIFO shared by
  submission, completion and reading, and the counts that keep contexts alive.
- **Buffers** (`buffer_*.dfy`). Page completion by the last buffer out, for
  reading and writing, and the LRU in front of the slow lookup.
- **Block devices** (`block_dev.dfy`). Claims and opens of disks and partitions.
- **AES** (`aes*.dfy`). From the field through generated tables to the cipher
  of FIPS 197 and its equivalent inverse.
- **Cipher modes** (`scatterwalk.dfy`, `cipher_engine.dfy`). Chunked processing
  of scatterlists, in place or not, against flat ECB and CBC.
- **Digests** (`hash_stream.dfy`, `md5*.dfy`, `sha1.dfy`, `sha512*.dfy`,
  `michael.dfy`, `hmac.dfy`, `digest_constants.dfy`). Buffered updates against hashing the whole padded
  message, MD5, SHA-1 and SHA-512 down to the rounds, and HMAC.
- **Serpent and XTEA** (`serpent.dfy`, `xtea.dfy`). Both directions of each.

Where the code does not have a property one expects of it, the model keeps the
code, shows an instance, and states the exact condition:

- A direct I/O request for which `get_blocks` is never called still consults the
  buffer head it never initialised. It may then send zeros to disk block -1, if
  and only if the stale bits say "new" and the request begins inside a
  file-system block (`StaleZerosCondition`, `StaleZerosExample`).
- The byte count of a direct I/O request is replaced by the error when a BIO is
  found to have failed while others are still being built. It is that of the
  blocks passed if and only if no section was lost to such a failure, which
  dio_zero_block does not report (`DirectIoWorker`, `LostCountExample`). On the
  asynchronous path, failures reach the byte count through the completions
  instead (`ExactlyOnce`).
- An asynchronous direct write one of whose BIOs fails, and whose submitter does
  not wait, is neither completed nor freed (`ExactlyOnce`,
  `FailedWriteExample`).
- `d_move` puts the dentry on the chain of the target's `d_bucket`, or leaves it
  where it is if its own is the same. The buckets are right again, and lookups with
  them, if and only if the target's was that of its own parent and name. That of an
  unhashed target may be outdated, as it is after a move, or NULL, as is that of an
  anonymous dentry (`MoveBuckets`, `TargetStale`, `StaleBucketExample`,
  `NullBucketExample`).
- `d_move`, and `d_splice_alias` with it, does not look whether one dentry is
  above the other. If and only if neither is, what it leaves is a tree
  (`MoveIsTree`, `CycleExample`).
- `__d_path` below a global root demands one byte more than the path needs
  (`PathOf`, `SlackExample`).
- The bit counts of SHA-1 and SHA-512 are exact only up to 2^29 bytes per update,
  with an exception for SHA-512 (`CountIs` and `LongUpdateExample` of each).
- SHA-1 and SHA-512 updates compute with 32-bit indices, which go wrong if and
  only if the bytes in the buffer and those of the call together reach 2^32
  (`FillTestIs`, `LoopTestIs` and the `WrapExample` of each).
- `crypto_hmac_final` with a key that is still longer than a block hashes it
  through the context that holds the inner digest, and the code then depends on
  the key alone. It is that of RFC 2104 for every message if and only if the key
  is short by then, as it is after `crypto_hmac_init`, or the outer digest does
  not depend on the message (`FinalIsOuter`, `LongKeyExample`).

Assumptions about code outside the model: `get_blocks` is a fixed map with at
least one block per mapping and one "new" flag for it; memory for BIOs can be
had; `bio_add_page` accepts a section into an empty BIO; `sizeof(struct io_event)`
divides the page size; drivers, BIOs, page faults and memory for dentries may fail at
any time and are parameters or unconstrained choices; d_delete of a file system is
any function of the dentry.

## Model

| member | source | states |
|---|---|---|
| `DirectIO.Dio.constructor` | kernel/linux/fs/direct-io.c:913-958 | a new request has every field set except the buffer head, whose bits stay whatever the memory held |
| `DirectIO.Dio.BioSubmit` | kernel/linux/fs/direct-io.c:326-342 | submitting moves the BIO, whole, to the end of what is on its way; the pieces sent do not change |
| `DirectIO.Dio.NewBio` | kernel/linux/fs/direct-io.c:533-548 | an empty BIO at the given block; or, exactly if this is the 65th since the last reaping and a BIO that is reaped now has failed, that error, which takes the place of the byte count |
| `DirectIO.Dio.BioAddPage` | kernel/linux/fs/direct-io.c:557-573 | the deferred section goes into the BIO entirely, keeping it contiguous, or not at all, and then the BIO is not empty |
| `DirectIO.Dio.SendCurPage` | kernel/linux/fs/direct-io.c:585-619 | on success the pieces of the deferred section are appended to those sent, whichever BIO they go to; on failure none is |
| `DirectIO.Dio.SubmitPageSection` | kernel/linux/fs/direct-io.c:638-683 | whether the section grows the deferred one, displaces it or is sent at once, the stream of single-block pieces gains exactly its own; a failure loses exactly the deferred section |
| `DirectIO.Dio.ZeroBlock` | kernel/linux/fs/direct-io.c:712-744 | zero-page pieces for exactly the part of a new file-system block before the request begins or after it ends, and none otherwise |
| `DirectIO.Dio.GetPage` | kernel/linux/fs/direct-io.c:142-203 | the page behind the next user address, in order; a fault is reported at once, or hidden behind the zero page and remembered, once, while mapped blocks of a write are pending |
| `DirectIO.Dio.MapMore` | kernel/linux/fs/direct-io.c:487-528 | a run of blocks that lie contiguously on disk as the block map says, ending at a file-system block boundary, and the disk block to go on with; errors and holes as in the map |
| `DirectIO.Dio.PrepareBlock` | kernel/linux/fs/direct-io.c:787-861 | before a mapped block is moved the pieces sent are the head zeros and all earlier blocks, and the next disk block is that of the block map |
| `DirectIO.Dio.MoveChunk` | kernel/linux/fs/direct-io.c:863-888 | at least one block is moved, never beyond the mapping, the page or the request, each to its own disk block |
| `DirectIO.Dio.ClearHole` | kernel/linux/fs/direct-io.c:830-853 | a hole below the end of file clears one user block and sends nothing |
| `DirectIO.Dio.WalkPage` | kernel/linux/fs/direct-io.c:780-894 | one page: the pieces and cleared blocks are those of the file blocks passed, in order; where the walk stops it returns the remembered fault, or else the error of the block map, ENOTBLK for a hole under a write, 0 at the end of file |
| `DirectIO.Dio.DoDirectIO` | kernel/linux/fs/direct-io.c:762-902 | one segment, for every block map and every faulting page: what is sent and cleared is exactly what the map pairs with the blocks passed; without faults the walk stops only at a block that cannot be passed; it returns 0 if all are passed, EFAULT if a page met, or one before, could not be pinned, and else what the block map says |
| `DirectIO.Dio.Finish` | kernel/linux/fs/direct-io.c:1000-1014 | tail zeros, then the deferred section, then the last BIO: nothing else, and in this order |
| `DirectIO.Dio.WalkSegments` | kernel/linux/fs/direct-io.c:960-991 | over all segments the byte count is that of the blocks passed or, when a section was lost, the error plus the bytes of the segment under way; the walk goes on exactly until a segment fails; its return value is EIO after a loss and otherwise a function of the pages met and of the block it stops at |
| `DirectIO.Dio.DirectIoWorker` | kernel/linux/fs/direct-io.c:907-1014 | the BIOs, cut back into blocks, are the head zeros, one piece per mapped block in file order and the tail zeros; holes are cleared; the byte count is that of the blocks passed if and only if no section was lost to a failed BIO, and otherwise its exact value; after a loss the BIOs are a beginning of what was asked for followed by a beginning of the tail zeros, each piece at most once and in order; nothing is lost if no BIO fails. The return value is 0 if all blocks are passed, a write finds a hole or a read the end of file, EFAULT if a page met could not be pinned, otherwise the error of the block map; EIO if a failed BIO is met in the walk, or behind it and the value would be 0, unless there is an end to zero, where the error may go unreported |
| `DirectIO.Dio.WalkIsRequest` | kernel/linux/fs/direct-io.c:1000-1014 | the end of the walk turned into BIOs is the request; if no mapping was ever asked for, it is whatever the uninitialised buffer head makes the tail zeroing send |
| `DirectIORequest.ChooseBlkbits` | kernel/linux/fs/direct-io.c:1127-1150 | the coarser of the two block sizes to which the offset, every address and every length are aligned, or none |
| `DirectIORequest.BlockdevDirectIO` | kernel/linux/fs/direct-io.c:1110-1193 | refused exactly when neither block size fits; otherwise performed with the coarser one that does, with the outcome of a request as above, for every block map, page fault and failed BIO. In bytes: each block of the buffer goes with the bytes of the device that hold its own bytes of the file, fs(pos / 2^b).disk * 2^b + pos mod 2^b for byte pos; a hole is passed, and cleared, only in a read and if its block number is below isize shifted right by the block bits |
| `DirectIORequest.BlocksAreBytes` | kernel/linux/fs/direct-io.c:907-1014 | a request performed in blocks, whatever they are, is the request in bytes: same pages and places in them, same bytes of the device, same holes |
| `DirectIOBytes.RequestInBytes` | kernel/linux/fs/direct-io.c:762-902 | the pieces a request asks for are, byte for byte, those of the file from its offset on, with the zeros for new file-system blocks at both ends |
| `DirectIORequest.PiecePerMappedBlock` | kernel/linux/fs/direct-io.c:762-902 | each mapped block of a segment gives exactly one piece, at its place in the order, pairing its own user block with disk block map(k / n) * n + k mod n |
| `DirectIORequest.RequestCoversRange` | kernel/linux/fs/direct-io.c:712-902 | the disk blocks under I/O are those of the file range, rounded out to whole file-system blocks where these are new, each once and in order |
| `DirectIORequest.StaleZerosCondition` | kernel/linux/fs/direct-io.c:1000-1014 | with no mapping ever made, the BIOs submitted are those the request asks for if and only if the stale bits do not say new or the request begins at a file-system block |
| `DirectIORequest.StaleZerosExample` | kernel/linux/fs/direct-io.c:1110-1193 | a write whose first page faults submits a zero piece for disk block -1 |
| `DirectIO.LostCountExample` | kernel/linux/fs/direct-io.c:1000-1014 | sixty-five scattered sections and a tail to zero: a failed BIO met within dio_zero_block leaves no error but takes the place of a byte count that was right |
| `DioSync.StepKeepsInv` | kernel/linux/fs/direct-io.c:282-298 | every step of submission, end of I/O, reaping and draining keeps bio_count equal to the BIOs in flight, queued or being processed plus the submitter's own |
| `DioSync.RunKeepsInv` | kernel/linux/fs/direct-io.c:282-462 | the same over whole interleavings |
| `DioSync.RunKeepsBios` | kernel/linux/fs/direct-io.c:326-462 | in every run the BIOs in flight, queued, in hand or processed are those submitted: none is lost |
| `DioSync.DrainIsComplete` | kernel/linux/fs/direct-io.c:411-432 | the drain loop can stop exactly when every BIO submitted has been processed |
| `DioSync.NoDeadlock` | kernel/linux/fs/direct-io.c:356-378 | in every reachable state some step other than a new submission is possible, and a sleeper that is not woken has a BIO in flight to wake it |
| `DioSync.StepsMakeProgress` | kernel/linux/fs/direct-io.c:356-462 | every step but sleeping and waking brings the remaining work down, and nobody goes to sleep with nothing in flight |
| `DioAsync.StepKeepsInv` | kernel/linux/fs/direct-io.c:223-257 | count, holders, completions and frees stay consistent under every step of submitter and BIOs |
| `DioAsync.NoUseAfterFree` | kernel/linux/fs/direct-io.c:223-257 | in every interleaving, once the request is freed nobody can take a step on it |
| `DioAsync.NobodyStuck` | kernel/linux/fs/direct-io.c:1034-1064 | no step is possible if and only if everybody is done |
| `DioAsync.ExactlyOnce` | kernel/linux/fs/direct-io.c:223-257 | completed and freed at most once, after everybody is done; freed once if and only if it is a read, a write whose submitter waits, or a write no BIO of which failed; completed once if and only if it is a read or a full-length write without failure |
| `DioAsync.FailedWriteExample` | kernel/linux/fs/direct-io.c:223-257 | a full-length asynchronous write whose one BIO fails is never completed and never freed |
| `Dcache.Cache.constructor` | kernel/linux/fs/dcache.c:1583-1597 | an empty cache satisfies all invariants of the cache |
| `Dcache.Cache.Alloc` | kernel/linux/fs/dcache.c:681-736 | a new leaf holds one reference to its parent and one of the caller's; all invariants stay |
| `Dcache.Cache.AllocRoot` | kernel/linux/fs/dcache.c:773-788 | a new root, its own parent, if there is an inode and memory |
| `Dcache.Cache.AllocAnon` | kernel/linux/fs/dcache.c:818-872 | a hashed alias of the inode if there is one, a disconnected one only if there is no other; for a directory the unhashed one it may have; otherwise, memory permitting, a new anonymous root, hashed on the list of its superblock and not by name |
| `Dcache.Cache.ChooseAlias` | kernel/linux/fs/dcache.c:289-316 | the loop over the aliases finds a hashed one if and only if there is one, and prefers one that is not disconnected |
| `Dcache.Cache.Rehash` | kernel/linux/fs/dcache.c:1119-1130 | afterwards the dentry is hashed in the bucket of its parent and name, and on exactly that chain |
| `Dcache.Cache.SetInode` | kernel/linux/fs/dcache.c:753-762 | only the inode changes |
| `Dcache.Cache.Lookup` | kernel/linux/fs/dcache.c:962-1029 | a dentry is found if and only if some hashed child of the parent answers to the name, anonymous roots not being their own children; it gains one reference and nothing else changes |
| `Dcache.Cache.Search` | kernel/linux/fs/dcache.c:962-1029 | found if and only if somebody on the chain of parent and hash answers to the name, whatever else is wrong with the buckets |
| `Dcache.Cache.DgetLocked` | kernel/linux/fs/dcache.c:261-274 | a dentry that is taken back into use leaves the unused list |
| `Dcache.Cache.Drop` | kernel/linux/include/linux/dcache.h:179-185 | unhashing removes the dentry from its chain alone, whichever that is, and keeps the order of the others |
| `Dcache.Cache.Kill` | kernel/linux/fs/dcache.c:179-199 | a dentry being killed has no children; its reference to the parent passes to the caller and the counters stay exact |
| `Dcache.Cache.ListUnused` | kernel/linux/fs/dcache.c:164-174 | a dentry nobody uses is on the unused list once |
| `Dcache.Cache.Dput` | kernel/linux/fs/dcache.c:141-200 | one reference is given up, and with every dentry killed on the way up that to its parent; killed are exactly those whose last reference this was and that are unhashed or that d_delete asks to drop; where the cascade stops the dentry stays, listed if nobody uses it; all invariants hold again |
| `Dcache.Cache.PruneOne` | kernel/linux/fs/dcache.c:347-360 | the pruned dentry is gone, and the reference it held to its parent is given up as dput does; killed with it are only ancestors that are unhashed or that d_delete asks to drop |
| `Dcache.Cache.PruneDcache` | kernel/linux/fs/dcache.c:375-411 | as many dentries are taken off the end of the list as asked, or all; freed are only these, and dentries that were in use by their children alone and must go with the last of them; all others keep their fields, those that lose no child entirely. When the last count dentries are unused, each of exactly these is freed or loses its reference mark |
| `Dcache.Cache.Select` | kernel/linux/fs/dcache.c:552-566 | a visited dentry leaves its place in the list, and goes to the end if nobody uses it |
| `Dcache.Cache.SelectParent` | kernel/linux/fs/dcache.c:539-593 | the walk with goto visits every strict descendant exactly once and nothing else; the unused ones end up, in that order, at the end of the list, and are as many as returned |
| `Dcache.Cache.ShrinkParent` | kernel/linux/fs/dcache.c:602-608 | the loop ends and leaves no dentry with count zero below the parent; everything freed was strictly below the parent and held by nobody outside; all others are still there with the same fields, count and children apart, and unchanged if they lost no child and are not unused below the parent |
| `Dcache.Cache.ShrinkSb` | kernel/linux/fs/dcache.c:435-478 | the two passes with restarts end and leave no dentry of the superblock with count zero; freed are only dentries of that superblock, and dentries used by their children alone that must go with the last of them; nothing held by anybody is freed, and all others are still there with the same fields |
| `Dcache.Cache.SelectChain` | kernel/linux/fs/dcache.c:626-644 | one pass over a hash chain moves its unused dentries, in order, to the end of the list, and counts them |
| `Dcache.Cache.ShrinkAnon` | kernel/linux/fs/dcache.c:620-647 | the loop ends and leaves no anonymous dentry of the superblock with count zero; freed are only dentries that were on its anonymous list, and what must go with the last of its children; all others are still there with the same fields |
| `Dcache.Cache.PruneAliases` | kernel/linux/fs/dcache.c:322-339 | the scan with restarts ends and leaves no alias of the inode with count zero; freed are only aliases of the inode, and what must go with the last of its children; all others are still there with the same fields |
| `Dcache.Cache.PruneAlias` | kernel/linux/fs/dcache.c:329-335 | an unused alias is gone after the dget, drop and dput; freed besides are only ancestors that must go with their last child |
| `Dcache.FreedBeneath` | kernel/linux/fs/dcache.c:602-608 | whatever a shrinking of the tree below p frees is below p: a dentry freed in use is an ancestor of one freed unused, and p itself stays |
| `Dcache.FreedTransitive` | kernel/linux/fs/dcache.c:435-478 | rounds of freeing add up: what holds of each for its dentries holds of all of them together |
| `Dcache.Cache.HaveSubmounts` | kernel/linux/fs/dcache.c:494-530 | true if and only if the parent or some descendant is a mount point |
| `Dcache.Cache.Rename` | kernel/linux/fs/dcache.c:1204-1262 | each dentry afterwards is the one it was with the identities exchanged; tree, counts, lists and chains stay consistent; every hashed dentry is in its bucket again if and only if the target's d_bucket was that of its own parent and name |
| `Dcache.Cache.SpliceAlias` | kernel/linux/fs/dcache.c:891-916 | the alias of a directory, or else the dentry itself with the inode, ends up hashed under the name and parent looked up, with all invariants intact; what is returned says which |
| `Dcache.ShrinkMakesProgress` | kernel/linux/fs/dcache.c:602-608 | a round of pruning frees a dentry, or removes a reference mark without setting any: the measure that makes the loop end |
| `DcacheTree.WalkBegins` | kernel/linux/fs/dcache.c:541-549 | what is to be visited at the start is every strict descendant, each once |
| `DcacheTree.WalkVisits` | kernel/linux/fs/dcache.c:549-578 | the next child is the next to be visited, and the walk goes into it if it has children |
| `DcacheTree.WalkAscends` | kernel/linux/fs/dcache.c:579-590 | at the end of a list the walk goes on behind its owner in the list above, nothing being skipped or repeated |
| `DcacheTree.PreMembers` | kernel/linux/fs/dcache.c:539-593 | preorder contains the strict descendants and nothing else |
| `DcacheTree.PreNoDup` | kernel/linux/fs/dcache.c:539-593 | preorder contains nothing twice |
| `DcacheGrow.NamedOnChain` | kernel/linux/fs/dcache.c:962-1029 | whoever answers to a name is on the one chain that is searched for it |
| `DcacheMove.RelinkIs` | kernel/linux/fs/dcache.c:1236-1257 | the sequence of list and pointer updates, in the root and the non-root case, amounts to an exchange of parents and names |
| `DcacheMove.MoveKeepsTree` | kernel/linux/fs/dcache.c:1204-1262 | the move leaves a tree: no cycles, and child lists that match the parent links |
| `DcacheMove.MoveKeepsCounts` | kernel/linux/fs/dcache.c:1204-1262 | the references children hold to their parents are conserved without any count being changed |
| `DcacheMove.MoveKeepsTable` | kernel/linux/fs/dcache.c:1222-1234 | the hash chains again hold exactly the hashed dentries |
| `DcacheMove.MoveBuckets` | kernel/linux/fs/dcache.c:1222-1234 | every hashed dentry that is no anonymous root sits in the bucket of its parent and name after the move if and only if the target's d_bucket was that of its own parent and name before, neither outdated nor NULL |
| `DcacheMove.TargetStale` | kernel/linux/fs/dcache.c:1222-1234 | the dentry moved over keeps the bucket of the name it lost: its d_bucket is up to date only if the two buckets coincide |
| `DcacheMove.StaleBucketExample` | kernel/linux/fs/dcache.c:1222-1234 | a move over a dentry with an outdated d_bucket, after which a hashed dentry sits in the wrong bucket |
| `Dcache.NullBucketExample` | kernel/linux/fs/dcache.c:1222-1234 | an anonymous dentry moved over one that was never hashed stays on the list of anonymous ones and is not found under its new name |
| `DcacheMove.MoveIsTree` | kernel/linux/fs/dcache.c:1204-1262 | the links after the move form a tree if and only if neither dentry was above the other, which the code does not look at |
| `DcacheMove.CycleExample` | kernel/linux/fs/dcache.c:1204-1262 | a directory moved over its own child becomes its own parent |
| `DcacheNames.SwitchNamesMoves` | kernel/linux/fs/dcache.c:1147-1181 | whether names are stored inside or outside, the dentry gets the target's name and sound storage, and no external block is lost or shared; the target's storage is sound, with the dentry's name, if the dentry had an external block, and otherwise its inline name is what it was |
| `DcachePath.PathOf` | kernel/linux/fs/dcache.c:1280-1346 | the buffer ends in the slash-joined names from root to dentry across mount points, with deleted mark and global root where due, if and only if it fits, with one byte to spare below a global root; the walk ends |
| `DcachePath.GlobalRoot` | kernel/linux/fs/dcache.c:1336-1343 | the name of the global root takes the place of the first slash, exactly if it fits before what is written |
| `DcachePath.SlackExample` | kernel/linux/fs/dcache.c:1336-1343 | in a cache with a dentry "a" below a global root "/", seen from another root, the three bytes that the path and its terminator need are refused |
| `AioSlots.RingHoldsRequests` | kernel/linux/fs/aio.c:99-170 | the pages chosen hold at least max_reqs + 2 events |
| `AioSlots.SlotInBounds` | kernel/linux/fs/aio.c:176-187 | every index below nr lies within one page of the ring, clear of the header |
| `AioSlots.SlotsApart` | kernel/linux/fs/aio.c:176-187 | different indices never overlap |
| `AioRing.AvailIs` | kernel/linux/fs/aio.c:402-414 | the free slots are nr - 1 less the unread events, in every state of head and tail |
| `AioRing.StepKeepsInv` | kernel/linux/fs/aio.c:634-760 | every step of submission, completion and reading, the unlocked test of readers apart from their lock, keeps: active requests plus unread events below nr, unread events in their slots, no request twice |
| `AioRing.RunKeepsInv` | kernel/linux/fs/aio.c:634-760 | in every interleaving the log of published events only grows, and what was read is a prefix of it; what the log holds is said by LogIsCompleted |
| `AioRing.WriteMissesUnread` | kernel/linux/fs/aio.c:680-699 | the slot a completion writes is that of no unread event |
| `AioRing.ReadIsFirst` | kernel/linux/fs/aio.c:726-760 | a reader under the lock gives up only if nothing is unread, and otherwise copies the oldest event |
| `AioRing.LateReader` | kernel/linux/fs/aio.c:738-752 | of two readers that saw the same last event the later finds the ring empty under the lock, which is what its second test is for |
| `AioRing.RefusedWhenFull` | kernel/linux/fs/aio.c:402-414 | a request is refused exactly when active requests and unread events leave no slot |
| `AioRing.DrainedIsAll` | kernel/linux/fs/aio.c:634-760 | with the ring empty, everything published has been read, once and in order |
| `AioRing.LogIsCompleted` | kernel/linux/fs/aio.c:634-725 | in every interleaving the events published, with the one under way, are those completed: each with its own data, once, in the order of completion |
| `AioRing.ReadIsCompleted` | kernel/linux/fs/aio.c:634-760 | from the start, with the ring empty and nobody completing, what the readers got is what was completed, once and in order |
| `AioRing.RequestsAccounted` | kernel/linux/fs/aio.c:382-420 | every request accepted is pending, completed or abandoned: none is lost or invented |
| `AioRing.ActiveAccounted` | kernel/linux/fs/aio.c:382-508 | a request counts as active from acceptance to release |
| `AioContext.StepKeepsInv` | kernel/linux/fs/aio.c:198-524 | every step keeps each context's users equal to its references and reqs_active to its live and parked requests |
| `AioContext.CountsInEveryRun` | kernel/linux/fs/aio.c:198-262 | from the start, in every run: these counts, aio_nr as the sum of max_reqs over the contexts that exist, and the limit for those admitted |
| `AioContext.FreedIsUnused` | kernel/linux/fs/aio.c:355-369 | a context is freed with no active request, nobody asleep and the last reference |
| `AioContext.GetsAreSafe` | kernel/linux/fs/aio.c:198-262 | no reference is ever taken from a count that is not positive |
| `AioContext.ListRefDroppedOnce` | kernel/linux/fs/aio.c:904-928 | however many destroyers race, the reference of the list is dropped at most once in a context's life |
| `AioContext.NoSleeperForgotten` | kernel/linux/fs/aio.c:290-306 | while a destroyer sleeps some request can still be put, and the last one wakes it |
| `BufferRead.StepKeepsInv` | kernel/linux/fs/buffer.c:605-656 | every step of scanning, marking, starting and finishing keeps the state of buffers and page consistent |
| `BufferRead.UnlockedOnce` | kernel/linux/fs/buffer.c:2139-2223 | for every order of completions the page is unlocked at most once, and only after every marked buffer was started and has ended; up to date only without an error |
| `BufferRead.NeverForgotten` | kernel/linux/fs/buffer.c:605-656 | when nothing is outstanding the page has been unlocked or is about to be |
| `BufferRead.UptodateMeans` | kernel/linux/fs/buffer.c:629-650 | only the completion that finds no buffer under I/O decides, and by all buffers and the error flag; with nothing to read the page is up to date exactly if no error is flagged; the error is flagged exactly by a failed read or a failing get_block |
| `BufferRead.UptodatePageIsFull` | kernel/linux/fs/buffer.c:605-656 | a page marked up to date has all its buffers up to date, unless somebody else spoilt one |
| `BufferRead.ReadsWhatIsMissing` | kernel/linux/fs/buffer.c:2139-2223 | over every run that others do not disturb, the buffers read, in order, are exactly those not up to date that are mapped, or inside the file, mapped by get_block and not filled by it; the error is flagged exactly if it was, or get_block or a read failed; once unlocked the page is up to date exactly if it is not, and then all buffers are |
| `BufferWrite.StepKeepsInv` | kernel/linux/fs/buffer.c:662-705 | every step of mapping, locking, submission, recovery and completion, the spinlock section apart from the end of writeback, keeps the state consistent |
| `BufferWrite.EndedOnce` | kernel/linux/fs/buffer.c:1814-1983 | writeback ends at most once, on the recovery path too, only after every marked buffer was submitted and has ended; which are marked is said by WritesWhatIsDirty |
| `BufferWrite.NeverForgotten` | kernel/linux/fs/buffer.c:1814-1983 | with the submitter done and no I/O outstanding writeback has ended or is about to be ended by the completion that found nothing left |
| `BufferWrite.ErrorStays` | kernel/linux/fs/buffer.c:662-705 | the page's error is flagged exactly by a failed write and by the failure that led to recovery, and stays; the page becomes up to date exactly if nothing was to be written and all its buffers are |
| `BufferWrite.UptodateAs` | kernel/linux/fs/buffer.c:662-705 | a buffer is up to date exactly as its last write says, or because it was found beyond the end of file |
| `BufferWrite.WritesWhatIsDirty` | kernel/linux/fs/buffer.c:1814-1983 | over every run that others do not disturb, the buffers marked are exactly those dirty at the start, not beyond the end of file, mapped then or by the mapping loop, and not locked by others; after a failing get_block those dirty and mapped when recovery passes them; the writing of each is started exactly once and of no other, and dirty stay only those that others have locked |
| `BufferLru.InstalledOk` | kernel/linux/fs/buffer.c:1443-1480 | after an installation entries are distinct with empty slots last; the new one is in, and at most one other has gone |
| `BufferLru.BlockIsUnique` | kernel/linux/fs/buffer.c:499-538 | no two buffers stand for the same block of a device |
| `BufferLru.Rearrange` | kernel/linux/fs/buffer.c:1452-1474 | the loop over the local copy yields the new order, and says rightly whether the buffer was there and which one is evicted |
| `BufferLru.BufferCache.constructor` | kernel/linux/fs/buffer.c:1419-1425 | empty LRUs satisfy all invariants |
| `BufferLru.BufferCache.Install` | kernel/linux/fs/buffer.c:1443-1480 | one reference is taken and at most one given back, so that every buffer's count is its holders' plus its LRU entries |
| `BufferLru.BufferCache.LookupLru` | kernel/linux/fs/buffer.c:1486-1514 | found if and only if an entry of this CPU is the block asked for at that size; it is moved to the front and gains one reference for the caller |
| `BufferLru.BufferCache.ToFront` | kernel/linux/fs/buffer.c:1500-1506 | the shifting loop moves one entry to the front and keeps the order of the others |
| `BufferLru.BufferCache.Hit` | kernel/linux/fs/buffer.c:1498-1509 | an entry that is found goes to the front with one more reference, all invariants staying |
| `BufferLru.BufferCache.FindSlow` | kernel/linux/fs/buffer.c:499-538 | finds the buffer of the block if and only if there is one |
| `BufferLru.BufferCache.FindGetBlock` | kernel/linux/fs/buffer.c:1522-1534 | whatever is in the LRUs, the same answer as the slow lookup, and afterwards the buffer is the first entry of this CPU |
| `BufferLru.BufferCache.Invalidate` | kernel/linux/fs/buffer.c:1595-1605 | all entries of the CPU are dropped, each with its reference |
| `BufferLru.BufferCache.DropBuffers` | kernel/linux/fs/buffer.c:2897-2965 | a page's buffers go if and only if none is busy, and then no LRU of any CPU holds one of them |
| `BufferLru.BufferCache.Grow` | kernel/linux/fs/buffer.c:1204-1249 | a new page of buffers gets the blocks of its index, which no buffer had |
| `AesField.MulPlus` | kernel/linux/crypto/aes.c:116-124 | multiplication in GF(2^8) distributes over addition |
| `AesField.MulAssoc` | kernel/linux/crypto/aes.c:116-124 | and is associative, for all bytes, which through the powers of 3 it takes no table to show |
| `AesField.OrderOfThree` | kernel/linux/crypto/aes.c:162-171 | no power of 3 below the 255th is 1 |
| `AesField.EveryByteIsPower` | kernel/linux/crypto/aes.c:162-171 | hence every byte but 0 is a power of 3, and logarithms exist |
| `AesField.InverseUnique` | kernel/linux/crypto/aes.c:181-187 | inverses are unique |
| `AesSpec.SBoxInverts` | kernel/linux/crypto/aes.c:181-187 | the S-box of section 5.1.1 of FIPS 197 and that of section 5.3.2 undo each other |
| `AesSpec.InvMixMix` | kernel/linux/crypto/aes.c:229-237 | InvMixColumns undoes MixColumns |
| `AesSpec.Inverts` | kernel/linux/crypto/aes.c:341-431 | the equivalent inverse cipher of section 5.3.5 undoes the cipher of section 5.1, for the three key sizes, every key and every block |
| `AesTables.GenLogs` | kernel/linux/crypto/aes.c:162-173 | the loop fills the power and logarithm tables of 3 |
| `AesTables.FMultIsMul` | kernel/linux/crypto/aes.c:116-124 | adding logarithms with end-around carry is multiplication in the field |
| `AesTables.FfMultIsMul` | kernel/linux/crypto/aes.c:116-124 | so is the macro that guards against zero |
| `AesTables.GenBoxes` | kernel/linux/crypto/aes.c:181-187 | the tables built by rotations and xor are the S-box of FIPS 197 and its inverse |
| `AesTables.GenConstants` | kernel/linux/crypto/aes.c:175-179 | the round constants are powers of 2 |
| `AesTables.GenTabs` | kernel/linux/crypto/aes.c:156-225 | every row of all sixteen tables is the column of MixColumns, InvMixColumns or the S-box, at its rotation |
| `Aes.FRoundIs` | kernel/linux/crypto/aes.c:126-130 | four table lookups per word are SubBytes, ShiftRows, MixColumns and AddRoundKey |
| `Aes.FLastIs` | kernel/linux/crypto/aes.c:144-149 | the last round is the one without MixColumns |
| `Aes.IRoundIs` | kernel/linux/crypto/aes.c:132-137 | the inverse round likewise |
| `Aes.ILastIs` | kernel/linux/crypto/aes.c:150-154 | the last inverse round likewise |
| `Aes.StarXIs` | kernel/linux/crypto/aes.c:227-228 | star_x doubles four bytes at once in the field |
| `Aes.ImixColIs` | kernel/linux/crypto/aes.c:229-237 | imix_col is InvMixColumns on a word |
| `Aes.LsBoxIs` | kernel/linux/crypto/aes.c:138-143 | ls_box substitutes the four bytes of a word |
| `AesCipher.NextWordIs` | kernel/linux/crypto/aes.c:241-270 | a step of loop4, loop6 or loop8 is the next word of the key expansion |
| `AesCipher.AesCtx.constructor` | kernel/linux/crypto/aes.c:452-456 | the tables are generated before any key is set |
| `AesCipher.AesCtx.Loop` | kernel/linux/crypto/aes.c:241-270 | one pass extends the expansion by the words of one key |
| `AesCipher.AesCtx.ExpandKey` | kernel/linux/crypto/aes.c:290-312 | all words the rounds need are those of section 5.2, for each key size |
| `AesCipher.AesCtx.LoadKey` | kernel/linux/crypto/aes.c:285-308 | the key becomes the first words of the expansion |
| `AesCipher.AesCtx.InvertKey` | kernel/linux/crypto/aes.c:314-321 | the decryption keys are the expansion under InvMixColumns, the words that loop8 had stored beyond it being overwritten |
| `AesCipher.AesCtx.SetKey` | kernel/linux/crypto/aes.c:272-324 | accepted exactly for 16, 24 and 32 bytes, both schedules then being those of the key; otherwise nothing changes |
| `AesCipher.AesCtx.Encrypt` | kernel/linux/crypto/aes.c:341-379 | the output is the cipher of FIPS 197, for all three round counts |
| `AesCipher.AesCtx.Decrypt` | kernel/linux/crypto/aes.c:394-431 | the output is the equivalent inverse cipher |
| `AesCipher.RoundTrip` | kernel/linux/crypto/aes.c:272-431 | setting a key, encrypting and decrypting returns the block, for every key of the three sizes |
| `Scatterwalk.StartIs` | kernel/linux/crypto/scatterwalk.c:49-61 | at the start what lies ahead is all the bytes of the entries, in order |
| `Scatterwalk.AdvanceIs` | kernel/linux/crypto/scatterwalk.c:119-122 | consuming n bytes of the page drops exactly these from what lies ahead |
| `Scatterwalk.PageDoneIs` | kernel/linux/crypto/scatterwalk.c:68-90 | with bytes still to come, leaving a page skips nothing and never goes past the last entry |
| `Scatterwalk.DoneIs` | kernel/linux/crypto/scatterwalk.c:92-97 | moving on changes the cursor but not what lies ahead |
| `CipherModes.FlatConcat` | kernel/linux/crypto/cipher.c:47-127 | two calls, the second with the IV left by the first, are one call on the joined data |
| `CipherModes.CbcInverts` | kernel/linux/crypto/cipher.c:98-121 | CBC decryption restores the plaintext and leaves the same IV |
| `CipherModes.EcbInverts` | kernel/linux/crypto/cipher.c:123-127 | ECB likewise |
| `CipherEngine.Engine.CopyIn` | kernel/linux/crypto/scatterwalk.c:99-124 | the buffer gets the next bytes of the list, over any number of pages and entries |
| `CipherEngine.Engine.CopyOut` | kernel/linux/crypto/scatterwalk.c:99-124 | the next bytes of the list get the buffer, and no other byte of memory changes |
| `CipherEngine.Engine.Fetch` | kernel/linux/crypto/cipher.c:73-82 | in place or through the local buffer, the block seen is the next one of the list |
| `CipherEngine.Engine.NotSameIsSeparate` | kernel/linux/crypto/scatterwalk.h:36-43 | where the same-buffer test says no, source and destination do not overlap, so that decryption may write before it reads again |
| `CipherEngine.Engine.Process` | kernel/linux/crypto/cipher.c:98-127 | one block of ECB or CBC, in place or not, with the IV updated |
| `CipherEngine.Engine.CryptBlock` | kernel/linux/crypto/cipher.c:69-91 | one turn of the loop stores the next block of the mode, for every way the two lists are cut |
| `CipherEngine.Engine.CryptLoop` | kernel/linux/crypto/cipher.c:66-95 | over the loop the destination holds the mode applied to all bytes so far |
| `CipherEngine.Engine.Crypt` | kernel/linux/crypto/cipher.c:47-96 | refused exactly if the length is no multiple of the block size; otherwise the destination gets flat ECB or CBC of the concatenated source, the IV is left for the next call, and nothing else in memory changes |
| `CipherEngine.CbcRestores` | kernel/linux/crypto/cipher.c:47-127 | ciphertext decrypted from a list cut differently gives the plaintext back |
| `HashStream.AbsorbConcat` | kernel/linux/crypto/md5.c:160-188 | absorbing a message in two parts, with the rest of the first kept, is absorbing it at once |
| `Md5.CountIs` | kernel/linux/crypto/md5.c:190-214 | the two length words from the byte counter are the 64-bit length in bits, also when the counter has wrapped around |
| `Md5Transform.CodeFIs` | kernel/linux/crypto/md5.c:29-32 | F1 to F4 are the auxiliary functions of section 3.4 of RFC 1321 |
| `Md5Transform.StepAt` | kernel/linux/crypto/md5.c:34-118 | a line of the transformation, with its own register names and the word, constant and rotation it gives, is the operation of that number |
| `Md5Transform.Transform` | kernel/linux/crypto/md5.c:43-147 | the sixty-four lines are the four rounds of section 3.4 |
| `Md5Example.AbcDigest` | kernel/linux/crypto/tcrypt.h:121-125 | the digest of abc under the specification, computed step by step, is that of appendix A.5 of RFC 1321 |
| `Md5.Ctx.constructor` | kernel/linux/crypto/md5.c:149-158 | the context of the empty message |
| `Md5.Ctx.Update` | kernel/linux/crypto/md5.c:160-188 | the context afterwards is that of the longer message, however it was cut |
| `Md5.Ctx.Final` | kernel/linux/crypto/md5.c:190-214 | the MD5 digest of the whole message, padded as in sections 3.1 and 3.2 of RFC 1321, for every length |
| `Sha1Transform.CodeFIs` | kernel/linux/crypto/sha1.c:39-50 | the expressions in R0 to R4 are the functions of section 4.1.1 of FIPS 180-2 |
| `Sha1Transform.Round` | kernel/linux/crypto/sha1.c:39-50 | a round with rotated register names and a rolling window of sixteen words is a step of the eighty-word computation |
| `Sha1Transform.Transform` | kernel/linux/crypto/sha1.c:59-105 | the eighty rounds are the computation of section 6.1.2 of FIPS 180-2 |
| `Sha1Example.AbcDigest` | kernel/linux/crypto/tcrypt.h:157-163 | the digest of abc under the specification, computed pass by pass, is that of appendix A.1 of FIPS 180-2 |
| `DigestConstants.Sha1Constants` | kernel/linux/crypto/sha1.c:43-50 | the four constants are 2^30 times the square roots of 2, 3, 5 and 10, rounded down |
| `Sha1.CountIs` | kernel/linux/crypto/sha1.c:119-126 | the fill of the buffer is always right; the bit count stays exact if and only if the call passes less than 2^29 bytes |
| `Sha1.FillTestIs` | kernel/linux/crypto/sha1.c:127-137 | the 32-bit test whether the buffer is filled decides rightly if and only if fill and length together are below 2^32 |
| `Sha1.WrapExample` | kernel/linux/crypto/sha1.c:127-137 | after one byte, 2^32 - 1 more are taken to fit into the buffer |
| `Sha1.LongUpdateExample` | kernel/linux/crypto/sha1.c:125-126 | a call with 2^29 bytes counts as none |
| `Sha1.Ctx.constructor` | kernel/linux/crypto/sha1.c:107-117 | the context of the empty message |
| `Sha1.Ctx.Update` | kernel/linux/crypto/sha1.c:119-138 | the context is that of the longer message; the count stays exact if and only if the call passes less than 2^29 bytes |
| `Sha1.Ctx.Final` | kernel/linux/crypto/sha1.c:141-178 | with an exact count, the digest of the whole message padded as in section 5.1.1; in any case that of the message with the count kept |
| `Sha512Transform.LoadWord` | kernel/linux/crypto/sha512.c:105-123 | eight shifts and ors give the word with the high-order byte first |
| `Sha512Transform.Schedule` | kernel/linux/crypto/sha512.c:138-144 | the array holds the message schedule of eighty words |
| `Sha512Transform.E0Is` | kernel/linux/crypto/sha512.c:45-83 | the shifts in e0 are the rotations of section 4.1.3 of FIPS 180-2 |
| `Sha512Transform.E1Is` | kernel/linux/crypto/sha512.c:45-83 | the shifts in e1 are the rotations of section 4.1.3 of FIPS 180-2 |
| `Sha512Transform.S0Is` | kernel/linux/crypto/sha512.c:45-83 | the shifts in s0 are the rotations of section 4.1.3 of FIPS 180-2 |
| `Sha512Transform.S1Is` | kernel/linux/crypto/sha512.c:45-83 | the shifts in s1 are the rotations of section 4.1.3 of FIPS 180-2 |
| `Sha512Transform.RoundAt` | kernel/linux/crypto/sha512.c:150-168 | each of the eight unrolled lines, with its own register names, is a round of section 6.4.2 of FIPS 180-2 |
| `Sha512Transform.Transform` | kernel/linux/crypto/sha512.c:130-176 | the eighty rounds are the computation of section 6.4.2 |
| `Sha512.DigestPieces` | kernel/linux/crypto/sha512.c:178-308 | for every way of cutting a message into pieces of less than 2^29 bytes, its SHA-512 digest |
| `Sha512Example.AbcDigest` | kernel/linux/crypto/tcrypt.h:252-264 | the digest of abc under the specification, computed pass by pass, is that of appendix C.1 of FIPS 180-2 |
| `DigestConstants.CubeRoots0` | kernel/linux/crypto/sha512.c:50-78 | constants 0 to 7 are the first 64 bits of the fractions of the cube roots of the eight primes from the first on: c^3 <= p * 2^192 < (c + 1)^3 |
| `DigestConstants.CubeRoots8` | kernel/linux/crypto/sha512.c:50-78 | constants 8 to 15 are the first 64 bits of the fractions of the cube roots of the eight primes from the 9th on: c^3 <= p * 2^192 < (c + 1)^3 |
| `DigestConstants.CubeRoots16` | kernel/linux/crypto/sha512.c:50-78 | constants 16 to 23 are the first 64 bits of the fractions of the cube roots of the eight primes from the 17th on: c^3 <= p * 2^192 < (c + 1)^3 |
| `DigestConstants.CubeRoots24` | kernel/linux/crypto/sha512.c:50-78 | constants 24 to 31 are the first 64 bits of the fractions of the cube roots of the eight primes from the 25th on: c^3 <= p * 2^192 < (c + 1)^3 |
| `DigestConstants.CubeRoots32` | kernel/linux/crypto/sha512.c:50-78 | constants 32 to 39 are the first 64 bits of the fractions of the cube roots of the eight primes from the 33th on: c^3 <= p * 2^192 < (c + 1)^3 |
| `DigestConstants.CubeRoots40` | kernel/linux/crypto/sha512.c:50-78 | constants 40 to 47 are the first 64 bits of the fractions of the cube roots of the eight primes from the 41st on: c^3 <= p * 2^192 < (c + 1)^3 |
| `DigestConstants.CubeRoots48` | kernel/linux/crypto/sha512.c:50-78 | constants 48 to 55 are the first 64 bits of the fractions of the cube roots of the eight primes from the 49th on: c^3 <= p * 2^192 < (c + 1)^3 |
| `DigestConstants.CubeRoots56` | kernel/linux/crypto/sha512.c:50-78 | constants 56 to 63 are the first 64 bits of the fractions of the cube roots of the eight primes from the 57th on: c^3 <= p * 2^192 < (c + 1)^3 |
| `DigestConstants.CubeRoots64` | kernel/linux/crypto/sha512.c:50-78 | constants 64 to 71 are the first 64 bits of the fractions of the cube roots of the eight primes from the 65th on: c^3 <= p * 2^192 < (c + 1)^3 |
| `DigestConstants.CubeRoots72` | kernel/linux/crypto/sha512.c:50-78 | constants 72 to 79 are the first 64 bits of the fractions of the cube roots of the eight primes from the 73th on: c^3 <= p * 2^192 < (c + 1)^3 |
| `DigestConstants.InitialValues` | kernel/linux/crypto/sha512.c:85-93 | the initial values are those bits of the square roots of the first eight primes |
| `Sha512.CountIs` | kernel/linux/crypto/sha512.c:220-226 | the four-word count stays exact modulo 2^128 if and only if the call passes less than 2^29 bytes, or the low word carries and count[1] takes up the rest |
| `Sha512.LoopTestIs` | kernel/linux/crypto/sha512.c:228-239 | the 32-bit test of the loop decides rightly at every index it can come to if and only if fill and length together are below 2^32 |
| `Sha512.WrapExample` | kernel/linux/crypto/sha512.c:228-239 | after one byte, an update of 2^32 - 1 comes to an index at which the loop goes on with nothing left |
| `Sha512.LongUpdateExample` | kernel/linux/crypto/sha512.c:220-226 | a first call with 2^29 bytes counts as none |
| `Sha512.LengthIs` | kernel/linux/crypto/sha512.c:263-283 | the sixteen length bytes are the four words as one number |
| `Sha512.Ctx.constructor` | kernel/linux/crypto/sha512.c:178-208 | the context of the empty message, for the initial values of SHA-512 or SHA-384 |
| `Sha512.Ctx.Update` | kernel/linux/crypto/sha512.c:210-245 | the context is that of the longer message; the count stays exact under exactly the condition above |
| `Sha512.Ctx.Final` | kernel/linux/crypto/sha512.c:247-308 | with an exact count, the digest of the whole message padded as in section 5.1.2 |
| `Michael.EmptyMessage` | kernel/linux/crypto/tcrypt.h:2014-2022 | the code of the empty message under the key of zeros is that of the test vectors |
| `Michael.Ctx.constructor` | kernel/linux/crypto/michael_mic.c:73-78 | the context of the empty message under the key |
| `Michael.Ctx.Update` | kernel/linux/crypto/michael_mic.c:80-112 | the context is that of the longer message, however it was cut |
| `Michael.Ctx.Final` | kernel/linux/crypto/michael_mic.c:115-142 | the code of the whole message padded with 0x5a and zeros to a multiple of four |
| `Hmac.Tfm.Update` | kernel/linux/crypto/digest.c:26-53 | page by page, the digest gets the bytes of the list in order |
| `Hmac.Tfm.HashKey` | kernel/linux/crypto/hmac.c:24-33 | the digest of the key replaces it in its own buffer |
| `Hmac.Tfm.Shorten` | kernel/linux/crypto/hmac.c:62-65 | afterwards the buffer and the length describe the short form of the key, hashed exactly if it was too long |
| `Hmac.Tfm.StartWith` | kernel/linux/crypto/hmac.c:67-78 | the digest begins with the key, filled up and xored, as its first block |
| `Hmac.Tfm.HmacInit` | kernel/linux/crypto/hmac.c:56-79 | the inner digest is begun with the short key, and the message is untouched |
| `Hmac.Tfm.HmacFinal` | kernel/linux/crypto/hmac.c:87-120 | for a key no longer than a block, the outer digest over the inner one, although the output buffer holds both in turn; for a longer one, the outer digest of the hashed key over that of a wiped context, whatever the message was |
| `Hmac.Tfm.Hmac` | kernel/linux/crypto/hmac.c:122-128 | H((K xor opad) with H((K xor ipad) with m)) of section 2 of RFC 2104 for keys of every length, hashing a long key once |
| `Hmac.FinalIsOuter` | kernel/linux/crypto/hmac.c:87-120 | crypto_hmac_final gives the outer digest of RFC 2104 for every message if and only if the key is no longer than a block by then, or the outer digest does not depend on the message |
| `Hmac.FinalNeedsShortKey` | kernel/linux/crypto/hmac.c:87-120 | with a digest that tells any two messages apart under the hashed key, crypto_hmac_final is right for every message if and only if the key is no longer than a block by then |
| `Hmac.LongKeyExample` | kernel/linux/crypto/hmac.c:87-120 | two messages with different codes that get the same one through a key of two bytes and blocks of one |
| `BlockDev.Exclusive` | kernel/linux/fs/block_dev.c:433-466 | a whole device and one of its partitions are never claimed together |
| `BlockDev.StepKeepsInv` | kernel/linux/fs/block_dev.c:433-741 | whoever touches one device and its whole device keeps holder and open counts of all: twice the own claims plus those of the partitions, own opens plus open partitions, and the sum of partition opens |
| `BlockDev.ClaimDecided` | kernel/linux/fs/block_dev.c:433-451 | the decision from bd_holder and bd_contains is: not claimed by anyone else, and neither whole nor partition in the way |
| `BlockDev.DevsDetermined` | kernel/linux/fs/block_dev.c:433-741 | who has opened and claimed what determines all the counts, holders and links of the devices |
| `BlockDev.Devices.constructor` | kernel/linux/fs/block_dev.c:246-261 | closed devices satisfy the invariant |
| `BlockDev.Devices.Claim` | kernel/linux/fs/block_dev.c:433-466 | granted if and only if nobody else holds the device, a partition of it or its whole device; a refusal changes nothing |
| `BlockDev.Devices.Release` | kernel/linux/fs/block_dev.c:470-478 | one claim less, with holders cleared exactly when the last is gone, and the same devices |
| `BlockDev.Devices.Open` | kernel/linux/fs/block_dev.c:547-647 | opened exactly if disk, driver, whole device and partition are there; any failure, after whatever was opened on the way, leaves all devices as they were |
| `BlockDev.Devices.OpenFirst` | kernel/linux/fs/block_dev.c:584-610 | the first open of a partition opens the whole device with it, or neither |
| `BlockDev.Devices.Put` | kernel/linux/fs/block_dev.c:700-741 | one open less, with the whole device put when a partition is closed, and the same devices |
| `BlockDev.Devices.OpenExclusive` | kernel/linux/fs/block_dev.c:669-696 | opened and claimed exactly if both are possible; otherwise every record is as it was |
| `SerpentWords.BoxInverts` | kernel/linux/crypto/serpent.c:66-208 | bit-sliced over 32 lanes, the eight S-boxes and their inverses undo each other |
| `SerpentWords.LinearInverts` | kernel/linux/crypto/serpent.c:46-64 | the linear transformation and its inverse undo each other |
| `SerpentWords.ShlNumber` | kernel/linux/crypto/serpent.c:46-64 | read as a number, a word shifted left by n is multiplied by 2^n modulo 2^32 |
| `SerpentWords.RolNumber` | kernel/linux/crypto/serpent.c:30-30 | a word rotated left by n is x * 2^n mod 2^32 plus x / 2^(32 - n) |
| `SerpentWords.RorNumber` | kernel/linux/crypto/serpent.c:31-31 | a word rotated right by n is x / 2^n plus x * 2^(32 - n) mod 2^32 |
| `SerpentWords.LinearBits` | kernel/linux/crypto/serpent.c:46-55 | each bit of the transformed block is the sum of just those bits of the block that the tables in the definition of Serpent list for it |
| `SerpentWords.Inverts` | kernel/linux/crypto/serpent.c:365-474 | decryption undoes encryption through 32 rounds, for every expanded key and block |
| `SerpentCode.S0` | kernel/linux/crypto/serpent.c:66-74 | the register operations compute S-box 0 of the published tables in all 32 lanes, its words ending up in the registers the next step names |
| `SerpentCode.S1` | kernel/linux/crypto/serpent.c:75-83 | the register operations compute S-box 1 of the published tables in all 32 lanes, its words ending up in the registers the next step names |
| `SerpentCode.S2` | kernel/linux/crypto/serpent.c:84-92 | the register operations compute S-box 2 of the published tables in all 32 lanes, its words ending up in the registers the next step names |
| `SerpentCode.S3` | kernel/linux/crypto/serpent.c:93-101 | the register operations compute S-box 3 of the published tables in all 32 lanes, its words ending up in the registers the next step names |
| `SerpentCode.S4` | kernel/linux/crypto/serpent.c:102-111 | the register operations compute S-box 4 of the published tables in all 32 lanes, its words ending up in the registers the next step names |
| `SerpentCode.S5` | kernel/linux/crypto/serpent.c:112-120 | the register operations compute S-box 5 of the published tables in all 32 lanes, its words ending up in the registers the next step names |
| `SerpentCode.S6` | kernel/linux/crypto/serpent.c:121-129 | the register operations compute S-box 6 of the published tables in all 32 lanes, its words ending up in the registers the next step names |
| `SerpentCode.S7` | kernel/linux/crypto/serpent.c:130-139 | the register operations compute S-box 7 of the published tables in all 32 lanes, its words ending up in the registers the next step names |
| `SerpentCode.SI0` | kernel/linux/crypto/serpent.c:140-147 | the register operations compute the inverse of S-box 0 in all 32 lanes |
| `SerpentCode.SI1` | kernel/linux/crypto/serpent.c:148-156 | the register operations compute the inverse of S-box 1 in all 32 lanes |
| `SerpentCode.SI2` | kernel/linux/crypto/serpent.c:157-164 | the register operations compute the inverse of S-box 2 in all 32 lanes |
| `SerpentCode.SI3` | kernel/linux/crypto/serpent.c:165-173 | the register operations compute the inverse of S-box 3 in all 32 lanes |
| `SerpentCode.SI4` | kernel/linux/crypto/serpent.c:174-182 | the register operations compute the inverse of S-box 4 in all 32 lanes |
| `SerpentCode.SI5` | kernel/linux/crypto/serpent.c:183-191 | the register operations compute the inverse of S-box 5 in all 32 lanes |
| `SerpentCode.SI6` | kernel/linux/crypto/serpent.c:192-200 | the register operations compute the inverse of S-box 6 in all 32 lanes |
| `SerpentCode.SI7` | kernel/linux/crypto/serpent.c:201-208 | the register operations compute the inverse of S-box 7 in all 32 lanes |
| `SerpentCode.LK` | kernel/linux/crypto/serpent.c:46-55 | linear transformation and round key lead from one round to the next |
| `SerpentCode.KL` | kernel/linux/crypto/serpent.c:57-64 | round key and inverse linear transformation lead back |
| `SerpentCode.Encrypt` | kernel/linux/crypto/serpent.c:365-421 | with the registers renamed in every round, the output is the 32-round cipher |
| `SerpentCode.Decrypt` | kernel/linux/crypto/serpent.c:423-474 | likewise for the inverse cipher |
| `Xtea.SumsDiffer` | kernel/linux/crypto/tea.c:144-186 | because delta is odd, no two sums less than 2^32 rounds apart coincide |
| `Xtea.Encrypt` | kernel/linux/crypto/tea.c:144-164 | the loop that waits for the sum to reach its limit ends after exactly 32 rounds |
| `Xtea.Decrypt` | kernel/linux/crypto/tea.c:166-186 | the loop that waits for the sum to reach zero ends after exactly 32 rounds |
| `Xtea.Inverts` | kernel/linux/crypto/tea.c:144-186 | decryption restores every block under every key |

## Left out

- DirectIO.Dio.NewBio: allocation of the BIO always succeeds, as with the memory pool behind it.
- DirectIO.Dio.DirectIoWorker: page references after an error, writing back and invalidating cached pages, and aliases in the block device's page cache are not modelled.
- DioAsync.ExactlyOnce: what dio_complete and aio_complete do with the result is not modelled.
- Dcache.Cache.Rename: a move over a root, over an ancestor or a descendant is the caller's error, as is a target with neither bucket nor hash entry where one is needed.
- Dcache.Cache.SpliceAlias: the alias must be neither above nor below the dentry, which the source leaves to the file system; MoveIsTree says that there is no tree otherwise.
- Dcache.Cache.AllocAnon: the storage that is allocated and given back when a directory turns out to have an alias is not modelled as a dentry in between.
- Dcache.Cache.Lookup: lookups race with renames under RCU and a sequence lock in the source; here they are one step.
- AioRing.StepKeepsInv: the ring is mapped into user memory, where the user might write to its head and tail; that is not modelled.
- AioContext.StepKeepsInv: a context refused after admission by a failing put_user, and the waiting in exit_aio, are not modelled.
- BufferLru.BufferCache.DropBuffers: the locks and the dirty state of the page around it are not modelled.
- CipherEngine.Engine.Crypt: offsets of a page or more in a scatterlist entry, and lists whose memory overlaps without being the same, are excluded; CBC without an IV function is not modelled.
- Md5Transform.Transform: that the constants are values of a sine is not stated; they are those of the table in RFC 1321.
- Sha1.Ctx.Update: excludes exactly the lengths at which the 32-bit index wraps around (FillTestIs), where the source writes beyond its buffer.
- Sha512.Ctx.Update: excludes exactly the lengths at which the 32-bit index wraps around (LoopTestIs), where the source reads beyond its input; the truncation to SHA-384 is not modelled.
- Hmac.Tfm.HmacFinal: digests whose block size differs from cra_blocksize (sha384) are outside the model.
- BlockDev.Devices.Put: flushing, media changes and reference counts of modules and inodes are not modelled.
- SerpentCode.Encrypt: the key setup is not modelled; the statement is for every expanded key.
- Xtea.Encrypt: the grouping of the source is kept and is not compared with the published cipher.
- TEA, Blowfish, Twofish, CAST, Khazad, ARC4, MD4 and SHA-256: the same arguments with other tables.
- Compression, CRC32C, the null algorithms, the crypto self tests and procfs output.
- The retry path, timers and user-memory copies of asynchronous I/O.
- d_genocide, d_validate, hash table sizing, memory barriers, RCU and sequence lock retries.
- Truncation, freezing, syncing and the nobh and cont helpers of buffer.c; wait queues.
- Character devices, pipes, files, binary formats and the 32-bit compatibility layer.
