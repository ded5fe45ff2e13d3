# Verification of the strk20 feed, mirror and indexer

This project models the parts of the strk20 repository whose correctness decides whether a
client's private mirror of the pool contract is the pool's real storage, and proves properties
of them in Dafny 4.11. `dafny verify dfyconfig.toml` checks everything.

## What is modelled

**The Starknet storage trie and its three uses.** `Felts` covers the field, the byte order and
the three separate readings of a 251-bit key. `Mpt` gives a reference trie as a plain recursion
over bit prefixes, with Pedersen and Poseidon as parameters. `MptRoot` is the sorted-list
recomputation, `MptProof` the proof verifier, `ProofGen` the proof generator, `CachedTries` and
`TrieCodec` the incremental tree and its byte encoding, `TrieWalk` the structural comparison
with a chain's trie, `Attribution` the bisection that turns missing slots into blocks, and
`Checkpoint` the chain from a block header to the pool's storage root.

**The client mirror.** `MirrorLog` is the plain block-indexed log a mirror stands for;
`MemStores` is the mirror proved against it. `ApplyFeeds` folds epochs and the replaceable
tail after the structural checks of `FeedCodec`, `EpochBuilds` and `SnapshotBuild` are what the
cutter publishes from its database, `ColdStart` and `MirrorAgreement` compare a snapshot start
with a full replay, `SyncProtocol` is the generation and cursor protocol under crashes,
`FeedRuns` the proof that applies are its feed steps, and `Anchors` and `Engines` are the gate in
front of discovery.

**Ingest and publication.** `Scan` is the adaptive window scan, `Publication` the run of ingest
cycles, reorg rollbacks, forward cuts and re-cuts, `RootCaches` the cached root of the database.

**Head deltas.** `HeadDeltas` is the delta stream to subscribers.

`Sorting` holds the insertion order several lists share.

## How results are stated

Hash functions are parameters and nothing is assumed about them. A collision is always one
among concrete nodes: the nodes of the tries involved and those received in the run at hand
(`HasCollision`, `Broken`, `Clean`, `Received`). It means two different nodes with one hash, or a
node that hashes to zero, the hash of an empty subtree. Of a proof only well-formed nodes count
(`Sane`): an edge of length zero shares its hash with a binary node for free, so a prover could
otherwise serve an unused one and void the result (`MptProof.JunkIsNoEscape`). A walk's nodes come
from an honest endpoint, whose edges are longer than zero. Bare existence of a collision would be
trivially true over a finite field and is never used.

Endpoints are functions from the number of a call and the request to an answer, so one
statement covers every behaviour. Where a result needs an honest endpoint, the hypothesis is a
named predicate (`HonestEndpoint`, `CompleteEndpoint`, `UpdatesMatchReads`).

An operation that changes state step by step is a method on a class with the same fields; its
contract ties the new state to a specification function of the old one, and the lemmas about
that function say what it means.

## Where the code and its description part

- `attribute_to_blocks` says it never silently drops a slot. It stops only when an update names
  no pending slot at all, so a block whose update names another requested slot but not the
  bisected one passes, and the bisected slot is dropped (`Attribution.DroppedSlot`). No request
  ever drops one if and only if no block found names another requested slot without naming its
  own (`Attribution.DropsExactly`); every request is answered right if and only if updates name
  every slot that turns (`Attribution.RightExactly`).
- A walk's `extra` is described as every slot the mirror holds and the chain does not. An empty
  subtree is met only at the root of an empty chain, because binary children and edge targets are
  never empty, so against any other chain the list is always empty. It is complete if and only if
  the chain is empty or the mirror holds no such slot (`TrieWalk.ExtraComplete`), and `is_clean`
  holds of a mirror that is the chain plus one slot, whose root differs (`TrieWalk.CleanMeans`,
  `TrieWalk.UnseenSlot`).
- A head tail may start at or below the client's epoch floor; only a later start is rejected.
  Such a tail is accepted and can rewrite a final block without raising the generation
  (`ApplyFeeds.LowTailMasksReorg`), or repeat its hash and rewrite its rows
  (`ApplyFeeds.LowTailRewritesRows`). Hashes below the floor are kept if and only if each low line
  repeats the stored hash (`ApplyFeeds.TailBelowFloor`), rows if and only if each low line writes
  only what survives there already (`ApplyFeeds.TailRowsBelowFloor`).
- Block hashes are unique in the indexer's database and an insert replaces what it collides with.
  A fetched block that repeats the hash of a published one deletes it
  (`Publication.RepeatedHashErases`). A cycle keeps published content if and only if no block it
  takes repeats a hash stored at or below the last published epoch's end
  (`Publication.Indexer.RunCycle`, `Publication.PublishedKept`).
- A missing recorded L1 height counts as zero in the forward cut. With one-block epochs from
  block zero the first epoch is cut before any height is recorded and any block ingested
  (`Publication.CutBeforeFinality`); without a height or a frontier that is the only epoch ever
  cut (`Publication.Indexer.CutReadyEpochs`, `Publication.Indexer.NoHeightNoEpoch`).
- The chain id is pinned beside the pool but in a write of its own, and only while no pool is
  pinned: a mirror stopped between the two writes never pins a chain and folds feeds of two
  (`ApplyFeeds.StoppedPinTakesBoth`). With a pool pinned that is possible if and only if no chain
  is (`ApplyFeeds.TwoChainsExactly`), and in a run if and only if its first contact stopped there
  (`ApplyFeeds.PinnedForever`).
- `Range::contains` and the saturating bounds of a range disagree when the floor is the largest
  block number, and only then (`MirrorLog.BoundsAgree`).
- The snapshot parser accepts more than one end record; the last one counts
  (`ColdStart.TwoEndRecords`).
- The generation protocol needs one session per owner at a time. Two sessions of one owner on a
  shared store can leave a stale live cursor under the current generation
  (`SyncProtocol.TwoSessionsBreak`); checkpoint cursors are never stale, with any number of
  sessions (`SyncProtocol.NoStaleCheckpoint`).

## Model

| member | source | states |
|---|---|---|
| `Felts.ReadersAgree` | crates/indexerd/src/trie_walk.rs:367-380 | The bit packing written separately in the proof verifier, the cached trie and the walk reads the same bits. |
| `Felts.FitsInBitsMeans` | crates/feed/src/mpt.rs:37-43 | The byte test accepts exactly the felts below two to the given power. |
| `Felts.TrieKeyMeans` | crates/feed/src/mpt.rs:46-48 | A felt is a trie key exactly when it is below two to the 251. |
| `Felts.KeyBitsRoundTrip` | crates/feed/src/mpt.rs:298-307 | Reading a trie key as a path and packing it again gives the key back. |
| `Felts.PathFeltRoundTrip` | crates/feed/src/mpt.rs:298-307 | Packing a full path gives a trie key that reads back as the same path. |
| `Felts.EdgeBitsRoundTrip` | crates/indexerd/src/trie_walk.rs:365-380 | An edge's unpacked path is the path it was packed from. |
| `Felts.ValueInjective` | crates/feed/src/mpt.rs:61-71 | Paths of one length with one packed value are equal. |
| `Felts.BitsToFelt` | crates/feed/src/mpt.rs:61-71 | The byte-setting loop yields the felt whose binary digits are the path. |
| `Felts.KeyPath` | crates/feed/src/mpt.rs:298-300 | The loop over depths yields the key's most significant bits first. |
| `Felts.FromToBytes` | crates/feed/src/mpt.rs:61-71 | A felt's 32 big-endian bytes read back as the felt. |
| `Mpt.EqualHashes` | crates/feed/src/mpt.rs:336-348 | Equal subtree hashes at one prefix mean identical entries under it, or a collision among the nodes of the two tries. |
| `Mpt.EqualRoots` | crates/feed/src/mpt.rs:128-130 | Equal storage roots mean equal slot sets, or a collision. |
| `Mpt.NonEmptyIsNotZero` | crates/feed/src/mpt.rs:336-348 | Zero is the hash of the empty subtree only, or a node hashes to zero. |
| `Mpt.SummaryFrame` | crates/feed/src/mpt.rs:326-348 | A subtree's hash depends only on the entries under its prefix. |
| `MptRoot.SubtreeIsSummary` | crates/feed/src/mpt.rs:90-123 | The list recursion, with its shortcut for a lone leaf, computes the reference trie's subtree. |
| `MptRoot.PrefixRun` | crates/feed/src/mpt.rs:324-334 | The two partition points cut out exactly the entries with the prefix. |
| `MptRoot.SubtreeHashIsHashAt` | crates/feed/src/mpt.rs:342-348 | The hash computed for any prefix is the one a parent in the reference trie stores. |
| `MptRoot.BitEntriesList` | crates/feed/src/mpt.rs:313-322 | Sorting, dropping zeros and de-duplicating lists exactly the slot map, first entry of a key winning. |
| `MptRoot.StorageRoot` | crates/feed/src/mpt.rs:128-130 | The storage root is the reference trie's root of the slot map the list stands for. |
| `MptProof.VerifyStorageProof` | crates/feed/src/mpt.rs:175-274 | The verifier loop terminates on every input and answers as specified, errors in the source's order. |
| `MptProof.ProofSound` | crates/feed/src/mpt.rs:175-274 | For any node list against the root of a slot set, a member answer names the slot's value and a non-member answer an absent slot, or two different well-formed nodes of the set's trie and the list share a hash. |
| `MptProof.JunkIsNoEscape` | crates/feed/src/mpt.rs:228-252 | A served node no trie can hold, which the verifier refuses where it meets it, is not among the nodes a collision may be found in. |
| `MptProof.ProofComplete` | crates/feed/src/mpt.rs:175-274 | Honest nodes covering a key's path make the verifier return the slot's value or its absence. |
| `MptProof.HonestBody` | crates/feed/src/mpt.rs:204-271 | A node filed under its own hash at a trie position is the trie's own node there, or a collision is at hand. |
| `ProofGen.NodesFor` | crates/e2e-tests/src/storage_proof.rs:32-93 | The generator lists, in hash order and once each, trie nodes that cover the whole path of every asked key. |
| `ProofGen.ProveAndVerify` | crates/e2e-tests/src/storage_proof.rs:32-93 | For every slot set and key batch the generated proof verifies to each key's value or absence, or a collision is at hand. |
| `MptRoot.EdgeByEnds` | crates/e2e-tests/src/storage_proof.rs:43-55 | The bits the first and last entry of a sorted run share below the prefix are exactly the edge of the trie node there. |
| `CachedTries.TreeHash` | crates/feed/src/trie.rs:45-58 | A node's hash seen from any depth at or above it is the reference hash of its contents there. |
| `CachedTries.OneShape` | crates/feed/src/trie.rs:45-83 | Two well-formed trees with the same contents are the same tree, whatever their history. |
| `CachedTries.BuildMeans` | crates/feed/src/trie.rs:69-83 | Building from sorted entries yields the well-formed tree of exactly those entries. |
| `CachedTries.UpdateMeans` | crates/feed/src/trie.rs:86-119 | One write, deletion or zero write yields the well-formed tree of the written set, and nothing else changes. |
| `CachedTries.CollectRefuses` | crates/feed/src/trie.rs:158-171 | An update is refused exactly when the list names a key of more than 251 bits or one non-zero key twice. |
| `CachedTries.CachedTrie.Update` | crates/feed/src/trie.rs:158-194 | An accepted update leaves the tree that would be built from scratch and returns the storage root of the list; a rejected one leaves the tree untouched. |
| `CachedTries.CachedTrie.WriteAll` | crates/feed/src/trie.rs:172-182 | After the write loop the tree is that of the old set with every changed key written. |
| `CachedTries.CachedTrie.DeleteAll` | crates/feed/src/trie.rs:183-190 | After the deletion loop the tree is that of the new set. |
| `CachedTries.CollectEntries` | crates/feed/src/trie.rs:158-171 | The collecting loop gathers the list's non-zero entries by key or reports the first bad one. |
| `TrieCodec.DecodeEncoded` | crates/feed/src/trie.rs:121-142 | Decoding an encoded node followed by any bytes returns the node and exactly those bytes. |
| `TrieCodec.RoundTrip` | crates/feed/src/trie.rs:196-257 | Decoding an encoded cache returns the same tree and the same values. |
| `TrieWalk.EnumerateMissingSlots` | crates/indexerd/src/trie_walk.rs:92-258 | With honest nodes a walk that returns lists as missing exactly the chain slots the mirror lacks with their chain values, as divergent exactly the shared slots that differ, as extra every mirror slot when the chain is empty and none otherwise, and counts the chain's leaves, unless nodes it received collide; against an endpoint that answers with whole paths it returns within 252 rounds. |
| `TrieWalk.Round` | crates/indexerd/src/trie_walk.rs:129-251 | A round ends with nothing left to explain, with a frontier fit for the next round, or with a bail that a collision-free complete endpoint never causes. |
| `TrieWalk.ExtraComplete` | crates/indexerd/src/trie_walk.rs:75-78 | The list of extra slots holds every mirror-only slot if and only if the chain is empty or there is none. |
| `TrieWalk.CleanMeans` | crates/indexerd/src/trie_walk.rs:84-88 | A report is clean if and only if the mirror holds every chain slot at the chain's value, and nothing when the chain is empty. |
| `TrieWalk.UnseenSlot` | crates/indexerd/src/trie_walk.rs:183-196 | A mirror that is a non-empty chain plus one slot has another root and a clean report. |
| `TrieWalk.ChainEndpointServes` | crates/indexerd/src/trie_walk.rs:21-27 | An endpoint that serves each asked key's root-to-key path from the chain's own trie is honest and complete, so the walk's hypotheses can be met for every chain. |
| `TrieWalk.Handle` | crates/indexerd/src/trie_walk.rs:147-200 | Handling one queued subtree keeps the report exact outside the subtrees still pending. |
| `TrieWalk.Drain` | crates/indexerd/src/trie_walk.rs:145-200 | One round empties the queue, keeps the report exact, and sets aside only unknown subtrees no shorter than the round. |
| `TrieWalk.Absorb` | crates/indexerd/src/trie_walk.rs:348-363 | Every served node is filed under its hash; a hash already known keeps its first body. |
| `TrieWalk.AskAll` | crates/indexerd/src/trie_walk.rs:209-231 | Asking in requests of at most 64 keys files honest nodes received in this run only, and every node on the path of every key when the endpoint answers with whole paths. |
| `TrieWalk.CraftKeys` | crates/indexerd/src/trie_walk.rs:209-216 | A crafted key starts with its subtree's prefix. |
| `TrieWalk.RoundAnswered` | crates/indexerd/src/trie_walk.rs:205-251 | A completely answered round teaches a new node and explains every subtree set aside, so the stall bail cannot fire. |
| `TrieWalk.AlreadyEqual` | crates/indexerd/src/trie_walk.rs:124-127 | Equal roots justify the early return: nothing missing, divergent or extra, and equal leaf counts. |
| `TrieWalk.SortedReport` | crates/indexerd/src/trie_walk.rs:253-257 | Sorting keeps exactly the reported rows, in slot order. |
| `Attribution.Bisect` | crates/indexerd/src/trie_walk.rs:283-304 | The bisection loop finds the block the specification's search finds, with the same number of reads. |
| `Attribution.SearchReads` | crates/indexerd/src/trie_walk.rs:283-304 | One bisection makes at most the rounded-up binary logarithm of the range's length in reads. |
| `Attribution.SearchTurns` | crates/indexerd/src/trie_walk.rs:260-304 | From zero below and non-zero above, the block found turns the slot from zero to non-zero, without assuming write-once values. |
| `Attribution.CeilLog2Means` | crates/indexerd/src/trie_walk.rs:262-264 | The read bound is the least power-of-two exponent covering the range. |
| `Attribution.Claim` | crates/indexerd/src/trie_walk.rs:306-322 | Every pending key the update names is claimed, and the counter is zero exactly when none was pending. |
| `Attribution.AttributeToBlocks` | crates/indexerd/src/trie_walk.rs:267-346 | The loop over slots computes the specified attribution, errors included. |
| `Attribution.AttributionRight` | crates/indexerd/src/trie_walk.rs:260-346 | When updates match reads, every block returned turned a requested slot non-zero, every requested slot is written by a block returned, blocks are listed once in order, and reads are at most one bisection per block. |
| `Attribution.DroppedSlot` | crates/indexerd/src/trie_walk.rs:323-333 | A requested slot can be dropped when the bisected block's update names another requested slot: a concrete input. |
| `Attribution.DropsExactly` | crates/indexerd/src/trie_walk.rs:306-333 | No answered request drops a slot if and only if a block found by bisecting one slot names that slot whenever it names another one asked for with it. |
| `Attribution.RightExactly` | crates/indexerd/src/trie_walk.rs:260-346 | Every request over slots that turn non-zero in its range is answered right if and only if every update names each slot that turns at its block. |
| `Attribution.SortDedupMeans` | crates/indexerd/src/trie_walk.rs:343-345 | The final sort and de-duplication keep the same blocks, strictly ascending. |
| `Checkpoint.CheckpointSound` | crates/feed/src/checkpoint.rs:121-265 | A proof accepted against an honest header authenticates the deployed pool's own storage root, class and nonce, or two preimages of one hash are at hand. |
| `Checkpoint.CheckpointComplete` | crates/feed/src/checkpoint.rs:121-265 | An honest proof of a deployed pool, within the size limits, is accepted with the pool's storage root. |
| `Checkpoint.EqualLeaves` | crates/feed/src/checkpoint.rs:50-58 | Equal contract leaf hashes come from equal classes, roots and nonces, or a Pedersen collision is at hand. |
| `Checkpoint.LeafFound` | crates/feed/src/checkpoint.rs:233-251 | A leaf accepted against the contracts root is the one the contracts trie holds for the pool. |
| `Checkpoint.GroundedSet` | crates/feed/src/checkpoint.rs:1-3 | A complete slot set whose root is the authenticated one is the committed storage, slot for slot, or a collision is at hand. |
| `MirrorLog.BoundsAgree` | crates/consumer/src/mem.rs:82-89 | The two readings of a range agree on every block exactly when its floor is not the largest number. |
| `MirrorLog.ReadMeans` | crates/consumer/src/store.rs:116-118 | An as-of read is the latest surviving write at or below the bound, or zero at block zero when there is none. |
| `MirrorLog.ReadLatest` | crates/consumer/src/store.rs:116-118 | Whatever surviving write is the latest at or below the bound is the one read. |
| `MemStores.LastRowIsRead` | crates/consumer/src/mem.rs:92-99 | The row lookup returns the log's latest surviving write. |
| `MemStores.SkipIsScan` | crates/consumer/src/mem.rs:68-78 | Skipping the clear scan when the range starts above the highest write block leaves no row that should be cleared. |
| `MemStores.MemStore.ReadSlotAsOf` | crates/consumer/src/mem.rs:210-212 | After any sequence of installs and replacements a read is the log's as-of read. |
| `MemStores.MemStore.BlockHashes` | crates/consumer/src/mem.rs:200-208 | Exactly the surviving blocks inside the bounds, with their hashes. |
| `MemStores.MemStore.ClearRange` | crates/consumer/src/mem.rs:107-127 | Rows and blocks of the range are gone and all others stay, scanned or not. |
| `MemStores.MemStore.ApplyBlockLine` | crates/consumer/src/mem.rs:129-156 | The block and its writes are recorded, and the highest write block stays an upper bound. |
| `MemStores.MemStore.ReplaceRange` | crates/consumer/src/mem.rs:278-304 | The log gains one replacement; metadata and, when asked, the generation change in the same write. |
| `MemStores.MemStore.InstallSnapshot` | crates/consumer/src/mem.rs:266-276 | The log gains one install; the generation does not move. |
| `MemStores.MemStore.FullSlotSetAsOf` | crates/consumer/src/mem.rs:214-225 | Every slot whose as-of value is not zero is listed once with that value. |
| `MemStores.MemStore.StorageRootAt` | crates/consumer/src/mem.rs:227-230 | The root returned is that of the complete slot map at the block; it is refused exactly when some slot is not a trie key. |
| `MemStores.MemStore.Fork` | crates/consumer/src/mem.rs:496-502 | A candidate has the same contents and shares no state. |
| `MemStores.MapAtUnique` | crates/consumer/src/mem.rs:214-225 | The complete slot map at a block is unique. |
| `MemStores.ListIsPathMap` | crates/consumer/src/mem.rs:214-230 | The slot list handed to the trie stands for exactly the slot set. |
| `ColdStart.Parse` | crates/feed/src/snapshot.rs:141-205 | The record loop accepts exactly the non-zero, ordered slot lists written at or below the basis with the right count, and a refusal names a line with that fault. |
| `ColdStart.EncodeThenParse` | crates/feed/src/snapshot.rs:65-92 | An encoded slot list parses to itself exactly when it is well formed. |
| `ColdStart.SpelledUnique` | crates/feed/src/snapshot.rs:111-206 | A payload's lines stand for at most one slot list. |
| `ColdStart.TwoEndRecords` | crates/feed/src/snapshot.rs:187-189 | Two end records are accepted and the last one counts: a concrete input. |
| `ColdStart.SnapshotWellFormed` | crates/indexerd/src/cutter.rs:808-831 | The cutter's snapshot passes the client's ordering, zero and write-block checks. |
| `ColdStart.SnapshotReads` | crates/consumer/src/apply.rs:382-399 | A mirror holding only the snapshot reads at the basis like the log the snapshot was taken from. |
| `ColdStart.AgreeAlways` | crates/consumer/src/apply.rs:161-271 | Whatever epochs and tails follow above the basis, two agreeing mirrors keep agreeing. |
| `ColdStart.ColdStartAgrees` | crates/consumer/src/apply.rs:287-352 | A start from the snapshot of what the epochs up to one of them replay to, followed by the later epochs, agrees with the replay of every epoch. |
| `ColdStart.AgreeEverywhere` | crates/consumer/src/mem.rs:92-99 | Agreeing mirrors read the same values, the same write block for every non-zero slot and the same slot set at every bound from the basis on. |
| `ColdStart.ReplaySplit` | crates/consumer/src/apply.rs:161-215 | Replaying all epochs is replaying the first ones and then the rest. |
| `SnapshotBuild.BuildSnapshot` | crates/indexerd/src/db.rs:793-816 | The slots listed are exactly the non-zero ones at the basis with value and last write block, in key order, and pass the client's checks. |
| `EpochBuilds.BuildEpoch` | crates/indexerd/src/cutter.rs:144-162 | An epoch file holds exactly the stored blocks of its aligned range in order, each with exactly its rows by slot and its events by index, under the header and footer counts that belong to it. |
| `EpochBuilds.BlocksAsLines` | crates/indexerd/src/cutter.rs:178-213 | The lines are exactly the stored blocks of the range with their rows. |
| `EpochBuilds.DiffsOfBlock` | crates/indexerd/src/db.rs:522-536 | A block's diffs are exactly its rows, in slot order. |
| `EpochBuilds.LinesDepend` | crates/indexerd/src/cutter.rs:144-146 | Two databases with the same blocks and rows in a range are cut into the same lines. |
| `EpochBuilds.BuiltAccepted` | crates/feed/src/manifest.rs:113-146 | What the cutter builds passes every check of the client if and only if the stored neighbours of its range link by parent hash. |
| `EpochBuilds.ReplayIsDatabase` | crates/indexerd/src/cutter.rs:178-213 | Replaying the epochs cut from a database leaves that database's rows, for every slot and block up to the end of the last epoch. |
| `EpochBuilds.SnapshotOfReplay` | crates/indexerd/src/cutter.rs:808-831 | The snapshot of a database at an epoch's end is the snapshot of the replay of its epochs up to there. |
| `FeedCodec.CheckLines` | crates/feed/src/codec.rs:396-444 | The parser's windowed checks hold if and only if the footer counts are right, blocks ascend, numeric neighbours link by parent hash, and diffs and events ascend. |
| `MirrorAgreement.ColdStartIndistinguishable` | crates/consumer/src/apply.rs:117-139 | When epochs and snapshot were cut from one database, a cold-started and a fully replayed mirror give the same values, write blocks of non-zero slots and slot sets at every bound from the basis on, after the first apply and any later ones. |
| `MirrorAgreement.StartsAgree` | crates/consumer/src/apply.rs:65-280 | The two starts from one feed, cut from one database, leave agreeing logs and the same feed metadata. |
| `MirrorAgreement.SameApply` | crates/consumer/src/apply.rs:65-280 | A later apply, failed or not, writes the same log entries to both mirrors, all above the basis. |
| `MirrorAgreement.LaterEpochs` | crates/consumer/src/apply.rs:161-166 | After a snapshot at an epoch the loop applies exactly the later epochs. |
| `ApplyFeeds.ApplyFeed` | crates/consumer/src/apply.rs:57-280 | The log, metadata and error are the plan's; the generation keeps counting exactly the range writes that lost a stored block. |
| `ApplyFeeds.ApplyEpochs` | crates/consumer/src/apply.rs:161-215 | The epoch loop folds every unskipped entry that passes its checks along the hash chain and stops at the first that does not. |
| `ApplyFeeds.ReplaceEpoch` | crates/consumer/src/apply.rs:182-204 | The generation rises exactly when some stored number and hash in the epoch's range does not survive. |
| `ApplyFeeds.ReplaceTail` | crates/consumer/src/apply.rs:221-260 | With a tail that starts no later than the block above the floor, the generation rises exactly when a stored tail block is lost. |
| `ApplyFeeds.EpochContradicts` | crates/consumer/src/apply.rs:187-190 | The epoch test holds exactly when some stored block is not listed with its hash. |
| `ApplyFeeds.TailContradicts` | crates/consumer/src/apply.rs:239-246 | The tail test holds exactly when a stored block is listed with another hash, or not at all at or above the tail's start. |
| `ApplyFeeds.TailBelowFloor` | crates/consumer/src/apply.rs:224-230 | A tail keeps every block at or below its floor exactly when each line down there repeats the stored hash. |
| `ApplyFeeds.TailRowsBelowFloor` | crates/consumer/src/apply.rs:224-260 | A tail keeps every row at or below its floor if and only if each line down there writes only what already survives there. |
| `ApplyFeeds.LowTailMasksReorg` | crates/consumer/src/apply.rs:218-260 | A tail that starts at its floor passes every check and replaces a final block without raising the generation: a concrete input. |
| `ApplyFeeds.LowTailRewritesRows` | crates/consumer/src/apply.rs:218-260 | A tail that repeats a final block's hash passes every check, loses nothing and changes a final row: a concrete input. |
| `ApplyFeeds.ColdStartFromSnapshot` | crates/consumer/src/apply.rs:287-399 | Only a snapshot file bound to the manifest, the feed identity, its epoch's hash and its epoch's end is installed. |
| `ApplyFeeds.PinnedForever` | crates/consumer/src/apply.rs:71-109 | Over every run of a new mirror, stops between the two pinning writes included, the first feed it meets fixes the pool for good, and the chain id exactly when it did not stop there; every later apply without an error came from a feed about what is fixed. |
| `ApplyFeeds.TwoChainsExactly` | crates/consumer/src/apply.rs:71-100 | With a pool pinned, feeds of two chains can both be folded if and only if no chain id is pinned. |
| `ApplyFeeds.StoppedPinTakesBoth` | crates/consumer/src/apply.rs:71-76 | A mirror stopped between the two writes folds feeds of two chains: a concrete run. |
| `ApplyFeeds.PinHolds` | crates/consumer/src/apply.rs:71-109 | With a pool pinned, no apply changes the identity, an apply without an error is about it, and any other feed writes no row; a chain id not pinned with the pool stays unpinned. |
| `ApplyFeeds.ApplyHead` | crates/consumer/src/apply.rs:218-268 | The tail is rebuilt wholesale above the floor, or refused when it starts beyond the next block. |
| `ApplyFeeds.GenerationGrows` | crates/consumer/src/apply.rs:10-15 | The generation never falls. |
| `SyncProtocol.NoStaleCursor` | crates/consumer/src/sync.rs:456-523 | In every run in which no owner has two sessions at once, with passes that read the mirror over time, whatever the interleaving and wherever sessions crash, an owner recorded under the current generation holds no live cursor computed over a block since lost. |
| `SyncProtocol.NoStaleCheckpoint` | crates/consumer/src/sync.rs:481-502 | In every run whatever, no checkpoint cursor was computed over a block since lost. |
| `SyncProtocol.SyncCompletes` | crates/consumer/src/sync.rs:461-523 | A session that is not interrupted leaves its owner recorded under the generation it read, with both live cursors computed over the whole mirror up to its head. |
| `SyncProtocol.TwoSessionsBreak` | crates/consumer/src/sync.rs:456-523 | A reachable run in which one owner has two sessions and ends with a stale live cursor under the current generation. |
| `SyncProtocol.TailIsFeedOp` | crates/consumer/src/apply.rs:218-260 | A tail at the floor is a range write of the protocol exactly when none of its lines lies at or below the floor. |
| `FeedRuns.ApplyIsFeedSteps` | crates/consumer/src/apply.rs:65-280 | Whatever one apply of an aligned feed writes, failed or not, is a run of the protocol's feed steps that ends at the floor the metadata then records. |
| `FeedRuns.ApplyExtendsRun` | crates/consumer/src/apply.rs:65-280 | An apply after any run of the protocol is a longer run of it. |
| `SyncProtocol.StepLive` | crates/consumer/src/sync.rs:461-523 | While no owner has two sessions, every store write, range write, read of a pass and crash keeps live cursors fresh under the current generation. |
| `SyncProtocol.StepFinal` | crates/consumer/src/sync.rs:481-502 | Whatever sessions there are, every step keeps checkpoint cursors over final blocks. |
| `SyncProtocol.FeedKeeps` | crates/consumer/src/apply.rs:182-260 | A range write changes no block at or below the epoch floor, and loses no block at all unless it raises the generation. |
| `SyncProtocol.WrittenLive` | crates/consumer/src/sync.rs:466-523 | Each write of a discovery session keeps its owner's record and the session consistent. |
| `Anchors.VerifyState` | crates/consumer/src/anchors.rs:137-172 | A checkpoint is recorded exactly when identity, bounds and the complete state's root match; otherwise the mirror is marked failed and the recorded checkpoint stays. |
| `Anchors.CompareRoot` | crates/consumer/src/anchors.rs:163-168 | The comparison succeeds exactly when the complete slot map at the block has the expected root. |
| `Engines.Engine.VerifiedMeansCommitted` | crates/wasm/src/lib.rs:103-162 | In every reachable state a verified checkpoint means the complete slot map at its block is the pool storage the trusted header commits to, or two preimages of one hash are at hand. |
| `Engines.GroundedMap` | crates/consumer/src/anchors.rs:135-172 | A slot map whose root an accepted proof authenticates is the committed storage, or a collision is at hand. |
| `Engines.Engine.StageCheckpoint` | crates/wasm/src/lib.rs:103-121 | Discovery is shut; a checkpoint becomes pending exactly when it names this chain and pool and its proof is accepted. |
| `Engines.Engine.Apply` | crates/wasm/src/lib.rs:122-162 | An apply succeeds exactly when a candidate folds and matches the pending checkpoint; a failed one changes nothing in the store, and a successful one installs the candidate. |
| `Engines.BuildCandidate` | crates/wasm/src/lib.rs:143-150 | The candidate is a fresh fork with the feed folded in; it is accepted exactly when it matches. |
| `Engines.Engine.Discover` | crates/wasm/src/lib.rs:207-220 | A pass runs only when the last staged checkpoint was applied, at that checkpoint, on its owner's rows only; a report under the same stamp is reused, a checkpoint below the last report's or another viewing key starts the owner over, and the revision moves exactly when the stamp does. |
| `Engines.Engine.ForgetOwner` | crates/wasm/src/lib.rs:256-262 | The owner's cursors, report and notes go, its recorded generation and every other owner stay, and the revision moves. |
| `Engines.FullResync` | crates/consumer/src/sync.rs:379-392 | Emptying the rows one by one leaves the owner without cursor, report or note, and with its recorded generation. |
| `Scan.ScanActiveBlocks` | crates/indexerd/src/ingest.rs:493-628 | Against every endpoint the scan terminates; success means exactly the chain's pool events of the range, each once, grouped by block; without a transport error it fails only on a one-block window answered with a token, on a full page or twice in a row. |
| `Scan.NextWindowLen` | crates/indexerd/src/ingest.rs:127-138 | The next window holds at least one block and at most the hard limit and eight windows. |
| `Scan.PredictsThreeQuarters` | crates/indexerd/src/ingest.rs:127-138 | At the density last seen the next window fills at most three quarters of a page, unless it is one block. |
| `Scan.TakePage` | crates/indexerd/src/ingest.rs:585-597 | A page's events are filed under their blocks in order, and events of other blocks or of none are dropped. |
| `Publication.Indexer.RunCycle` | crates/indexerd/src/ingest.rs:180-348 | Stored blocks are those that survive the rollback with every block up to the new frontier stored over them; whatever endpoints answer and wherever it fails, the recorded L1 height does not fall, what lies at or below the last published epoch's end is kept if and only if no block taken repeats the hash of a block stored there, and then published epochs stay what the database would cut; a fetched header that is not the announced one stops it before any write. |
| `Publication.PublishedKept` | crates/indexerd/src/db.rs:403-476 | A rollback and an ingestion above a block keep everything at or below it if and only if no block taken repeats a hash stored there. |
| `Publication.LowBlock` | crates/indexerd/src/db.rs:403-476 | A stored block below an ingestion stays, unchanged, if and only if no block taken repeats its hash. |
| `Publication.RepeatedHashErases` | crates/indexerd/src/db.rs:26-26 | A published block is erased by the next one repeating its hash: a concrete run of two cycles and a cut. |
| `Publication.L1Rejection` | crates/indexerd/src/ingest.rs:94-125 | An answer passes exactly when it is not labelled unfinalized and lies between the recorded height, the genesis block and the latest block. |
| `Publication.WalkDownMeans` | crates/indexerd/src/ingest.rs:440-473 | The walk ends at the highest stored block that is final or still on the chain, or at the last published epoch's end; a fork means that no stored block above it was answered by a failure, and only a failure makes the walk unreachable. |
| `Publication.WalkBack` | crates/indexerd/src/ingest.rs:455-472 | The loop over stored blocks computes that walk. |
| `Publication.Indexer.DetectReorg` | crates/indexerd/src/ingest.rs:412-473 | A head the announced header continues, or the chain still has, is no reorg; otherwise the walk decides, and a failed answer is neither. |
| `Publication.NeverBelowEpochs` | crates/indexerd/src/ingest.rs:438-442 | A fork never lies below the last published epoch, so no rollback deletes a block inside one. |
| `Publication.Indexer.RollbackAbove` | crates/indexerd/src/db.rs:366-396 | Every block above the ancestor goes, no other does, and the frontier is lowered to it. |
| `Publication.Indexer.PollL1` | crates/indexerd/src/ingest.rs:239-268 | The recorded height is the accepted answer or stays, and never falls. |
| `Publication.Indexer.Ingest` | crates/indexerd/src/ingest.rs:285-323 | Exactly the blocks above the old frontier and up to the new one were stored, each replacing the block of its number or hash, the frontier never falls, and it succeeds exactly when every block could be fetched, leaving the frontier at the latest block. |
| `Publication.Indexer.CutReadyEpochs` | crates/indexerd/src/cutter.rs:461-548 | Epochs are appended gaplessly up to the recorded L1 height and the frontier, each built on its predecessor's hash, until the next one is not ready; without a recorded height or a frontier one is cut if and only if none is and the first epoch is block zero alone. |
| `Publication.Indexer.NoHeightNoEpoch` | crates/indexerd/src/cutter.rs:461-480 | Without a recorded L1 height, or without a frontier, no epoch is published but that of block zero alone. |
| `Publication.CutBeforeFinality` | crates/indexerd/src/ingest.rs:273-273 | A missing height counts as zero: an empty indexer with one-block epochs from block zero cuts one. |
| `Publication.EpochRange` | crates/indexerd/src/config.rs:113-116 | An epoch covers its index times the size up to the next multiple less one. |
| `Publication.AppendRow` | crates/indexerd/src/cutter.rs:467-537 | One more row built on the last row's hash keeps the ranges gapless and the chain of hashes intact. |
| `Publication.CurrentKept` | crates/indexerd/src/cutter.rs:146-162 | Published hashes depend only on content at or below the last epoch's end. |
| `Publication.Indexer.RecutEpochsFrom` | crates/indexerd/src/cutter.rs:591-741 | From any rows in index order, whatever heights are recorded, a re-cut that succeeds or refuses because nothing differs leaves every row's hash that of its epoch rebuilt on the preceding row's hash; it succeeds exactly when nothing below is stale and something is; a refusal writes nothing. |
| `Publication.AdviceAccepted` | crates/indexerd/src/cutter.rs:631-644 | Re-cutting from the epoch a stale-below refusal names is accepted. |
| `Publication.Indexer.FindStale` | crates/indexerd/src/cutter.rs:631-644 | The scan reports the lowest stale epoch below the named one, or that there is none. |
| `Publication.Indexer.Rewrite` | crates/indexerd/src/cutter.rs:645-740 | Nothing is written until an epoch differs; from there every row is rebuilt and snapshots from the named epoch on are withdrawn. |
| `Publication.RewriteStep` | crates/indexerd/src/cutter.rs:659-723 | One iteration extends the rebuilt prefix by a row and writes nothing until an epoch differs, so a run stopped between iterations leaves a consistent prefix. |
| `RootCaches.Connection.StorageRootAt` | crates/indexerd/src/db.rs:557-582 | The root is always the one recomputed from the full slot set at that height, reused or not. |
| `RootCaches.Connection.Reusable` | crates/indexerd/src/db.rs:566-576 | A cached root is reused only where it equals the recomputed one. |
| `RootCaches.SameSet` | crates/indexerd/src/db.rs:567-570 | Heights with no write between them have the same slot set. |
| `RootCaches.Connection.StaysValid` | crates/indexerd/src/db.rs:37-53 | Writes through any other connection leave the cached entry right for its own revision. |
| `RootCaches.Db.InsertBlockData` | crates/indexerd/src/db.rs:403-476 | Replacing a block, or one with the same hash, drops its rows, the new diffs are upserted, every row references a stored block, and the revision moves whenever the rows change. |
| `RootCaches.Db.RollbackAbove` | crates/indexerd/src/db.rs:366-396 | The rows of every block above the ancestor go with it, and the revision moves whenever the rows change. |
| `RootCaches.RootAtUnique` | crates/indexerd/src/db.rs:538-554 | The recomputed root does not depend on the order rows are listed in. |
| `HeadDeltas.StreamTo` | crates/indexerd/src/live.rs:304-358 | For every sequence of observed heads, a subscriber applying the events holds exactly the bytes of the last head sent, or was told to resync, after every iteration. |
| `HeadDeltas.UpdateRebuilds` | crates/indexerd/src/live.rs:276-298 | Applying an update to the previous head gives the next one byte for byte, and a delta appends whole lines only. |
| `HeadDeltas.HeadParts` | crates/indexerd/src/live.rs:268-274 | The parts join to the payload: one first line, whole lines, one last line. |
| `HeadDeltas.SplitsUnique` | crates/indexerd/src/live.rs:268-274 | A payload splits wherever it is cut into a first line, whole lines and a last line. |

## Left out

- HTTP, SSE and WebSocket transport, timeouts, logging, the command line and configuration: endpoints are parameters.
- Hexadecimal, JSON and zstd decoding, and SHA-256: inputs are parsed records and payload digests are fields.
- The cryptographic strength of Pedersen and Poseidon: results name a collision instead.
- The discovery engine and note decryption: a pass is an opaque function of the mirror at a bound and a cursor.
- Event contents and block timestamps: they are stored beside the rows modelled and read by no property here; events appear by their index.
- The class an epoch's footer names in `EpochBuilds`: no client check reads it, and `Publication` covers its part in an epoch's hash.
- The SQLite text: tables are maps, a transaction is one method call, and triggers are part of each mutator.
- `reset_mirror`, `mirror_pull` and rescans above the frontier: they set state outside the run invariants.
- Crash points inside one re-cut iteration, between file, row and manifest.
- Anchor logs, proof sidecars, the publication latch after a root mismatch and snapshot grounding.
- `SyncProtocol.NoStaleCursor`: one session per owner at a time is a hypothesis, because without it the property fails.
- The proof that binds a walk's seed to a block header: the chain root a walk starts from is taken to be the chain's.
- The mirror's cache file around the encoded trie: cached data is trusted and local.
- The note registry and its pruning: notes are private rows beside the cursors.
- Header fields, version and file names of a snapshot beyond those that bind it to the feed.
- The error kinds of a refused snapshot: all its binding checks refuse alike in `ApplyFeeds`.
- The lists of rewritten and current epochs in a re-cut's report, and the header fields of a walk's report.
- The text of the SDK's cached discovery report and its per-note first-seen rows: its stamp, its block and the gate in front of it are modelled.
- A discovery pass that fails half way: `Engines` models passes that finish, `SyncProtocol` those that crash.
- `EpochBuilds.ReplayIsDatabase`: takes the database to hold no storage row below the first epoch, where the pool is not deployed yet.
- `Publication`: an epoch's content is one function of the stored blocks of its range, whose lines `EpochBuilds` models in full.
- `TrieCodec.RoundTrip`: covers encoded trees; a decoded key of more than 251 bits is read through its low bits, where the code keeps all 32 bytes.
- `Engines.Engine.Apply`: an engine loaded from a cache is outside its claim, because a cache is trusted local data.
- `ApplyFeeds.ReplaceTail`: does not claim that lines at or below the floor are noticed, because the code does not look there.
