/** `verify_state` of `crates/consumer/src/anchors.rs`: compare a complete mirrored state with
    an authenticated storage root. */
module Anchors {
  import opened Felts
  import opened Mpt
  import opened MirrorLog
  import opened MemStores
  import opened CachedTries
  import opened Checkpoint
  import opened ApplyFeeds

  datatype AnchorError = BoundBelowSnapshot | CheckpointAhead | WrongChain | WrongPool | StateMismatch | BadSlotSet

  /** The checks before the root comparison, in the source's order. */
  function AnchorRefusal(meta: Meta, cp: TrustedCheckpoint): Option<AnchorError> {
    if meta.snapshotBasis.Some? && cp.blockNumber < meta.snapshotBasis.value then Some(BoundBelowSnapshot)
    else if cp.blockNumber > (if meta.headNumber.Some? then meta.headNumber.value else 0) then Some(CheckpointAhead)
    else if meta.chainId != Some(cp.chainId) then Some(WrongChain)
    else if meta.pool != Some(cp.pool) then Some(WrongPool)
    else None
  }

  /** A complete slot map has one root. */
  lemma OneRoot(h: Hasher, ops: seq<Op>, block: Block, root: Felt, expected: Felt)
    requires RootIs(h, ops, block, root) && RootIs(h, ops, block, expected)
    ensures root == expected
  {
    RootOf(h, ops, block, root);
    RootOf(h, ops, block, expected);
  }

  lemma NoRoot(h: Hasher, ops: seq<Op>, block: Block, root: Felt, slot: Felt)
    requires Read(ops, slot, block).0 != 0 && !IsTrieKey(slot)
    ensures !RootIs(h, ops, block, root)
  {
    RootOf(h, ops, block, root);
    assert slot in SlotSet(ops, block);
  }

  /** Recompute the root of the complete state at `block` and compare it. */
  method CompareRoot(store: MemStore, block: Block, expected: Felt) returns (error: Option<AnchorError>)
    requires store.Valid()
    modifies store.trie
    ensures store.Valid()
    ensures error.None? <==> RootIs(store.trie.h, store.ops, block, expected)
    ensures error.Some? ==> error.value.BadSlotSet? || error.value.StateMismatch?
  {
    var root := store.StorageRootAt(block);
    if root.Rejected? {
      ghost var slot :| Read(store.ops, slot, block).0 != 0 && !IsTrieKey(slot);
      NoRoot(store.trie.h, store.ops, block, expected, slot);
      return Some(BadSlotSet);
    }
    if root.root != expected {
      if RootIs(store.trie.h, store.ops, block, expected) {
        OneRoot(store.trie.h, store.ops, block, root.root, expected);
      }
      return Some(StateMismatch);
    }
    error := None;
  }

  /** Nothing refuses the checkpoint, and the complete slot map at its block has the root. */
  ghost predicate Grounds(h: Hasher, meta: Meta, ops: seq<Op>, cp: TrustedCheckpoint, root: Felt) {
    match AnchorRefusal(meta, cp)
    case Some(_) => false
    case None => RootIs(h, ops, cp.blockNumber, root)
  }

  /** The failure mark is no part of what the checks look at. */
  lemma MarkIgnored(h: Hasher, meta: Meta, ops: seq<Op>, cp: TrustedCheckpoint, root: Felt, failed: Option<bool>)
    ensures AnchorRefusal(meta.(verificationFailed := failed), cp) == AnchorRefusal(meta, cp)
    ensures Grounds(h, meta.(verificationFailed := failed), ops, cp, root) == Grounds(h, meta, ops, cp, root)
  {
  }

  /** The checks on the mirror, and then its complete state against the root. */
  method CheckState(store: MemStore, cp: TrustedCheckpoint, expected: Felt) returns (error: Option<AnchorError>)
    requires store.Valid()
    modifies store.trie
    ensures store.Valid()
    ensures error.None? <==> Grounds(store.trie.h, store.meta, store.ops, cp, expected)
    ensures AnchorRefusal(store.meta, cp).Some? ==> error == AnchorRefusal(store.meta, cp)
  {
    error := AnchorRefusal(store.meta, cp);
    if error.None? {
      error := CompareRoot(store, cp.blockNumber, expected);
    }
  }

  /** Mark the mirror failed, check, and only then record the checkpoint. */
  method VerifyState(store: MemStore, cp: TrustedCheckpoint, expected: Felt) returns (error: Option<AnchorError>)
    requires Tracked(store)
    modifies store`meta, store.trie
    ensures Tracked(store)
    ensures error.None? <==> Grounds(store.trie.h, old(store.meta), store.ops, cp, expected)
    ensures AnchorRefusal(old(store.meta), cp).Some? ==> error == AnchorRefusal(old(store.meta), cp)
    ensures store.meta == old(store.meta).(
      verificationFailed := Some(error.Some?),
      verifiedCheckpoint := if error.None? then Some(cp) else old(store.meta.verifiedCheckpoint))
  {
    MarkIgnored(store.trie.h, store.meta, store.ops, cp, expected, Some(true));
    store.meta := store.meta.(verificationFailed := Some(true));
    error := CheckState(store, cp, expected);
    if error.Some? {
      return;
    }
    store.meta := store.meta.(verifiedCheckpoint := Some(cp));
    store.meta := store.meta.(verificationFailed := Some(false));
  }
}

/** The browser `Engine` of `crates/wasm/src/lib.rs`: stage public bytes, authenticate a
    checkpoint, fold a candidate copy, and gate discovery on the outcome. */
module Engines {
  import opened Felts
  import opened Mpt
  import opened MirrorLog
  import opened MemStores
  import opened CachedTries
  import opened Checkpoint
  import opened ApplyFeeds
  import opened Anchors
  import SyncProtocol

  datatype Manifest = Manifest(chainId: string, epochs: seq<ManifestEpoch>, snapshot: Option<ManifestSnapshot>)

  /** What the host has pushed so far. */
  datatype Staged = Staged(manifest: Option<Manifest>, epochs: map<nat, EpochFile>, snapshots: map<nat, SnapshotFile>, head: Option<HeadFile>)

  datatype EngineError =
    | WrongCheckpoint
    | CheckpointRefused(checkpoint: CheckpointError)
    | CheckpointRequired
    | NotStaged
    | SnapshotTooNew
    | ConfigInvalid
    | ApplyFailed(apply: ApplyError)
    | StateRefused(anchor: AnchorError)
    | CheckpointFailed

  /** The staged bytes as a feed; a head already applied counts as unchanged. */
  function StagedFeed(genesis: Genesis, manifest: Manifest, staged: Staged, etag: Option<string>): Feed {
    var epochs, snapshots := staged.epochs, staged.snapshots;
    Feed(genesis, manifest.chainId, manifest.epochs, manifest.snapshot,
         e => if e in epochs then Some(epochs[e]) else None,
         e => if e in snapshots then Some(snapshots[e]) else None,
         if staged.head.None? || etag == Some(staged.head.value.etag) then NotModified else Head(staged.head.value))
  }

  /** What the store holds of one owner: the fingerprint of the viewing key, the protocol's
      record, the stamp and block of the last report, and the notes. */
  datatype OwnerRows = OwnerRows(key: Option<nat>, record: SyncProtocol.Record, stamp: Option<(Felt, nat, nat)>, block: nat, notes: set<Felt>)

  function RowsFor(owners: map<Felt, OwnerRows>, owner: Felt): OwnerRows {
    if owner in owners then owners[owner] else OwnerRows(None, SyncProtocol.NEW_OWNER, None, 0, {})
  }

  /** No cursor, no report and no note; the key and the recorded generation stay. */
  function Forgotten(was: OwnerRows): OwnerRows {
    OwnerRows(was.key, SyncProtocol.Record(was.record.gen, None, None, None, None, None), None, 0, {})
  }

  /** `full_resync`, one write after the other. */
  method FullResync(was: OwnerRows) returns (rows: OwnerRows)
    ensures rows == Forgotten(was)
  {
    rows := was.(record := SyncProtocol.Emptied(was.record, SyncProtocol.RowLiveIn));
    rows := rows.(record := SyncProtocol.Emptied(rows.record, SyncProtocol.RowCkptIn));
    rows := rows.(record := SyncProtocol.Emptied(rows.record, SyncProtocol.RowCkptAt));
    rows := rows.(record := SyncProtocol.Emptied(rows.record, SyncProtocol.RowLiveOut));
    rows := rows.(record := SyncProtocol.Emptied(rows.record, SyncProtocol.RowCkptOut));
    rows := rows.(stamp := None);
    rows := rows.(block := 0);
    rows := rows.(notes := {});
  }

  /** What a pass leaves of an owner's record and notes, at a checkpoint and from its rows. */
  type OwnerPass = (TrustedCheckpoint, OwnerRows) -> (SyncProtocol.Record, set<Felt>)

  /** The rows a pass starts from: none of another key's, and none read above the checkpoint. */
  function StartsFrom(was: OwnerRows, cp: TrustedCheckpoint, key: nat): OwnerRows {
    if cp.blockNumber < was.block || was.key != Some(key) then Forgotten(was).(key := Some(key)) else was
  }

  /** The owner's rows after a report at the checkpoint; a report under the same stamp, which
      names the block, the generation and the key, is reused. */
  function Reported(was: OwnerRows, cp: TrustedCheckpoint, stamp: (Felt, nat, nat), pass: OwnerPass): OwnerRows {
    if was.stamp == Some(stamp) then was
    else
      var (record, notes) := pass(cp, StartsFrom(was, cp, stamp.2));
      OwnerRows(Some(stamp.2), record, Some(stamp), cp.blockNumber, notes)
  }

  /** A pass never sees a cursor, a note or a report made under another viewing key. */
  lemma OtherKeyForgotten(was: OwnerRows, cp: TrustedCheckpoint, stamp: (Felt, nat, nat), pass: OwnerPass)
    requires was.key != Some(stamp.2) && was.stamp != Some(stamp)
    ensures Reported(was, cp, stamp, pass) == Reported(OwnerRows(None, SyncProtocol.NEW_OWNER.(gen := was.record.gen), None, 0, {}), cp, stamp, pass)
  {
  }

  method Report(was: OwnerRows, cp: TrustedCheckpoint, stamp: (Felt, nat, nat), pass: OwnerPass) returns (rows: OwnerRows)
    ensures rows == Reported(was, cp, stamp, pass)
  {
    rows := was;
    if rows.stamp == Some(stamp) {
      return;
    }
    if cp.blockNumber < rows.block {
      rows := FullResync(rows);
    }
    if rows.key != Some(stamp.2) {
      rows := FullResync(rows);
      rows := rows.(key := Some(stamp.2));
    }
    var (record, notes) := pass(cp, rows);
    rows := OwnerRows(rows.key, record, Some(stamp), cp.blockNumber, notes);
  }

  /** The 32-bit revision counter wraps. */
  function Next(revision: nat): nat {
    (revision + 1) % 0x1_0000_0000
  }

  /** A snapshot start that would begin above the checkpoint. */
  predicate TooNew(snapshot: Option<ManifestSnapshot>, cp: TrustedCheckpoint, coldStart: string) {
    snapshot.Some? && coldStart != "epochs" && snapshot.value.block > cp.blockNumber
  }

  function Mode(coldStart: string): Option<ColdStartMode> {
    if coldStart == "epochs" then Some(FromEpochs)
    else if coldStart == "snapshot" then Some(FromSnapshot)
    else if coldStart == "auto" then Some(Auto)
    else None
  }

  /** `proof` authenticates, for the checkpoint, the root of the store's complete slot map at
      the checkpoint's block. */
  ghost predicate Grounded(h: Hasher, ops: seq<Op>, cp: TrustedCheckpoint, proof: Option<Proof>) {
    && proof.Some? && VerifyCheckpoint(h, cp, proof.value).Root?
    && RootIs(h, ops, cp.blockNumber, VerifyCheckpoint(h, cp, proof.value).root)
  }

  /** The candidate would fold without error and match the authenticated root. */
  ghost predicate Matches(h: Hasher, feed: Feed, mode: ColdStartMode, ops: seq<Op>, meta: Meta, empty: bool, cp: TrustedCheckpoint, root: Felt) {
    var plan := PlanFeed(feed, mode, meta, empty);
    plan.error.None? && Grounds(h, plan.meta, ops + plan.ops, cp, root)
  }

  /** Fold a fork of the store and compare its complete state with the authenticated root. */
  method BuildCandidate(store: MemStore, feed: Feed, mode: ColdStartMode, cp: TrustedCheckpoint, root: Felt)
    returns (candidate: MemStore, error: Option<EngineError>)
    requires Tracked(store)
    ensures fresh(candidate) && fresh(candidate.trie) && Tracked(candidate) && candidate.trie.h == store.trie.h
    ensures candidate.ops == store.ops + PlanFeed(feed, mode, store.meta, IsEmpty(store)).ops
    ensures error.None? <==> Matches(store.trie.h, feed, mode, store.ops, store.meta, IsEmpty(store), cp, root)
    ensures error.None? ==> candidate.meta.verifiedCheckpoint == Some(cp) && candidate.meta.verificationFailed == Some(false)
  {
    candidate := new MemStore.Fork(store);
    var applied := ApplyFeed(candidate, feed, mode);
    if applied.Failed? {
      return candidate, Some(ApplyFailed(applied.error));
    }
    var refused := VerifyState(candidate, cp, root);
    error := if refused.Some? then Some(StateRefused(refused.value)) else None;
  }

  /** The checkpoint is about this chain and pool, and `proof` authenticates the root for it. */
  ghost predicate Authentic(h: Hasher, genesis: Genesis, cp: TrustedCheckpoint, root: Felt, proof: Option<Proof>) {
    && proof.Some? && cp.chainId == genesis.chainId && cp.pool == genesis.pool
    && VerifyCheckpoint(h, cp, proof.value) == Checked.Root(root)
  }

  /** What is pending was authenticated. */
  ghost predicate PendingOk(h: Hasher, genesis: Genesis, pending: Option<(TrustedCheckpoint, Felt)>, proof: Option<Proof>) {
    match pending
    case None => true
    case Some(p) => Authentic(h, genesis, p.0, p.1, proof)
  }

  /** A verified checkpoint is grounded in the log. */
  ghost predicate VerifiedOk(h: Hasher, ops: seq<Op>, verified: Option<TrustedCheckpoint>, proof: Option<Proof>) {
    match verified
    case None => true
    case Some(cp) => Grounded(h, ops, cp, proof)
  }

  lemma AuthenticGrounds(h: Hasher, genesis: Genesis, cp: TrustedCheckpoint, root: Felt, proof: Option<Proof>, ops: seq<Op>)
    requires PendingOk(h, genesis, Some((cp, root)), proof) && RootIs(h, ops, cp.blockNumber, root)
    ensures VerifiedOk(h, ops, Some(cp), proof)
  {
  }

  class Engine {
    const h: Hasher
    const genesis: Genesis
    var store: MemStore
    var staged: Staged
    var pending: Option<(TrustedCheckpoint, Felt)>
    var failed: bool
    var revision: nat
    var owners: map<Felt, OwnerRows>
    ghost var pendingProof: Option<Proof>
    ghost var proof: Option<Proof>

    /** The store counts its losing writes; what is pending was authenticated; and a verified
        checkpoint in the store is grounded. */
    ghost predicate Valid()
      reads this`store, this`pending, this`pendingProof, this`proof, store, store.trie
    {
      && Tracked(store) && store.trie.h == h
      && PendingOk(h, genesis, pending, pendingProof)
      && VerifiedOk(h, store.ops, store.meta.verifiedCheckpoint, proof)
    }

    constructor (h: Hasher, genesis: Genesis)
      ensures Valid() && fresh(store) && fresh(store.trie)
      ensures store.ops == [] && pending.None? && !failed && store.meta.verifiedCheckpoint.None?
    {
      this.h, this.genesis := h, genesis;
      store := new MemStore(h);
      staged := Staged(None, map[], map[], None);
      pending, failed, revision, owners := None, false, 0, map[];
      pendingProof, proof := None, None;
    }

    method StageManifest(manifest: Manifest)
      requires Valid()
      modifies this`staged
      ensures Valid() && staged == old(staged).(manifest := Some(manifest))
    {
      staged := staged.(manifest := Some(manifest));
    }

    method StageEpoch(e: nat, file: EpochFile)
      requires Valid()
      modifies this`staged
      ensures Valid() && staged == old(staged).(epochs := old(staged.epochs)[e := file])
    {
      staged := staged.(epochs := staged.epochs[e := file]);
    }

    method StageSnapshot(e: nat, file: SnapshotFile)
      requires Valid()
      modifies this`staged
      ensures Valid() && staged == old(staged).(snapshots := old(staged.snapshots)[e := file])
    {
      staged := staged.(snapshots := staged.snapshots[e := file]);
    }

    method StageHead(file: HeadFile)
      requires Valid()
      modifies this`staged
      ensures Valid() && staged == old(staged).(head := Some(file))
    {
      staged := staged.(head := Some(file));
    }

    /** Authenticate a checkpoint. Discovery stays shut until an apply succeeds against it. */
    method StageCheckpoint(cp: TrustedCheckpoint, answer: Proof) returns (error: Option<EngineError>)
      requires Valid()
      modifies this`failed, this`pending, this`pendingProof
      ensures Valid() && failed
      ensures error.None? <==> cp.chainId == genesis.chainId && cp.pool == genesis.pool && VerifyCheckpoint(h, cp, answer).Root?
      ensures pending == if error.None? then Some((cp, VerifyCheckpoint(h, cp, answer).root)) else None
    {
      failed := true;
      pending := None;
      if cp.chainId != genesis.chainId || cp.pool != genesis.pool {
        return Some(WrongCheckpoint);
      }
      var checked := VerifyCheckpoint(h, cp, answer);
      if checked.Refused? {
        return Some(CheckpointRefused(checked.error));
      }
      pending, pendingProof := Some((cp, checked.root)), Some(answer);
      error := None;
    }

    /** The staged feed, as an apply of this engine reads it. */
    function Pushed(): Feed
      requires staged.manifest.Some?
      reads this`staged, this`store, store
    {
      StagedFeed(genesis, staged.manifest.value, staged, store.meta.headEtag)
    }

    /** What an apply needs to succeed: an authenticated checkpoint, a manifest whose snapshot
        is not newer, a known mode, and a matching candidate. */
    ghost predicate Accepts(coldStart: string)
      reads this`pending, this`staged, this`store, store
    {
      && pending.Some? && staged.manifest.Some? && Mode(coldStart).Some?
      && !(IsEmpty(store) && TooNew(staged.manifest.value.snapshot, pending.value.0, coldStart))
      && Matches(h, Pushed(), Mode(coldStart).value, store.ops, store.meta, IsEmpty(store), pending.value.0, pending.value.1)
    }

    /** The checks of an apply, and the candidate they admit. */
    method TryApply(coldStart: string) returns (candidate: MemStore?, error: Option<EngineError>)
      requires Tracked(store) && store.trie.h == h
      ensures error.None? <==> Accepts(coldStart)
      ensures error.None? ==> && candidate != null && fresh(candidate) && fresh(candidate.trie)
                              && Tracked(candidate) && candidate.trie.h == h
                              && candidate.meta.verifiedCheckpoint == Some(pending.value.0)
                              && RootIs(h, candidate.ops, pending.value.0.blockNumber, pending.value.1)
                              && candidate.ops == store.ops + PlanFeed(Pushed(), Mode(coldStart).value, store.meta, IsEmpty(store)).ops
    {
      candidate := null;
      if pending.None? {
        return candidate, Some(CheckpointRequired);
      }
      if staged.manifest.None? {
        return candidate, Some(NotStaged);
      }
      if IsEmpty(store) && TooNew(staged.manifest.value.snapshot, pending.value.0, coldStart) {
        return candidate, Some(SnapshotTooNew);
      }
      if Mode(coldStart).None? {
        return candidate, Some(ConfigInvalid);
      }
      candidate, error := BuildCandidate(store, Pushed(), Mode(coldStart).value, pending.value.0, pending.value.1);
    }

    /** The candidate becomes the store; the staged bodies are released. */
    method Adopt(candidate: MemStore)
      requires Tracked(candidate) && candidate.trie.h == h
      requires PendingOk(h, genesis, pending, pendingProof)
      requires VerifiedOk(h, candidate.ops, candidate.meta.verifiedCheckpoint, pendingProof)
      modifies this`store, this`proof, this`revision, this`failed, this`staged
      ensures Valid()
      ensures store == candidate && !failed && revision == Next(old(revision)) && proof == pendingProof
      ensures staged == old(staged).(epochs := map[], snapshots := map[])
    {
      store, proof := candidate, pendingProof;
      revision := Next(revision);
      failed := false;
      staged := staged.(epochs := map[], snapshots := map[]);
    }

    /** Fold a candidate copy. Only a candidate whose complete state matches the pending
        checkpoint replaces the store; anything else leaves the store as it was. */
    method Apply(coldStart: string) returns (error: Option<EngineError>)
      requires Valid()
      modifies this`store, this`proof, this`revision, this`failed, this`staged
      ensures Valid()
      ensures error.None? <==> old(Accepts(coldStart))
      ensures error.Some? ==> store == old(store) && failed && revision == old(revision) && staged == old(staged) && proof == old(proof)
      ensures error.None? ==> && !failed && revision == Next(old(revision)) && proof == pendingProof
                              && store.meta.verifiedCheckpoint == Some(pending.value.0)
                              && staged == old(staged).(epochs := map[], snapshots := map[])
      ensures error.None? ==> store.ops == old(store.ops + PlanFeed(Pushed(), Mode(coldStart).value, store.meta, IsEmpty(store)).ops)
    {
      failed := true;
      var candidate;
      candidate, error := TryApply(coldStart);
      if error.None? {
        AuthenticGrounds(h, genesis, pending.value.0, pending.value.1, pendingProof, candidate.ops);
        Adopt(candidate);
      }
    }

    /** Report to one owner at a checkpoint; the revision moves exactly when the stamp does. */
    method ReportTo(owner: Felt, cp: TrustedCheckpoint, stamp: (Felt, nat, nat), pass: OwnerPass)
      modifies this`revision, this`owners
      ensures owners == old(owners)[owner := Reported(RowsFor(old(owners), owner), cp, stamp, pass)]
      ensures revision == if owners[owner].stamp == RowsFor(old(owners), owner).stamp then old(revision) else Next(old(revision))
    {
      var was := RowsFor(owners, owner);
      var rows := Report(was, cp, stamp, pass);
      owners := owners[owner := rows];
      if rows.stamp != was.stamp {
        revision := Next(revision);
      }
    }

    /** The gate in front of discovery: a pass runs only over a mirror whose last staged
        checkpoint was applied, at that checkpoint's block, and touches its owner's rows only; the
        revision moves exactly when the owner's stamp does. */
    method Discover(owner: Felt, key: nat, pass: OwnerPass) returns (r: Option<TrustedCheckpoint>)
      requires Valid()
      modifies this`revision, this`owners
      ensures Valid()
      ensures r == if failed || store.meta.verificationFailed == Some(true) then None else store.meta.verifiedCheckpoint
      ensures r.None? ==> owners == old(owners) && revision == old(revision)
      ensures r.Some? ==> owners == old(owners)[owner := Reported(RowsFor(old(owners), owner), r.value, (r.value.blockHash, store.generation, key), pass)]
      ensures r.Some? ==> revision == if owners[owner].stamp == RowsFor(old(owners), owner).stamp then old(revision) else Next(old(revision))
    {
      if failed || store.meta.verificationFailed == Some(true) || store.meta.verifiedCheckpoint.None? {
        return None;
      }
      r := store.meta.verifiedCheckpoint;
      ReportTo(owner, r.value, (r.value.blockHash, store.generation, key), pass);
    }

    /** The owner's cursors, report and notes go; its generation and every other owner stay. */
    method ForgetOwner(owner: Felt)
      requires Valid()
      modifies this`revision, this`owners
      ensures Valid() && revision == Next(old(revision))
      ensures owners == old(owners)[owner := Forgotten(RowsFor(old(owners), owner))]
    {
      revision := Next(revision);
      var rows := FullResync(RowsFor(owners, owner));
      owners := owners[owner := rows];
    }

    /** In every state an engine built here can reach, a verified checkpoint means that the
        complete slot map at its block is the pool storage the trusted header commits to, slot
        for slot, or two preimages of one hash are at hand. */
    lemma VerifiedMeansCommitted(w: World, mirror: Slots)
      requires Valid() && store.meta.verifiedCheckpoint.Some?
      requires WfWorld(w) && Commits(h, store.meta.verifiedCheckpoint.value, w)
      requires MapAt(store.ops, store.meta.verifiedCheckpoint.value.blockNumber, mirror)
      ensures || (w.pool.Some? && mirror == w.pool.value.storage)
              || (proof.Some? && Broken(h, proof.value, w))
              || (w.pool.Some? && WfSlots(mirror) && HasCollision(h, TrieNodes(h, mirror) + TrieNodes(h, w.pool.value.storage)))
    {
      GroundedMap(h, store.ops, store.meta.verifiedCheckpoint.value, proof, w, mirror);
    }
  }

  lemma GroundedMap(h: Hasher, ops: seq<Op>, cp: TrustedCheckpoint, proof: Option<Proof>, w: World, mirror: Slots)
    requires Grounded(h, ops, cp, proof) && WfWorld(w) && Commits(h, cp, w) && MapAt(ops, cp.blockNumber, mirror)
    ensures || (w.pool.Some? && mirror == w.pool.value.storage)
            || Broken(h, proof.value, w)
            || (w.pool.Some? && WfSlots(mirror) && HasCollision(h, TrieNodes(h, mirror) + TrieNodes(h, w.pool.value.storage)))
  {
    var slots :| MapAt(ops, cp.blockNumber, slots) && WfSlots(slots) && VerifyCheckpoint(h, cp, proof.value).root == HashAt(h, slots, []);
    MapAtUnique(ops, cp.blockNumber, slots, mirror);
    GroundedSet(h, cp, proof.value, w, mirror);
  }
}
