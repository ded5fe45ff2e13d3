/** A mirror cold-started from the published snapshot cannot be told apart, at or above the
    snapshot's basis, from one that replayed every epoch: right after the first apply, and
    after every later apply of whatever the feed then publishes. */
module MirrorAgreement {
  import opened Felts
  import opened Mpt
  import opened MirrorLog
  import opened MemStores
  import opened ApplyFeeds
  import opened ColdStart
  import opened SnapshotBuild
  import opened EpochBuilds

  // --------------------------------------------------------- the first apply

  /** Every listed epoch can be fetched and passes its checks along the hash chain. */
  ghost predicate Published(feed: Feed) {
    && (forall i :: 0 <= i < |feed.epochs| ==> feed.fetchEpoch(feed.epochs[i].e).Some?)
    && (forall i, j :: 0 <= i < j < |feed.epochs| ==> feed.epochs[i].e < feed.epochs[j].e)
  }

  function FileOf(feed: Feed, entry: ManifestEpoch): Epoch
    requires feed.fetchEpoch(entry.e).Some?
  {
    Epoch(entry.from, entry.to, feed.fetchEpoch(entry.e).value.lines)
  }

  /** The epoch files behind manifest entries. */
  function Files(feed: Feed, entries: seq<ManifestEpoch>): seq<Epoch>
    requires forall i :: 0 <= i < |entries| ==> feed.fetchEpoch(entries[i].e).Some?
  {
    seq(|entries|, i requires 0 <= i < |entries| => FileOf(feed, entries[i]))
  }

  lemma {:induction false} ReplayFirst(e: Epoch, rest: seq<Epoch>)
    ensures Replay([e] + rest) == [Replace(Inclusive(e.from, e.to), e.lines)] + Replay(rest)
  {
    var all := [e] + rest;
    if rest == [] {
      assert all == [e] && all[..0] == [];
    } else {
      assert all[..|all| - 1] == [e] + rest[..|rest| - 1];
      ReplayFirst(e, rest[..|rest| - 1]);
    }
  }

  /** A successful epoch loop over entries it does not skip is their replay. */
  lemma {:induction false} PlanIsReplay(feed: Feed, entries: seq<ManifestEpoch>, meta: Meta)
    requires forall i :: 0 <= i < |entries| ==> feed.fetchEpoch(entries[i].e).Some? && !Skips(meta, entries[i])
    requires forall i, j :: 0 <= i < j < |entries| ==> entries[i].e < entries[j].e
    requires PlanEpochs(feed, entries, meta).error.None?
    ensures PlanEpochs(feed, entries, meta).ops == Replay(Files(feed, entries))
    ensures PlanEpochs(feed, entries, meta).meta == if entries == [] then meta else WithEpoch(meta, entries[|entries| - 1])
    decreases |entries|
  {
    if entries != [] {
      var rest := entries[1..];
      PlanIsReplay(feed, rest, WithEpoch(meta, entries[0]));
      assert Files(feed, entries) == [FileOf(feed, entries[0])] + Files(feed, rest);
      ReplayFirst(FileOf(feed, entries[0]), Files(feed, rest));
    }
  }

  /** The loop passes over entries up to the last applied epoch. */
  lemma {:induction false} PlanSkips(feed: Feed, entries: seq<ManifestEpoch>, meta: Meta, n: nat)
    requires n <= |entries| && forall i :: 0 <= i < n ==> Skips(meta, entries[i])
    ensures PlanEpochs(feed, entries, meta) == PlanEpochs(feed, entries[n..], meta)
    decreases |entries|
  {
    if n > 0 {
      PlanSkips(feed, entries[1..], meta, n - 1);
      assert entries[1..][n - 1..] == entries[n..];
    } else {
      assert entries[0..] == entries;
    }
  }

  /** The published snapshot is the cutter's, taken from the database's rows at the end of epoch
      number `n`. */
  ghost predicate SnapshotPublished(feed: Feed, n: nat, db: Database)
    requires Published(feed)
  {
    && n < |feed.epochs| && feed.snapshot.Some?
    && feed.snapshot.value.e == feed.epochs[n].e && feed.snapshot.value.block == feed.epochs[n].to
    && match feed.fetchSnapshot(feed.epochs[n].e)
       case None => false
       case Some(file) => Spelled(file.lines, file.block).Some? && SnapshotRows(Spelled(file.lines, file.block).value, db.rows, feed.epochs[n].to)
  }

  /** The tail, when one is served, starts above the last epoch. */
  ghost predicate TailAbove(feed: Feed, floor: Block) {
    feed.head.Head? ==> feed.head.file.tailFrom > floor
  }

  /** The two metadata differ at most in what a snapshot start declares. */
  ghost predicate SameView(full: Meta, snap: Meta) {
    full == snap.(snapshotBasis := full.snapshotBasis, historyFloor := full.historyFloor)
  }

  lemma HeadAbove(feed: Feed, meta: Meta, basis: Block)
    requires TailAbove(feed, basis) && Floor(meta) >= basis
    ensures forall i :: 0 <= i < |PlanHead(feed, meta).ops| ==> TouchesAbove(PlanHead(feed, meta).ops[i], basis)
  {
  }

  lemma SameHead(feed: Feed, full: Meta, snap: Meta)
    requires SameView(full, snap)
    ensures PlanHead(feed, full).ops == PlanHead(feed, snap).ops && PlanHead(feed, full).error == PlanHead(feed, snap).error
    ensures SameView(PlanHead(feed, full).meta, PlanHead(feed, snap).meta)
  {
  }

  /** The plan of an epoch start, taken apart. */
  lemma FullStart(feed: Feed)
    requires Published(feed) && PlanFeed(feed, FromEpochs, NO_META, true).error.None?
    ensures var meta := PlanIdentity(feed, NO_META).meta;
            && PlanEpochs(feed, feed.epochs, meta).ops == Replay(Files(feed, feed.epochs))
            && PlanFeed(feed, FromEpochs, NO_META, true).ops
               == Replay(Files(feed, feed.epochs)) + PlanHead(feed, PlanEpochs(feed, feed.epochs, meta).meta).ops
            && PlanFeed(feed, FromEpochs, NO_META, true).meta == PlanHead(feed, PlanEpochs(feed, feed.epochs, meta).meta).meta
            && (feed.epochs != [] ==> PlanEpochs(feed, feed.epochs, meta).meta == WithEpoch(meta, feed.epochs[|feed.epochs| - 1]))
  {
    PlanIsReplay(feed, feed.epochs, PlanIdentity(feed, NO_META).meta);
  }

  /** The metadata once the snapshot of epoch number `n` is installed. */
  ghost function Started(feed: Feed, n: nat): Meta
    requires Published(feed) && n < |feed.epochs| && feed.fetchSnapshot(feed.epochs[n].e).Some?
  {
    WithSnapshot(PlanIdentity(feed, NO_META).meta, feed.fetchSnapshot(feed.epochs[n].e).value)
  }

  ghost function SlotsOf(feed: Feed, n: nat): seq<SnapSlot>
    requires n < |feed.epochs| && feed.fetchSnapshot(feed.epochs[n].e).Some?
    requires var file := feed.fetchSnapshot(feed.epochs[n].e).value; Spelled(file.lines, file.block).Some?
  {
    var file := feed.fetchSnapshot(feed.epochs[n].e).value;
    Spelled(file.lines, file.block).value
  }

  lemma SnapPieces(feed: Feed, n: nat, db: Database)
    requires Published(feed) && SnapshotPublished(feed, n, db)
    requires PlanFeed(feed, FromSnapshot, NO_META, true).error.None?
    ensures var meta := Started(feed, n);
            && PlanEpochs(feed, feed.epochs, meta).error.None?
            && PlanFeed(feed, FromSnapshot, NO_META, true).ops
               == [Install(SlotsOf(feed, n))] + (PlanEpochs(feed, feed.epochs, meta).ops + PlanHead(feed, PlanEpochs(feed, feed.epochs, meta).meta).ops)
            && PlanFeed(feed, FromSnapshot, NO_META, true).meta == PlanHead(feed, PlanEpochs(feed, feed.epochs, meta).meta).meta
  {
  }

  /** From epoch number `n` on, the loop replays exactly the later epochs. */
  lemma LaterEpochs(feed: Feed, n: nat, meta: Meta)
    requires Published(feed) && n < |feed.epochs| && meta.lastEpochApplied == Some(feed.epochs[n].e)
    requires PlanEpochs(feed, feed.epochs, meta).error.None?
    ensures PlanEpochs(feed, feed.epochs, meta).ops == Replay(Files(feed, feed.epochs)[n + 1..])
    ensures PlanEpochs(feed, feed.epochs, meta).meta == if n + 1 == |feed.epochs| then meta else WithEpoch(meta, feed.epochs[|feed.epochs| - 1])
  {
    var rest := feed.epochs[n + 1..];
    PlanSkips(feed, feed.epochs, meta, n + 1);
    PlanIsReplay(feed, rest, meta);
    FilesDrop(feed, feed.epochs, n + 1);
  }

  lemma FilesDrop(feed: Feed, entries: seq<ManifestEpoch>, n: nat)
    requires n <= |entries| && forall i :: 0 <= i < |entries| ==> feed.fetchEpoch(entries[i].e).Some?
    ensures Files(feed, entries)[n..] == Files(feed, entries[n..])
  {
  }

  /** A feed both starts accept: its epochs tile and are the cutter's, its snapshot is the
      cutter's from the same database at the end of epoch number `n`, and its tail starts above
      its last epoch. */
  ghost predicate Startable(feed: Feed, n: nat, db: Database) {
    && Published(feed) && SnapshotPublished(feed, n, db) && Tile(Files(feed, feed.epochs)) && CutFrom(Files(feed, feed.epochs), db)
    && TailAbove(feed, feed.epochs[|feed.epochs| - 1].to)
    && PlanFeed(feed, FromEpochs, NO_META, true).error.None?
    && PlanFeed(feed, FromSnapshot, NO_META, true).error.None?
  }

  lemma LastBlock(feed: Feed, n: nat)
    requires Published(feed) && n < |feed.epochs| && Tile(Files(feed, feed.epochs))
    ensures feed.epochs[n].to <= feed.epochs[|feed.epochs| - 1].to
  {
    var files := Files(feed, feed.epochs);
    if n < |files| - 1 {
      TileOrder(files, n, |files| - 1);
      assert files[|files| - 1].from <= files[|files| - 1].to;
    }
  }

  /** Both starts end with the same view of the metadata and write the same tail. */
  lemma StartsMeet(feed: Feed, n: nat, db: Database)
    requires Startable(feed, n, db)
    ensures var later := PlanHead(feed, WithEpoch(PlanIdentity(feed, NO_META).meta, feed.epochs[|feed.epochs| - 1])).ops;
            var full, snap := PlanFeed(feed, FromEpochs, NO_META, true), PlanFeed(feed, FromSnapshot, NO_META, true);
            && full.ops == Replay(Files(feed, feed.epochs)) + later
            && snap.ops == [Install(SlotsOf(feed, n))] + Replay(Files(feed, feed.epochs)[n + 1..]) + later
            && SameView(full.meta, snap.meta) && full.meta.lastEpochApplied == Some(feed.epochs[|feed.epochs| - 1].e)
            && Floor(full.meta) == feed.epochs[|feed.epochs| - 1].to
            && forall i :: 0 <= i < |later| ==> TouchesAbove(later[i], feed.epochs[n].to)
  {
    var last := feed.epochs[|feed.epochs| - 1];
    var full, snap := WithEpoch(PlanIdentity(feed, NO_META).meta, last), Started(feed, n);
    FullStart(feed);
    SnapPieces(feed, n, db);
    LaterEpochs(feed, n, snap);
    var snap' := PlanEpochs(feed, feed.epochs, snap).meta;
    SnapshotEnds(feed, n, db);
    assert SameView(full, snap');
    SameHead(feed, full, snap');
    LastBlock(feed, n);
    HeadAbove(feed, full, feed.epochs[n].to);
    assert [Install(SlotsOf(feed, n))] + (Replay(Files(feed, feed.epochs)[n + 1..]) + PlanHead(feed, full).ops)
        == [Install(SlotsOf(feed, n))] + Replay(Files(feed, feed.epochs)[n + 1..]) + PlanHead(feed, full).ops;
  }

  /** The accepted snapshot file ends where its epoch ends, under that epoch's hash. */
  lemma SnapshotEnds(feed: Feed, n: nat, db: Database)
    requires Published(feed) && SnapshotPublished(feed, n, db)
    requires PlanFeed(feed, FromSnapshot, NO_META, true).error.None?
    ensures var file := feed.fetchSnapshot(feed.epochs[n].e).value;
            file.epoch == feed.epochs[n].e && file.block == feed.epochs[n].to && file.epochHash == feed.epochs[n].hash
  {
    var found := FindEpoch(feed.epochs, feed.epochs[n].e);
    var i :| 0 <= i < |feed.epochs| && feed.epochs[i] == found.value;
    assert i == n;
  }

  /** Both mirrors are past the basis epoch and look the same to the feed. */
  ghost predicate Following(full: Meta, snap: Meta, basis: Block, e: nat) {
    SameView(full, snap) && full.lastEpochApplied.Some? && full.lastEpochApplied.value >= e && Floor(full) >= basis
  }

  lemma StartsAgree(feed: Feed, n: nat, db: Database)
    requires Startable(feed, n, db)
    ensures var full, snap := PlanFeed(feed, FromEpochs, NO_META, true), PlanFeed(feed, FromSnapshot, NO_META, true);
            Agree(full.ops, snap.ops, feed.epochs[n].to) && Following(full.meta, snap.meta, feed.epochs[n].to, feed.epochs[n].e)
  {
    StartsMeet(feed, n, db);
    LastBlock(feed, n);
    SnapshotEnds(feed, n, db);
    var later := PlanHead(feed, WithEpoch(PlanIdentity(feed, NO_META).meta, feed.epochs[|feed.epochs| - 1])).ops;
    SnapshotOfReplay(Files(feed, feed.epochs), n, db, SlotsOf(feed, n));
    ColdStartAgrees(Files(feed, feed.epochs), n, SlotsOf(feed, n), later);
  }

  // --------------------------------------------------------- every later apply

  /** Nothing this feed still publishes, epoch or tail, reaches down to the basis. */
  ghost predicate FeedAbove(feed: Feed, basis: Block, e: nat) {
    && TailAbove(feed, basis)
    && forall i :: 0 <= i < |feed.epochs| && feed.epochs[i].e > e ==> basis < feed.epochs[i].from <= feed.epochs[i].to
  }

  lemma FileTouchesAbove(feed: Feed, entry: ManifestEpoch, file: EpochFile, prev: Option<Digest>, basis: Block)
    requires EpochError(feed, entry, file, prev).None? && basis < entry.from
    ensures TouchesAbove(Replace(Inclusive(entry.from, entry.to), file.lines), basis)
  {
  }

  /** Two mirrors with the same view fold the same epochs, failures included. */
  lemma {:induction false} SameEpochs(feed: Feed, entries: seq<ManifestEpoch>, full: Meta, snap: Meta, basis: Block, e: nat)
    requires Following(full, snap, basis, e)
    requires forall i :: 0 <= i < |entries| && entries[i].e > e ==> basis < entries[i].from <= entries[i].to
    ensures PlanEpochs(feed, entries, full).ops == PlanEpochs(feed, entries, snap).ops
    ensures PlanEpochs(feed, entries, full).error == PlanEpochs(feed, entries, snap).error
    ensures Following(PlanEpochs(feed, entries, full).meta, PlanEpochs(feed, entries, snap).meta, basis, e)
    ensures forall i :: 0 <= i < |PlanEpochs(feed, entries, full).ops| ==> TouchesAbove(PlanEpochs(feed, entries, full).ops[i], basis)
    decreases |entries|
  {
    if entries != [] {
      var entry := entries[0];
      if Skips(full, entry) {
        SameEpochs(feed, entries[1..], full, snap, basis, e);
      } else if feed.fetchEpoch(entry.e).Some? && EpochError(feed, entry, feed.fetchEpoch(entry.e).value, full.lastEpochHash).None? {
        FileTouchesAbove(feed, entry, feed.fetchEpoch(entry.e).value, full.lastEpochHash, basis);
        SameEpochs(feed, entries[1..], WithEpoch(full, entry), WithEpoch(snap, entry), basis, e);
      }
    }
  }

  /** The plans write the same log entries, all above the basis, and leave the same view. */
  ghost predicate SamePlan(a: Plan, b: Plan, basis: Block, e: nat) {
    && a.ops == b.ops && a.error == b.error && Following(a.meta, b.meta, basis, e)
    && forall i :: 0 <= i < |a.ops| ==> TouchesAbove(a.ops[i], basis)
  }

  lemma SamePin(feed: Feed, full: Meta, snap: Meta, basis: Block, e: nat)
    requires Following(full, snap, basis, e)
    ensures SamePlan(PlanIdentity(feed, full), PlanIdentity(feed, snap), basis, e)
  {
  }

  lemma SameTail(feed: Feed, full: Meta, snap: Meta, basis: Block, e: nat)
    requires Following(full, snap, basis, e) && TailAbove(feed, basis)
    ensures SamePlan(PlanHead(feed, full), PlanHead(feed, snap), basis, e)
  {
    SameHead(feed, full, snap);
    HeadAbove(feed, full, basis);
  }

  lemma SameBlocks(feed: Feed, full: Meta, snap: Meta, basis: Block, e: nat)
    requires Following(full, snap, basis, e) && FeedAbove(feed, basis, e)
    ensures SamePlan(PlanBlocks(feed, full), PlanBlocks(feed, snap), basis, e)
  {
    SameEpochs(feed, feed.epochs, full, snap, basis, e);
    SameTail(feed, PlanEpochs(feed, feed.epochs, full).meta, PlanEpochs(feed, feed.epochs, snap).meta, basis, e);
  }

  lemma WarmFold(feed: Feed, mode: ColdStartMode, meta: Meta)
    ensures PlanFold(feed, mode, meta, false) == PlanBlocks(feed, meta)
  {
    var blocks := PlanBlocks(feed, meta);
    assert [] + blocks.ops == blocks.ops;
  }

  /** A later apply, failed or not, does the same to both mirrors. */
  lemma SameApply(feed: Feed, full: Meta, snap: Meta, basis: Block, e: nat, mode: ColdStartMode, mode': ColdStartMode)
    requires Following(full, snap, basis, e) && FeedAbove(feed, basis, e)
    ensures SamePlan(PlanFeed(feed, mode, full, false), PlanFeed(feed, mode', snap, false), basis, e)
  {
    var full', snap' := PlanIdentity(feed, full).meta, PlanIdentity(feed, snap).meta;
    SamePin(feed, full, snap, basis, e);
    WarmFold(feed, mode, full');
    WarmFold(feed, mode', snap');
    SameBlocks(feed, full', snap', basis, e);
  }

  /** The log and metadata of a mirror after applying the feeds in turn. */
  ghost function Run(ops: seq<Op>, meta: Meta, feeds: seq<Feed>): (seq<Op>, Meta)
    decreases |feeds|
  {
    if feeds == [] then (ops, meta)
    else
      var plan := PlanFeed(feeds[0], Auto, meta, false);
      Run(ops + plan.ops, plan.meta, feeds[1..])
  }

  lemma {:induction false} RunsAgree(full: seq<Op>, snap: seq<Op>, metaFull: Meta, metaSnap: Meta, feeds: seq<Feed>, basis: Block, e: nat)
    requires Agree(full, snap, basis) && Following(metaFull, metaSnap, basis, e)
    requires forall i :: 0 <= i < |feeds| ==> FeedAbove(feeds[i], basis, e)
    ensures Agree(Run(full, metaFull, feeds).0, Run(snap, metaSnap, feeds).0, basis)
    decreases |feeds|
  {
    if feeds != [] {
      var a, b := PlanFeed(feeds[0], Auto, metaFull, false), PlanFeed(feeds[0], Auto, metaSnap, false);
      SameApply(feeds[0], metaFull, metaSnap, basis, e, Auto, Auto);
      AgreeAlways(full, snap, a.ops, basis);
      RunsAgree(full + a.ops, snap + b.ops, a.meta, b.meta, feeds[1..], basis, e);
    }
  }

  /** Cold start is indistinguishable from replay: after the first apply and any later ones,
      failed ones included, every read at or above the basis gives the same value, every slot
      that is not zero has the same write block, and the complete slot sets are equal. */
  lemma ColdStartIndistinguishable(feed: Feed, n: nat, db: Database, feeds: seq<Feed>, bound: Block)
    requires Startable(feed, n, db) && bound >= feed.epochs[n].to
    requires forall i :: 0 <= i < |feeds| ==> FeedAbove(feeds[i], feed.epochs[n].to, feed.epochs[n].e)
    ensures var full, snap := PlanFeed(feed, FromEpochs, NO_META, true), PlanFeed(feed, FromSnapshot, NO_META, true);
            var a, b := Run(full.ops, full.meta, feeds).0, Run(snap.ops, snap.meta, feeds).0;
            (forall slot :: SameRead(a, b, slot, bound)) && SlotSet(a, bound) == SlotSet(b, bound)
  {
    var full, snap := PlanFeed(feed, FromEpochs, NO_META, true), PlanFeed(feed, FromSnapshot, NO_META, true);
    StartsAgree(feed, n, db);
    RunsAgree(full.ops, snap.ops, full.meta, snap.meta, feeds, feed.epochs[n].to, feed.epochs[n].e);
    AgreeEverywhere(Run(full.ops, full.meta, feeds).0, Run(snap.ops, snap.meta, feeds).0, feed.epochs[n].to, bound);
  }
}
