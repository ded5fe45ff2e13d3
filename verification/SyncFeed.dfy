/** What one apply writes is a run of the cursor protocol's feed steps: the two models of
    `crates/consumer/src/apply.rs` meet here. */
module FeedRuns {
  import opened Felts
  import opened Mpt
  import opened MirrorLog
  import opened MemStores
  import opened FeedCodec
  import opened ApplyFeeds
  import ColdStart
  import SyncProtocol

  // ---------------------------------------------------------- several writes

  /** The state after range writes in turn, when each is one the protocol allows. */
  ghost function Fed(s: SyncProtocol.State, ops: seq<Op>, basis: Block): Option<SyncProtocol.State>
    decreases |ops|
  {
    if ops == [] then Some(s)
    else if !SyncProtocol.FeedOp(s, ops[0]) then None
    else Fed(SyncProtocol.Take(s, SyncProtocol.Step.Feed(ops[0], basis)), ops[1..], basis)
  }

  function Steps(ops: seq<Op>, basis: Block): seq<SyncProtocol.Step> {
    seq(|ops|, i requires 0 <= i < |ops| => SyncProtocol.Step.Feed(ops[i], basis))
  }

  lemma {:induction false} FedAppends(s: SyncProtocol.State, ops: seq<Op>, more: seq<Op>, basis: Block)
    requires Fed(s, ops, basis).Some?
    ensures Fed(s, ops + more, basis) == Fed(Fed(s, ops, basis).value, more, basis)
    decreases |ops|
  {
    if ops == [] {
      assert ops + more == more;
    } else {
      FedAppends(SyncProtocol.Take(s, SyncProtocol.Step.Feed(ops[0], basis)), ops[1..], more, basis);
      assert (ops + more)[1..] == ops[1..] + more;
    }
  }

  /** Such writes extend a run of the protocol. */
  lemma {:induction false} FedIsRun(steps: seq<SyncProtocol.Step>, s: SyncProtocol.State, ops: seq<Op>, basis: Block)
    requires SyncProtocol.Reached(steps) == Some(s) && Fed(s, ops, basis).Some?
    ensures SyncProtocol.Reached(steps + Steps(ops, basis)) == Fed(s, ops, basis)
    decreases |ops|
  {
    if ops == [] {
      assert steps + Steps(ops, basis) == steps;
    } else {
      var step := SyncProtocol.Step.Feed(ops[0], basis);
      SyncProtocol.ReachedStep(steps, s, step);
      FedIsRun(steps + [step], SyncProtocol.Take(s, step), ops[1..], basis);
      assert steps + Steps(ops, basis) == (steps + [step]) + Steps(ops[1..], basis);
    }
  }

  // ------------------------------------------------------- aligned feeds

  /** The end of the last epoch the metadata records, -1 before any. */
  function FloorOf(meta: Meta): int {
    if meta.lastEpochTo.Some? then meta.lastEpochTo.value else -1
  }

  /** The recorded floor is the end of the recorded epoch. */
  predicate MetaAligned(meta: Meta, size: nat) {
    match meta.lastEpochApplied
    case None => meta.lastEpochTo.None?
    case Some(e) => meta.lastEpochTo.Some? && EpochEnd(e, size) == Some(meta.lastEpochTo.value)
  }

  /** Epochs are listed in order, each over its aligned range. */
  predicate Aligned(entries: seq<ManifestEpoch>, size: nat) {
    && size > 0
    && (forall i :: 0 <= i < |entries| ==> EpochEnd(entries[i].e, size) == Some(entries[i].to) && entries[i].from + size == entries[i].to + 1)
    && (forall i, j :: 0 <= i < j < |entries| ==> entries[i].e < entries[j].e)
  }

  lemma {:induction false} Later(a: nat, b: nat, size: nat)
    requires a < b
    ensures a * size + size <= b * size
  {
    if a + 1 < b { Later(a, b - 1, size); }
    assert b * size == (b - 1) * size + size;
  }

  /** An epoch that is not skipped begins above the floor. */
  lemma NextAbove(meta: Meta, entry: ManifestEpoch, size: nat)
    requires size > 0 && MetaAligned(meta, size) && !Skips(meta, entry)
    requires EpochEnd(entry.e, size) == Some(entry.to) && entry.from + size == entry.to + 1
    ensures FloorOf(meta) < entry.from <= entry.to && MetaAligned(WithEpoch(meta, entry), size)
  {
    if meta.lastEpochApplied.Some? { Later(meta.lastEpochApplied.value, entry.e, size); }
  }

  /** The writes are protocol steps that end at the floor the metadata then records. */
  ghost predicate AreSteps(s: SyncProtocol.State, ops: seq<Op>, basis: Block, meta: Meta) {
    match Fed(s, ops, basis)
    case None => false
    case Some(end) => end.floor == FloorOf(meta) && end.ops == s.ops + ops && end.owners == s.owners && end.sessions == s.sessions
  }

  lemma NoSteps(s: SyncProtocol.State, basis: Block, meta: Meta)
    requires s.floor == FloorOf(meta)
    ensures AreSteps(s, [], basis, meta)
  {
    assert s.ops + [] == s.ops;
  }

  lemma OneStep(s: SyncProtocol.State, op: Op, basis: Block, meta: Meta)
    requires SyncProtocol.FeedOp(s, op) && SyncProtocol.FloorAfter(s, op, basis) == FloorOf(meta)
    ensures AreSteps(s, [op], basis, meta)
  {
    var s' := SyncProtocol.Take(s, SyncProtocol.Step.Feed(op, basis));
    assert [op][0] == op && [op][1..] == [] && Fed(s', [], basis) == Some(s');
  }

  lemma StepsAppend(s: SyncProtocol.State, ops: seq<Op>, mid: Meta, more: seq<Op>, basis: Block, meta: Meta)
    requires AreSteps(s, ops, basis, mid) && AreSteps(Fed(s, ops, basis).value, more, basis, meta)
    ensures AreSteps(s, ops + more, basis, meta)
  {
    FedAppends(s, ops, more, basis);
    assert s.ops + (ops + more) == (s.ops + ops) + more;
  }

  /** Every epoch the loop folds is a step, also when it stops at an error. */
  lemma {:induction false} EpochsAreSteps(s: SyncProtocol.State, feed: Feed, entries: seq<ManifestEpoch>, meta: Meta, basis: Block)
    requires s.floor == FloorOf(meta) && MetaAligned(meta, feed.genesis.epochSize) && Aligned(entries, feed.genesis.epochSize)
    ensures AreSteps(s, PlanEpochs(feed, entries, meta).ops, basis, PlanEpochs(feed, entries, meta).meta)
    ensures MetaAligned(PlanEpochs(feed, entries, meta).meta, feed.genesis.epochSize)
    decreases |entries|
  {
    NoSteps(s, basis, meta);
    if entries != [] {
      var entry := entries[0];
      if Skips(meta, entry) {
        EpochsAreSteps(s, feed, entries[1..], meta, basis);
      } else if feed.fetchEpoch(entry.e).Some? && EpochError(feed, entry, feed.fetchEpoch(entry.e).value, meta.lastEpochHash).None? {
        var file := feed.fetchEpoch(entry.e).value;
        var op := Replace(Inclusive(entry.from, entry.to), file.lines);
        NextAbove(meta, entry, feed.genesis.epochSize);
        SyncProtocol.EpochIsFeedOp(s, feed, entry, file, meta.lastEpochHash);
        OneStep(s, op, basis, WithEpoch(meta, entry));
        EpochsAreSteps(Fed(s, [op], basis).value, feed, entries[1..], WithEpoch(meta, entry), basis);
        StepsAppend(s, [op], WithEpoch(meta, entry), PlanEpochs(feed, entries[1..], WithEpoch(meta, entry)).ops, basis, PlanEpochs(feed, entries, meta).meta);
      }
    }
  }

  /** The tail, when one is served, starts above the floor, and block numbers are not used up. */
  predicate TailFits(feed: Feed, meta: Meta) {
    Floor(meta) < MAX_BLOCK && (feed.head.Head? ==> feed.head.file.tailFrom > Floor(meta))
  }

  lemma HeadIsStep(s: SyncProtocol.State, feed: Feed, meta: Meta, basis: Block)
    requires s.floor == FloorOf(meta) && TailFits(feed, meta)
    ensures AreSteps(s, PlanHead(feed, meta).ops, basis, PlanHead(feed, meta).meta)
  {
    NoSteps(s, basis, meta);
    if PlanHead(feed, meta).ops != [] {
      SyncProtocol.TailIsFeedOp(s, Floor(meta), feed.head.file.lines);
      OneStep(s, Replace(Above(Floor(meta)), feed.head.file.lines), basis, PlanHead(feed, meta).meta);
    }
  }

  /** The metadata with which the tail is folded. */
  function BeforeHead(feed: Feed, meta: Meta): Meta {
    PlanEpochs(feed, feed.epochs, meta).meta
  }

  lemma BlocksAreSteps(s: SyncProtocol.State, feed: Feed, meta: Meta, basis: Block)
    requires s.floor == FloorOf(meta) && MetaAligned(meta, feed.genesis.epochSize) && Aligned(feed.epochs, feed.genesis.epochSize)
    requires TailFits(feed, BeforeHead(feed, meta))
    ensures AreSteps(s, PlanBlocks(feed, meta).ops, basis, PlanBlocks(feed, meta).meta)
  {
    NoSteps(s, basis, meta);
    EpochsAreSteps(s, feed, feed.epochs, meta, basis);
    var epochs := PlanEpochs(feed, feed.epochs, meta);
    HeadIsStep(Fed(s, epochs.ops, basis).value, feed, epochs.meta, basis);
    StepsAppend(s, epochs.ops, epochs.meta, PlanHead(feed, epochs.meta).ops, basis, PlanHead(feed, epochs.meta).meta);
  }

  /** The block a snapshot start of this feed begins at. */
  function BasisOf(feed: Feed): Block {
    if feed.snapshot.Some? && feed.fetchSnapshot(feed.snapshot.value.e).Some? then feed.fetchSnapshot(feed.snapshot.value.e).value.block else 0
  }

  lemma ColdIsStep(s: SyncProtocol.State, feed: Feed, mode: ColdStartMode, meta: Meta, empty: bool)
    requires s.floor == FloorOf(meta) && MetaAligned(meta, feed.genesis.epochSize) && (empty ==> meta.lastEpochApplied.None?)
    ensures var plan := PlanCold(feed, mode, meta, empty);
            AreSteps(s, plan.ops, BasisOf(feed), plan.meta) && MetaAligned(plan.meta, feed.genesis.epochSize)
  {
    NoSteps(s, BasisOf(feed), meta);
    var plan := PlanCold(feed, mode, meta, empty);
    if plan.ops != [] { OneStep(s, plan.ops[0], BasisOf(feed), plan.meta); }
  }

  /** The metadata after the identity check and a cold start. */
  ghost function BeforeBlocks(feed: Feed, mode: ColdStartMode, meta: Meta, empty: bool): Meta {
    PlanCold(feed, mode, PlanIdentity(feed, meta).meta, empty).meta
  }

  /** Whatever one apply of an aligned feed writes, failed or not, is a run of feed steps of the
      cursor protocol from a state at the recorded floor to one at the floor then recorded. */
  lemma ApplyIsFeedSteps(s: SyncProtocol.State, feed: Feed, mode: ColdStartMode, meta: Meta, empty: bool)
    requires s.floor == FloorOf(meta) && MetaAligned(meta, feed.genesis.epochSize) && (empty ==> meta.lastEpochApplied.None?)
    requires Aligned(feed.epochs, feed.genesis.epochSize)
    requires TailFits(feed, BeforeHead(feed, BeforeBlocks(feed, mode, meta, empty)))
    ensures AreSteps(s, PlanFeed(feed, mode, meta, empty).ops, BasisOf(feed), PlanFeed(feed, mode, meta, empty).meta)
  {
    var pinned := PlanIdentity(feed, meta);
    NoSteps(s, BasisOf(feed), pinned.meta);
    if pinned.error.None? {
      var cold := PlanCold(feed, mode, pinned.meta, empty);
      ColdIsStep(s, feed, mode, pinned.meta, empty);
      if cold.error.None? {
        BlocksAreSteps(Fed(s, cold.ops, BasisOf(feed)).value, feed, cold.meta, BasisOf(feed));
        var blocks := PlanBlocks(feed, cold.meta);
        StepsAppend(s, cold.ops, cold.meta, blocks.ops, BasisOf(feed), blocks.meta);
      }
    }
  }

  /** So an apply after any run of the protocol is a longer run, at the log and floor it leaves. */
  lemma ApplyExtendsRun(steps: seq<SyncProtocol.Step>, s: SyncProtocol.State, feed: Feed, mode: ColdStartMode, meta: Meta, empty: bool)
    requires SyncProtocol.Reached(steps) == Some(s)
    requires s.floor == FloorOf(meta) && MetaAligned(meta, feed.genesis.epochSize) && (empty ==> meta.lastEpochApplied.None?)
    requires Aligned(feed.epochs, feed.genesis.epochSize)
    requires TailFits(feed, BeforeHead(feed, BeforeBlocks(feed, mode, meta, empty)))
    ensures var plan := PlanFeed(feed, mode, meta, empty);
            SyncProtocol.Reached(steps + Steps(plan.ops, BasisOf(feed))) == Some(s.(ops := s.ops + plan.ops, floor := FloorOf(plan.meta)))
  {
    ApplyIsFeedSteps(s, feed, mode, meta, empty);
    FedIsRun(steps, s, PlanFeed(feed, mode, meta, empty).ops, BasisOf(feed));
  }
}
