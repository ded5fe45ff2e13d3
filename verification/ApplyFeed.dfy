/** `apply_feed` of `crates/consumer/src/apply.rs`: verify the published epochs and the head
    tail, and fold them into a mirror. Fetches, decompression and parsing are the feed's
    fields; hashing of payloads is their `digest`. */
module ApplyFeeds {
  import opened Felts
  import opened Mpt
  import opened MirrorLog
  import opened MemStores
  import opened FeedCodec
  import ColdStart

  datatype ColdStartMode = Auto | FromSnapshot | FromEpochs

  datatype Genesis = Genesis(pool: Felt, chainId: string, epochSize: nat)

  datatype ManifestEpoch = ManifestEpoch(e: nat, from: Block, to: Block, hash: Digest)

  datatype ManifestSnapshot = ManifestSnapshot(e: nat, block: Block, epochHash: Digest, zst: Digest, hash: Digest, slots: nat)

  datatype EpochFile = EpochFile(digest: Digest, chainId: string, pool: Felt, e: nat, from: Block, to: Block,
                                 prev: Option<Digest>, lines: seq<BlockLine>, footer: Footer)

  datatype SnapshotFile = SnapshotFile(zst: Digest, digest: Digest, chainId: string, pool: Felt, epoch: nat, block: Block,
                                       epochHash: Digest, lines: seq<ColdStart.Line>)

  datatype HeadFile = HeadFile(etag: string, tailFrom: Block, head: Block, l1Accepted: Block, lines: seq<BlockLine>, footer: Footer)

  datatype HeadAnswer = HeadFailed | NotModified | Head(file: HeadFile)

  /** The public feed as one apply sees it. */
  datatype Feed = Feed(genesis: Genesis, manifestChainId: string, epochs: seq<ManifestEpoch>, snapshot: Option<ManifestSnapshot>,
                       fetchEpoch: nat -> Option<EpochFile>, fetchSnapshot: nat -> Option<SnapshotFile>, head: HeadAnswer)

  datatype ApplyError =
    | PoolMismatch | ChainMismatch | FeedDisagrees
    | SnapshotUnavailable | SnapshotRefused | Diverged
    | FetchFailed | HashMismatch | FileMalformed | ChainBroken | WrongBinding
    | AdvancedMidSync

  datatype Applied = Failed(error: ApplyError) | Done(head: Block, tailRewound: bool)

  // -------------------------------------------------------- the generation

  /** Some block stored inside the range does not keep its hash. */
  ghost predicate Loses(ops: seq<Op>, range: Range, lines: seq<BlockLine>) {
    exists n: Block :: InBounds(range, n) && SurvivingHash(ops, n).Some?
                       && SurvivingHash(ops + [Replace(range, lines)], n) != SurvivingHash(ops, n)
  }

  ghost predicate OpLoses(ops: seq<Op>, op: Op) {
    op.Replace? && Loses(ops, op.range, op.lines)
  }

  /** How many writes of the log lost a stored block of their range. */
  ghost function Generation(ops: seq<Op>): nat {
    if ops == [] then 0
    else
      var init := ops[..|ops| - 1];
      Generation(init) + if OpLoses(init, ops[|ops| - 1]) then 1 else 0
  }

  lemma GenerationStep(ops: seq<Op>, op: Op)
    ensures Generation(ops + [op]) == Generation(ops) + if OpLoses(ops, op) then 1 else 0
  {
    assert (ops + [op])[..|ops|] == ops;
  }

  lemma {:induction false} GenerationGrows(ops: seq<Op>, more: seq<Op>)
    ensures Generation(ops) <= Generation(ops + more)
  {
    if more == [] {
      assert ops + more == ops;
    } else {
      var init := more[..|more| - 1];
      GenerationGrows(ops, init);
      assert ops + more == (ops + init) + [more[|more| - 1]];
      GenerationStep(ops + init, more[|more| - 1]);
    }
  }

  /** The mirror counts exactly the losing writes of its log. */
  ghost predicate Tracked(store: MemStore)
    reads store`blocks, store`storage, store`storageMaxBlock, store`ops, store`generation, store.trie
  {
    store.Valid() && store.generation == Generation(store.ops)
  }

  // ------------------------------------------------- the contradiction tests

  lemma {:induction false} LineHashFinds(lines: seq<BlockLine>, i: nat)
    requires Ascending(lines) && i < |lines|
    ensures LineHash(lines, lines[i].number) == Some(lines[i].hash)
  {
    if i < |lines| - 1 {
      assert lines[..|lines| - 1][i] == lines[i];
      LineHashFinds(lines[..|lines| - 1], i);
    }
  }

  lemma {:induction false} LineHashIs(lines: seq<BlockLine>, n: Block)
    ensures LineHash(lines, n).Some? ==> exists i :: 0 <= i < |lines| && lines[i].number == n && LineHash(lines, n) == Some(lines[i].hash)
  {
    if lines != [] && lines[|lines| - 1].number != n {
      LineHashIs(lines[..|lines| - 1], n);
    }
  }

  /** `epoch.blocks.iter().any(..)` over each stored hash: none is listed with this hash. */
  method EpochContradicts(stored: map<Block, Felt>, lines: seq<BlockLine>) returns (c: bool)
    requires Ascending(lines)
    ensures c <==> exists n :: n in stored && LineHash(lines, n) != Some(stored[n])
  {
    c := exists n | n in stored :: forall i | 0 <= i < |lines| :: !(lines[i].number == n && lines[i].hash == stored[n]);
    forall n | n in stored
      ensures LineHash(lines, n) == Some(stored[n]) <==> exists i :: 0 <= i < |lines| && lines[i].number == n && lines[i].hash == stored[n]
    {
      LineHashIs(lines, n);
      forall i | 0 <= i < |lines| && lines[i].number == n ensures LineHash(lines, n) == Some(lines[i].hash) { LineHashFinds(lines, i); }
    }
  }

  /** The tail test: a stored block listed with another hash, or not listed at all at or above
      the first block the tail covers. */
  method TailContradicts(stored: map<Block, Felt>, tailFrom: Block, lines: seq<BlockLine>) returns (c: bool)
    ensures c <==> exists n :: n in stored && if LineHash(lines, n).Some? then LineHash(lines, n) != Some(stored[n]) else n >= tailFrom
  {
    c := exists n | n in stored :: if LineHash(lines, n).Some? then LineHash(lines, n) != Some(stored[n]) else n >= tailFrom;
  }

  lemma LosesMeans(ops: seq<Op>, range: Range, lines: seq<BlockLine>)
    ensures Loses(ops, range, lines) <==> exists n: Block :: InBounds(range, n) && SurvivingHash(ops, n).Some? && LineHash(lines, n) != SurvivingHash(ops, n)
  {
    var out := ops + [Replace(range, lines)];
    assert out[..|ops|] == ops;
    forall n: Block | InBounds(range, n) ensures SurvivingHash(out, n) == LineHash(lines, n) {}
  }

  /** Replace a range, bumping the generation exactly when a stored block is lost. */
  method ReplaceEpoch(store: MemStore, range: Range, lines: seq<BlockLine>, meta': Meta) returns (c: bool)
    requires Tracked(store) && Ascending(lines)
    modifies store
    ensures Tracked(store)
    ensures store.ops == old(store.ops) + [Replace(range, lines)] && store.meta == meta'
    ensures c <==> Loses(old(store.ops), range, lines)
  {
    ghost var ops := store.ops;
    var stored := store.BlockHashes(range);
    c := EpochContradicts(stored, lines);
    StoredLoses(stored, ops, range, lines);
    store.ReplaceRange(range, lines, meta', c);
    GenerationStep(ops, Replace(range, lines));
  }

  lemma StoredLoses(stored: map<Block, Felt>, ops: seq<Op>, range: Range, lines: seq<BlockLine>)
    requires forall n :: HashRow(stored, n) == if InBounds(range, n) then SurvivingHash(ops, n) else None
    ensures (exists n :: n in stored && LineHash(lines, n) != Some(stored[n])) <==> Loses(ops, range, lines)
  {
    LosesMeans(ops, range, lines);
    if Loses(ops, range, lines) {
      var n: Block :| InBounds(range, n) && SurvivingHash(ops, n).Some? && LineHash(lines, n) != SurvivingHash(ops, n);
      assert HashRow(stored, n) == SurvivingHash(ops, n);
      assert n in stored;
    }
    if exists n :: n in stored && LineHash(lines, n) != Some(stored[n]) {
      var n :| n in stored && LineHash(lines, n) != Some(stored[n]);
      assert HashRow(stored, n) == Some(stored[n]);
    }
  }

  /** Replace the tail. A tail that starts no later than the block above the floor makes the
      test exact: the generation rises if and only if a stored tail block is lost. */
  method ReplaceTail(store: MemStore, floor: Block, file: HeadFile, meta': Meta) returns (c: bool)
    requires Tracked(store) && Ascending(file.lines) && file.tailFrom <= floor + 1
    modifies store
    ensures Tracked(store)
    ensures store.ops == old(store.ops) + [Replace(Above(floor), file.lines)] && store.meta == meta'
    ensures c <==> Loses(old(store.ops), Above(floor), file.lines)
  {
    ghost var ops := store.ops;
    var stored := store.BlockHashes(Above(floor));
    c := TailContradicts(stored, file.tailFrom, file.lines);
    StoredLoses(stored, ops, Above(floor), file.lines);
    TailCovers(stored, ops, floor, file);
    store.ReplaceRange(Above(floor), file.lines, meta', c);
    GenerationStep(ops, Replace(Above(floor), file.lines));
  }

  lemma TailCovers(stored: map<Block, Felt>, ops: seq<Op>, floor: Block, file: HeadFile)
    requires forall n :: HashRow(stored, n) == if InBounds(Above(floor), n) then SurvivingHash(ops, n) else None
    requires file.tailFrom <= floor + 1
    ensures forall n :: n in stored ==> n >= file.tailFrom
  {
    forall n | n in stored ensures n >= file.tailFrom { assert HashRow(stored, n).Some?; }
  }

  /** A tail keeps every block at or below its floor exactly when each line down there repeats
      the hash that is stored. */
  lemma TailBelowFloor(ops: seq<Op>, floor: Block, lines: seq<BlockLine>)
    requires Ascending(lines) && floor < MAX_BLOCK
    ensures var out := ops + [Replace(Above(floor), lines)];
            (forall n: Block :: n <= floor ==> SurvivingHash(out, n) == SurvivingHash(ops, n))
            <==> (forall i :: 0 <= i < |lines| && lines[i].number <= floor ==> SurvivingHash(ops, lines[i].number) == Some(lines[i].hash))
  {
    var out := ops + [Replace(Above(floor), lines)];
    assert out[..|ops|] == ops;
    forall n: Block | n <= floor ensures SurvivingHash(out, n) == (if LineHash(lines, n).Some? then LineHash(lines, n) else SurvivingHash(ops, n)) {}
    forall i | 0 <= i < |lines| ensures LineHash(lines, lines[i].number) == Some(lines[i].hash) { LineHashFinds(lines, i); }
    forall n: Block ensures LineHash(lines, n).Some? ==> exists i :: 0 <= i < |lines| && lines[i].number == n && LineHash(lines, n) == Some(lines[i].hash) {
      LineHashIs(lines, n);
    }
  }

  /** The line writes only what already survives in its block. */
  ghost predicate RepeatsRows(ops: seq<Op>, line: BlockLine) {
    forall slot: Felt :: LastDiff(line.diffs, slot).Some? ==> Surviving(ops, slot, line.number) == LastDiff(line.diffs, slot)
  }

  /** The line of a block below the floor decides its rows; a block without one keeps them. */
  lemma LowRow(ops: seq<Op>, floor: Block, lines: seq<BlockLine>, slot: Felt, n: Block)
    requires n <= floor
    ensures Surviving(ops + [Replace(Above(floor), lines)], slot, n) == if LineWrite(lines, slot, n).Some? then LineWrite(lines, slot, n) else Surviving(ops, slot, n)
  {
    assert (ops + [Replace(Above(floor), lines)])[..|ops|] == ops;
  }

  ghost predicate LowRowStays(ops: seq<Op>, floor: Block, lines: seq<BlockLine>, slot: Felt, n: Block) {
    Surviving(ops + [Replace(Above(floor), lines)], slot, n) == Surviving(ops, slot, n)
  }

  ghost predicate KeepsLowRows(ops: seq<Op>, floor: Block, lines: seq<BlockLine>) {
    forall slot: Felt, n: Block :: n <= floor ==> LowRowStays(ops, floor, lines, slot, n)
  }

  lemma KeptRepeats(ops: seq<Op>, floor: Block, lines: seq<BlockLine>, i: nat)
    requires Ascending(lines) && KeepsLowRows(ops, floor, lines) && i < |lines| && lines[i].number <= floor
    ensures RepeatsRows(ops, lines[i])
  {
    forall slot: Felt | LastDiff(lines[i].diffs, slot).Some? ensures Surviving(ops, slot, lines[i].number) == LastDiff(lines[i].diffs, slot) {
      assert LowRowStays(ops, floor, lines, slot, lines[i].number);
      LowRow(ops, floor, lines, slot, lines[i].number);
      LineWriteAt(lines, slot, i);
    }
  }

  lemma LowRowKept(ops: seq<Op>, floor: Block, lines: seq<BlockLine>, slot: Felt, n: Block)
    requires Ascending(lines) && n <= floor
    requires forall i :: 0 <= i < |lines| && lines[i].number <= floor ==> RepeatsRows(ops, lines[i])
    ensures LowRowStays(ops, floor, lines, slot, n)
  {
    LowRow(ops, floor, lines, slot, n);
    if i :| 0 <= i < |lines| && lines[i].number == n {
      LineWriteAt(lines, slot, i);
      assert RepeatsRows(ops, lines[i]);
    } else {
      NoLineBelow(lines, slot, n);
    }
  }

  /** A tail keeps every row at or below its floor exactly when each line down there writes only
      what already survives there. Repeating the stored hash is not enough. */
  lemma TailRowsBelowFloor(ops: seq<Op>, floor: Block, lines: seq<BlockLine>)
    requires Ascending(lines)
    ensures KeepsLowRows(ops, floor, lines) <==> forall i :: 0 <= i < |lines| && lines[i].number <= floor ==> RepeatsRows(ops, lines[i])
  {
    if KeepsLowRows(ops, floor, lines) {
      forall i | 0 <= i < |lines| && lines[i].number <= floor ensures RepeatsRows(ops, lines[i]) { KeptRepeats(ops, floor, lines, i); }
    }
    if forall i :: 0 <= i < |lines| && lines[i].number <= floor ==> RepeatsRows(ops, lines[i]) {
      forall slot: Felt, n: Block | n <= floor ensures LowRowStays(ops, floor, lines, slot, n) { LowRowKept(ops, floor, lines, slot, n); }
    }
  }

  /** A feed with no new epoch and this head. */
  function HeadOnly(file: HeadFile): Feed {
    Feed(Genesis(0, "", 1), "", [], None, e => None, e => None, Head(file))
  }

  /** The client accepts a tail that starts at its floor, and such a tail can change a final
      block without raising the generation. */
  lemma LowTailMasksReorg()
    ensures var was := [Replace(Inclusive(0, 10), [BlockLine(10, 1, 0, [], [], None)])];
            var file := HeadFile("", 10, 10, 10, [BlockLine(10, 2, 0, [], [], Some(true))], Footer(1, 0, 0));
            var plan := PlanHead(HeadOnly(file), NO_META.(lastEpochTo := Some(10)));
            && plan.error.None? && plan.ops == [Replace(Above(10), file.lines)]
            && SurvivingHash(was, 10) == Some(1) && SurvivingHash(was + plan.ops, 10) == Some(2)
            && !Loses(was, Above(10), file.lines)
  {
    var first, lines := [BlockLine(10, 1, 0, [], [], None)], [BlockLine(10, 2, 0, [], [], Some(true))];
    var was := [Replace(Inclusive(0, 10), first)];
    assert lines[..0] == [] && CountsOf(lines) == Footer(1, 0, 0);
    assert was[..0] == [] && (was + [Replace(Above(10), lines)])[..1] == was;
    LosesMeans(was, Above(10), lines);
    forall n: Block | n != 10 ensures SurvivingHash(was, n).None? {
      assert first[..|first| - 1] == [] && LineHash(first, n) == LineHash([], n);
      assert was[..|was| - 1] == [] && SurvivingHash([], n).None?;
    }
  }

  lemma OneDiff(slot: Felt, value: Felt)
    ensures LastDiff([(slot, value)], slot) == Some(value)
  {
    assert [(slot, value)][0] == (slot, value);
  }

  /** Such a tail may repeat the stored hash and still change a final row. */
  lemma LowTailRewritesRows()
    ensures var was := [Replace(Inclusive(0, 10), [BlockLine(10, 1, 0, [(5, 1)], [], None)])];
            var file := HeadFile("", 10, 10, 10, [BlockLine(10, 1, 0, [(5, 2)], [], Some(true))], Footer(1, 1, 0));
            var plan := PlanHead(HeadOnly(file), NO_META.(lastEpochTo := Some(10)));
            && plan.error.None? && plan.ops == [Replace(Above(10), file.lines)]
            && SurvivingHash(was, 10) == SurvivingHash(was + plan.ops, 10) == Some(1) && !Loses(was, Above(10), file.lines)
            && Surviving(was, 5, 10) == Some(1) && Surviving(was + plan.ops, 5, 10) == Some(2)
  {
    var a: seq<(Felt, Felt)>, b: seq<(Felt, Felt)> := [(5, 1)], [(5, 2)];
    var first, lines := [BlockLine(10, 1, 0, a, [], None)], [BlockLine(10, 1, 0, b, [], Some(true))];
    var was := [Replace(Inclusive(0, 10), first)];
    assert lines[..|lines| - 1] == [] && CountDiffs(lines) == CountDiffs([]) + |lines[0].diffs| && CountEvents(lines) == CountEvents([]) + |lines[0].events|;
    assert was[..0] == [] && (was + [Replace(Above(10), lines)])[..1] == was;
    OneDiff(5, 1);
    OneDiff(5, 2);
    LosesMeans(was, Above(10), lines);
    forall n: Block | n != 10 ensures SurvivingHash(was, n).None? {
      assert first[..|first| - 1] == [] && LineHash(first, n) == LineHash([], n);
      assert was[..|was| - 1] == [] && SurvivingHash([], n).None?;
    }
  }

  // ---------------------------------------------------------------- epochs

  /** A block inside the epoch's range, without the finality mark of head files. */
  predicate EpochLine(file: EpochFile, line: BlockLine) {
    file.from <= line.number <= file.to && line.fin.None?
  }

  /** An entry's file, checked in the source's order: content hash, structure, header, hash
      chain, binding. */
  function EpochError(feed: Feed, entry: ManifestEpoch, file: EpochFile, prev: Option<Digest>): Option<ApplyError> {
    if file.digest != entry.hash then Some(HashMismatch)
    else if !Structured(file.lines, file.footer) || (exists i :: 0 <= i < |file.lines| && !EpochLine(file, file.lines[i])) then Some(FileMalformed)
    else if (file.e, file.from, file.to) != (entry.e, entry.from, entry.to) then Some(FileMalformed)
    else if file.prev != prev then Some(ChainBroken)
    else if file.chainId != feed.genesis.chainId || file.pool != feed.genesis.pool then Some(WrongBinding)
    else None
  }

  /** What folding writes: the log entries, the metadata, and the error that stopped it. */
  datatype Plan = Plan(ops: seq<Op>, meta: Meta, error: Option<ApplyError>)

  function WithEpoch(meta: Meta, entry: ManifestEpoch): Meta {
    meta.(lastEpochApplied := Some(entry.e), lastEpochHash := Some(entry.hash), lastEpochTo := Some(entry.to))
  }

  predicate Skips(meta: Meta, entry: ManifestEpoch) {
    meta.lastEpochApplied.Some? && entry.e <= meta.lastEpochApplied.value
  }

  function PlanEpochs(feed: Feed, entries: seq<ManifestEpoch>, meta: Meta): Plan {
    if entries == [] then Plan([], meta, None)
    else
      var entry := entries[0];
      if Skips(meta, entry) then PlanEpochs(feed, entries[1..], meta)
      else match feed.fetchEpoch(entry.e)
        case None => Plan([], meta, Some(FetchFailed))
        case Some(file) =>
          if EpochError(feed, entry, file, meta.lastEpochHash).Some? then Plan([], meta, EpochError(feed, entry, file, meta.lastEpochHash))
          else
            var rest := PlanEpochs(feed, entries[1..], WithEpoch(meta, entry));
            rest.(ops := [Replace(Inclusive(entry.from, entry.to), file.lines)] + rest.ops)
  }

  /** The epoch loop: fold every entry above the last applied one. */
  method ApplyEpochs(store: MemStore, feed: Feed) returns (error: Option<ApplyError>, rewound: bool)
    requires Tracked(store)
    modifies store
    ensures Tracked(store)
    ensures var plan := PlanEpochs(feed, feed.epochs, old(store.meta));
            error == plan.error && store.meta == plan.meta && store.ops == old(store.ops) + plan.ops
    ensures store.generation >= old(store.generation) && (rewound <==> store.generation != old(store.generation))
  {
    ghost var plan := PlanEpochs(feed, feed.epochs, store.meta);
    ghost var ops, was := store.ops, store.generation;
    rewound := false;
    for i := 0 to |feed.epochs|
      invariant Tracked(store) && (rewound <==> store.generation != was) && was <= store.generation
      invariant Resumes(feed, feed.epochs[i..], store.meta, ops, store.ops, plan)
    {
      var entry := feed.epochs[i];
      assert feed.epochs[i..][0] == entry && feed.epochs[i..][1..] == feed.epochs[i + 1..];
      if !Skips(store.meta, entry) {
        var file := feed.fetchEpoch(entry.e);
        if file.None? {
          return Some(FetchFailed), rewound;
        }
        var bad := EpochError(feed, entry, file.value, store.meta.lastEpochHash);
        if bad.Some? {
          return bad, rewound;
        }
        ghost var before := store.ops;
        ResumeStep(feed, feed.epochs[i..], store.meta, ops, before, plan, file.value.lines);
        var contradiction := ReplaceEpoch(store, Inclusive(entry.from, entry.to), file.value.lines, WithEpoch(store.meta, entry));
        GenerationStep(before, Replace(Inclusive(entry.from, entry.to), file.value.lines));
        if contradiction { rewound := true; }
      }
    }
    error := None;
  }

  /** The rest of the plan is the plan of the rest. */
  ghost predicate Resumes(feed: Feed, entries: seq<ManifestEpoch>, meta: Meta, ops: seq<Op>, now: seq<Op>, plan: Plan) {
    var rest := PlanEpochs(feed, entries, meta);
    now + rest.ops == ops + plan.ops && rest.meta == plan.meta && rest.error == plan.error
  }

  lemma ResumeStep(feed: Feed, entries: seq<ManifestEpoch>, meta: Meta, ops: seq<Op>, now: seq<Op>, plan: Plan, lines: seq<BlockLine>)
    requires entries != [] && !Skips(meta, entries[0]) && Resumes(feed, entries, meta, ops, now, plan)
    requires feed.fetchEpoch(entries[0].e).Some? && feed.fetchEpoch(entries[0].e).value.lines == lines
    requires EpochError(feed, entries[0], feed.fetchEpoch(entries[0].e).value, meta.lastEpochHash).None?
    ensures Resumes(feed, entries[1..], WithEpoch(meta, entries[0]), ops, now + [Replace(Inclusive(entries[0].from, entries[0].to), lines)], plan)
  {
    var op := Replace(Inclusive(entries[0].from, entries[0].to), lines);
    var rest := PlanEpochs(feed, entries[1..], WithEpoch(meta, entries[0]));
    assert now + ([op] + rest.ops) == (now + [op]) + rest.ops;
  }

  // -------------------------------------------------------------- cold start

  /** The block at which epoch `e` ends, unless the 64-bit arithmetic overflows. */
  function EpochEnd(e: nat, size: nat): Option<nat> {
    if e * size + size > MAX_BLOCK || e * size + size == 0 then None else Some(e * size + size - 1)
  }

  function FindEpoch(entries: seq<ManifestEpoch>, e: nat): (r: Option<ManifestEpoch>)
    ensures r.Some? ==> r.value in entries && r.value.e == e
    ensures r.None? ==> forall i :: 0 <= i < |entries| ==> entries[i].e != e
  {
    if entries == [] then None else if entries[0].e == e then Some(entries[0]) else FindEpoch(entries[1..], e)
  }

  /** The snapshot file is the one the manifest names, about this feed, pinned to the hash of
      its basis epoch, at that epoch's end. */
  predicate SnapshotBound(feed: Feed, entry: ManifestSnapshot, basisHash: Digest, file: SnapshotFile) {
    && file.zst == entry.zst && file.digest == entry.hash
    && file.chainId == feed.genesis.chainId && file.pool == feed.genesis.pool
    && file.epoch == entry.e && file.block == entry.block
    && file.epochHash == basisHash && entry.epochHash == basisHash
    && EpochEnd(entry.e, feed.genesis.epochSize) == Some(file.block)
  }

  function WithSnapshot(meta: Meta, file: SnapshotFile): Meta {
    meta.(lastEpochApplied := Some(file.epoch), lastEpochHash := Some(file.epochHash), lastEpochTo := Some(file.block),
          historyFloor := Some(file.block + 1), snapshotBasis := Some(file.block))
  }

  ghost function PlanSnapshot(feed: Feed, entry: ManifestSnapshot, meta: Meta): Plan {
    var basis := FindEpoch(feed.epochs, entry.e);
    if basis.None? then Plan([], meta, Some(SnapshotRefused))
    else match feed.fetchSnapshot(entry.e)
      case None => Plan([], meta, Some(FetchFailed))
      case Some(file) =>
        var slots := ColdStart.Spelled(file.lines, file.block);
        if slots.None? || |slots.value| != entry.slots || !SnapshotBound(feed, entry, basis.value.hash, file) then
          Plan([], meta, Some(SnapshotRefused))
        else
          Plan([Install(slots.value)], WithSnapshot(meta, file), None)
  }

  method ColdStartFromSnapshot(store: MemStore, feed: Feed, entry: ManifestSnapshot) returns (error: Option<ApplyError>)
    requires Tracked(store)
    modifies store
    ensures Tracked(store) && store.generation == old(store.generation)
    ensures var plan := PlanSnapshot(feed, entry, old(store.meta));
            error == plan.error && store.meta == plan.meta && store.ops == old(store.ops) + plan.ops
  {
    var basis := FindEpoch(feed.epochs, entry.e);
    if basis.None? {
      return Some(SnapshotRefused);
    }
    var file := feed.fetchSnapshot(entry.e);
    if file.None? {
      return Some(FetchFailed);
    }
    var parsed := ColdStart.Parse(file.value.lines, file.value.block);
    if parsed.Malformed? {
      return Some(SnapshotRefused);
    }
    ColdStart.SpelledUnique(file.value.lines, parsed.slots, ColdStart.Spelled(file.value.lines, file.value.block).value);
    if |parsed.slots| != entry.slots || !SnapshotBound(feed, entry, basis.value.hash, file.value) {
      return Some(SnapshotRefused);
    }
    GenerationStep(store.ops, Install(parsed.slots));
    store.InstallSnapshot(parsed.slots, WithSnapshot(store.meta, file.value));
    error := None;
  }

  // ------------------------------------------------------------ the whole apply

  function WithPool(meta: Meta, genesis: Genesis): Meta {
    meta.(pool := Some(genesis.pool))
  }

  function WithChain(meta: Meta, genesis: Genesis): Meta {
    meta.(chainId := Some(genesis.chainId))
  }

  /** The identity pinned on first contact, by two writes, and compared ever after. */
  function PlanIdentity(feed: Feed, meta: Meta): Plan {
    var m := if meta.pool.None? then WithChain(WithPool(meta, feed.genesis), feed.genesis) else meta;
    if m.pool != Some(feed.genesis.pool) then Plan([], m, Some(PoolMismatch))
    else if m.chainId.Some? && m.chainId != Some(feed.genesis.chainId) then Plan([], m, Some(ChainMismatch))
    else if feed.manifestChainId != feed.genesis.chainId then Plan([], m, Some(FeedDisagrees))
    else Plan([], m, None)
  }

  ghost function PlanCold(feed: Feed, mode: ColdStartMode, meta: Meta, empty: bool): Plan {
    if mode.FromEpochs? || !empty then Plan([], meta, None)
    else if feed.snapshot.Some? then PlanSnapshot(feed, feed.snapshot.value, meta)
    else if mode.FromSnapshot? then Plan([], meta, Some(SnapshotUnavailable))
    else Plan([], meta, None)
  }

  /** The manifest no longer lists our last applied epoch under our hash. */
  predicate Diverges(feed: Feed, meta: Meta) {
    meta.lastEpochApplied.Some? && meta.lastEpochHash.Some?
    && var listed := FindEpoch(feed.epochs, meta.lastEpochApplied.value);
       listed.None? || listed.value.hash != meta.lastEpochHash.value
  }

  function Floor(meta: Meta): Block {
    if meta.lastEpochTo.Some? then meta.lastEpochTo.value else 0
  }

  function WithHead(meta: Meta, file: HeadFile): Meta {
    meta.(headEtag := Some(file.etag), headNumber := Some(file.head), l1Accepted := Some(file.l1Accepted))
  }

  /** Every block of a head file carries its finality and lies in the tail. */
  predicate MalformedHead(file: HeadFile) {
    !Structured(file.lines, file.footer) || exists i :: 0 <= i < |file.lines| && (file.lines[i].fin.None? || file.lines[i].number < file.tailFrom)
  }

  function PlanHead(feed: Feed, meta: Meta): Plan {
    match feed.head
    case HeadFailed => Plan([], meta, Some(FetchFailed))
    case NotModified => Plan([], meta, None)
    case Head(file) =>
      if MalformedHead(file) then Plan([], meta, Some(FileMalformed))
      else if file.tailFrom > Floor(meta) + 1 then Plan([], meta, Some(AdvancedMidSync))
      else Plan([Replace(Above(Floor(meta)), file.lines)], WithHead(meta, file), None)
  }

  /** The epochs, unless the feed diverged, and then the tail. */
  function PlanBlocks(feed: Feed, meta: Meta): Plan {
    if Diverges(feed, meta) then Plan([], meta, Some(Diverged))
    else
      var epochs := PlanEpochs(feed, feed.epochs, meta);
      if epochs.error.Some? then epochs
      else
        var head := PlanHead(feed, epochs.meta);
        head.(ops := epochs.ops + head.ops)
  }

  /** A cold start, when one is due, and then the published blocks. */
  ghost function PlanFold(feed: Feed, mode: ColdStartMode, meta: Meta, empty: bool): Plan {
    var cold := PlanCold(feed, mode, meta, empty);
    if cold.error.Some? then cold
    else
      var blocks := PlanBlocks(feed, cold.meta);
      blocks.(ops := cold.ops + blocks.ops)
  }

  ghost function PlanFeed(feed: Feed, mode: ColdStartMode, meta: Meta, empty: bool): Plan {
    var pinned := PlanIdentity(feed, meta);
    if pinned.error.Some? then pinned else PlanFold(feed, mode, pinned.meta, empty)
  }

  // ------------------------------------------------------ the pinned identity

  ghost predicate SameIdentity(a: Meta, b: Meta) {
    a.pool == b.pool && a.chainId == b.chainId
  }

  lemma {:induction false} EpochsKeepPin(feed: Feed, entries: seq<ManifestEpoch>, meta: Meta)
    ensures SameIdentity(PlanEpochs(feed, entries, meta).meta, meta)
    decreases |entries|
  {
    if entries != [] {
      if Skips(meta, entries[0]) {
        EpochsKeepPin(feed, entries[1..], meta);
      } else if feed.fetchEpoch(entries[0].e).Some? {
        EpochsKeepPin(feed, entries[1..], WithEpoch(meta, entries[0]));
      }
    }
  }

  lemma BlocksKeepPin(feed: Feed, meta: Meta)
    ensures SameIdentity(PlanBlocks(feed, meta).meta, meta)
  {
    EpochsKeepPin(feed, feed.epochs, meta);
  }

  lemma FoldKeepsPin(feed: Feed, mode: ColdStartMode, meta: Meta, empty: bool)
    ensures SameIdentity(PlanFold(feed, mode, meta, empty).meta, meta)
  {
    BlocksKeepPin(feed, PlanCold(feed, mode, meta, empty).meta);
  }

  /** A feed about the pinned pool and chain, its manifest included. */
  predicate OfPin(feed: Feed, meta: Meta) {
    && meta.pool == Some(feed.genesis.pool) && (meta.chainId.Some? ==> meta.chainId == Some(feed.genesis.chainId))
    && feed.manifestChainId == feed.genesis.chainId
  }

  /** Once a pool is pinned, no apply changes the identity, an apply without an error comes from
      a feed about it, and any other feed writes no row. A chain id that was not pinned with the
      pool is never pinned later. */
  lemma PinHolds(feed: Feed, mode: ColdStartMode, meta: Meta, empty: bool)
    requires meta.pool.Some?
    ensures var plan := PlanFeed(feed, mode, meta, empty);
            && SameIdentity(plan.meta, meta) && (plan.error.None? ==> OfPin(feed, meta)) && (!OfPin(feed, meta) ==> plan.ops == [])
  {
    FoldKeepsPin(feed, mode, meta, empty);
  }

  /** One contact of a mirror with a feed. */
  datatype Contact = Contact(feed: Feed, mode: ColdStartMode, empty: bool)

  ghost function Answered(meta: Meta, c: Contact): Plan {
    PlanFeed(c.feed, c.mode, meta, c.empty)
  }

  /** What happens to a mirror: an apply, or a stop between the two writes that pin an identity. */
  datatype Visit = Apply(contact: Contact) | StopPinning(feed: Feed)

  function FeedOf(v: Visit): Feed {
    match v
    case Apply(c) => c.feed
    case StopPinning(feed) => feed
  }

  /** The metadata of a new mirror after what happened to it. */
  ghost function MetaAfter(visits: seq<Visit>): Meta {
    if visits == [] then NO_META
    else
      var before := MetaAfter(visits[..|visits| - 1]);
      match visits[|visits| - 1]
      case Apply(c) => Answered(before, c).meta
      case StopPinning(feed) => if before.pool.None? then WithPool(before, feed.genesis) else before
  }

  lemma FirstPins(c: Contact)
    ensures var meta := Answered(NO_META, c).meta; meta.pool == Some(c.feed.genesis.pool) && meta.chainId == Some(c.feed.genesis.chainId)
  {
    FoldKeepsPin(c.feed, c.mode, PlanIdentity(c.feed, NO_META).meta, c.empty);
  }

  /** The identity the first visit leaves for good. */
  ghost predicate PinnedBy(meta: Meta, first: Visit) {
    && meta.pool == Some(FeedOf(first).genesis.pool)
    && meta.chainId == if first.StopPinning? then None else Some(FeedOf(first).genesis.chainId)
  }

  /** Over every run of a new mirror: the first feed it meets fixes the pool for good, and the
      chain id exactly when the mirror did not stop between the two writes; every later apply
      without an error came from a feed about what is fixed. */
  lemma {:induction false} PinnedForever(visits: seq<Visit>, i: nat)
    requires 0 < i <= |visits|
    ensures PinnedBy(MetaAfter(visits[..i]), visits[0])
    ensures i < |visits| && visits[i].Apply? && Answered(MetaAfter(visits[..i]), visits[i].contact).error.None? ==>
              var now, first := FeedOf(visits[i]).genesis, FeedOf(visits[0]).genesis;
              now.pool == first.pool && (visits[0].Apply? ==> now.chainId == first.chainId)
    decreases i
  {
    var last := visits[i - 1];
    var before := MetaAfter(visits[..i - 1]);
    assert visits[..i][..i - 1] == visits[..i - 1] && visits[..i][i - 1] == last;
    if i == 1 {
      assert visits[..0] == [];
      if last.Apply? { FirstPins(last.contact); }
    } else {
      PinnedForever(visits, i - 1);
      if last.Apply? { PinHolds(last.contact.feed, last.contact.mode, before, last.contact.empty); }
    }
    var meta := MetaAfter(visits[..i]);
    assert PinnedBy(meta, visits[0]);
    if i < |visits| && visits[i].Apply? { PinHolds(visits[i].contact.feed, visits[i].contact.mode, meta, visits[i].contact.empty); }
  }

  /** Two applies in a row, of feeds about two chains, both without an error. */
  ghost predicate TakesBoth(meta: Meta, a: Contact, b: Contact) {
    && a.feed.genesis.chainId != b.feed.genesis.chainId
    && Answered(meta, a).error.None? && Answered(Answered(meta, a).meta, b).error.None?
  }

  /** A feed of a chain about the pinned pool with nothing new in it. */
  function Quiet(meta: Meta, pool: Felt, chainId: string): Contact {
    var epochs := if meta.lastEpochApplied.Some? && meta.lastEpochHash.Some? then [ManifestEpoch(meta.lastEpochApplied.value, 0, 0, meta.lastEpochHash.value)] else [];
    Contact(Feed(Genesis(pool, chainId, 1), chainId, epochs, None, e => None, e => None, NotModified), FromEpochs, false)
  }

  lemma QuietFolds(meta: Meta, chainId: string)
    requires meta.pool.Some? && meta.chainId.None?
    ensures Answered(meta, Quiet(meta, meta.pool.value, chainId)) == Plan([], meta, None)
  {
    var feed := Quiet(meta, meta.pool.value, chainId).feed;
    if feed.epochs != [] { assert feed.epochs[1..] == []; }
    assert PlanEpochs(feed, feed.epochs, meta) == Plan([], meta, None);
    var none: seq<Op> := [];
    assert none + none == none;
    assert PlanBlocks(feed, meta) == Plan(none, meta, None);
  }

  /** With a pool pinned, feeds of two chains can both be folded exactly when no chain is pinned. */
  lemma TwoChainsExactly(meta: Meta)
    requires meta.pool.Some?
    ensures (exists a, b :: TakesBoth(meta, a, b)) <==> meta.chainId.None?
  {
    if meta.chainId.None? {
      var a, b := Quiet(meta, meta.pool.value, "a"), Quiet(meta, meta.pool.value, "b");
      QuietFolds(meta, "a");
      QuietFolds(meta, "b");
      assert TakesBoth(meta, a, b);
    }
    forall a, b | TakesBoth(meta, a, b) ensures meta.chainId.None? {
      PinHolds(a.feed, a.mode, meta, a.empty);
      PinHolds(b.feed, b.mode, Answered(meta, a).meta, b.empty);
    }
  }

  /** A mirror that stops between the two writes of its first contact, and then takes feeds of two
      chains. */
  lemma StoppedPinTakesBoth()
    ensures var a, b := Quiet(WithPool(NO_META, Genesis(9, "a", 1)), 9, "a"), Quiet(WithPool(NO_META, Genesis(9, "a", 1)), 9, "b");
            TakesBoth(MetaAfter([StopPinning(a.feed)]), a, b)
  {
    var meta := WithPool(NO_META, Genesis(9, "a", 1));
    var a, b := Quiet(meta, 9, "a"), Quiet(meta, 9, "b");
    assert [StopPinning(a.feed)][..0] == [];
    assert MetaAfter([StopPinning(a.feed)]) == meta;
    QuietFolds(meta, "a");
    QuietFolds(meta, "b");
  }

  predicate IsEmpty(store: MemStore)
    reads store
  {
    store.meta.lastEpochApplied.None? && store.blocks == map[] && store.storage == map[]
  }

  method ColdStartIfEmpty(store: MemStore, feed: Feed, mode: ColdStartMode) returns (error: Option<ApplyError>)
    requires Tracked(store)
    modifies store
    ensures Tracked(store) && store.generation == old(store.generation)
    ensures var plan := PlanCold(feed, mode, old(store.meta), old(IsEmpty(store)));
            error == plan.error && store.meta == plan.meta && store.ops == old(store.ops) + plan.ops
  {
    assert store.ops + [] == store.ops;
    if mode.FromEpochs? || !IsEmpty(store) {
      return None;
    }
    if feed.snapshot.Some? {
      error := ColdStartFromSnapshot(store, feed, feed.snapshot.value);
    } else {
      error := if mode.FromSnapshot? then Some(SnapshotUnavailable) else None;
    }
  }

  method ApplyHead(store: MemStore, feed: Feed) returns (error: Option<ApplyError>, rewound: bool)
    requires Tracked(store)
    modifies store
    ensures Tracked(store) && store.generation >= old(store.generation)
    ensures var plan := PlanHead(feed, old(store.meta));
            error == plan.error && store.meta == plan.meta && store.ops == old(store.ops) + plan.ops
    ensures rewound <==> store.generation != old(store.generation)
  {
    assert store.ops + [] == store.ops;
    match feed.head
    case HeadFailed => return Some(FetchFailed), false;
    case NotModified => return None, false;
    case Head(file) =>
      if MalformedHead(file) {
        return Some(FileMalformed), false;
      }
      var floor: nat := Floor(store.meta);
      if file.tailFrom > floor + 1 {
        return Some(AdvancedMidSync), false;
      }
      GenerationStep(store.ops, Replace(Above(floor), file.lines));
      rewound := ReplaceTail(store, floor, file, WithHead(store.meta, file));
      error := None;
  }

  method PinIdentity(store: MemStore, feed: Feed) returns (error: Option<ApplyError>)
    requires Tracked(store)
    modifies store`meta
    ensures Tracked(store) && store.ops == old(store.ops)
    ensures var plan := PlanIdentity(feed, old(store.meta)); error == plan.error && store.meta == plan.meta
    ensures IsEmpty(store) == old(IsEmpty(store))
  {
    if store.meta.pool.None? {
      store.meta := WithPool(store.meta, feed.genesis);
      store.meta := WithChain(store.meta, feed.genesis);
    }
    if store.meta.pool != Some(feed.genesis.pool) {
      return Some(PoolMismatch);
    }
    if store.meta.chainId.Some? && store.meta.chainId != Some(feed.genesis.chainId) {
      return Some(ChainMismatch);
    }
    error := if feed.manifestChainId != feed.genesis.chainId then Some(FeedDisagrees) else None;
  }

  method ApplyBlocks(store: MemStore, feed: Feed) returns (error: Option<ApplyError>, rewound: bool)
    requires Tracked(store)
    modifies store
    ensures Tracked(store) && store.generation >= old(store.generation)
    ensures var plan := PlanBlocks(feed, old(store.meta));
            error == plan.error && store.meta == plan.meta && store.ops == old(store.ops) + plan.ops
    ensures rewound <==> store.generation != old(store.generation)
  {
    ghost var ops := store.ops;
    if Diverges(feed, store.meta) {
      assert ops + [] == ops;
      return Some(Diverged), false;
    }
    ghost var epochs := PlanEpochs(feed, feed.epochs, store.meta);
    error, rewound := ApplyEpochs(store, feed);
    if error.None? {
      ghost var head := PlanHead(feed, epochs.meta);
      var replaced;
      error, replaced := ApplyHead(store, feed);
      rewound := rewound || replaced;
      assert store.ops == ops + (epochs.ops + head.ops);
    }
  }

  /** The plan was carried out: its entries appended, its metadata set, its error returned. */
  ghost predicate CarriedOut(plan: Plan, ops: seq<Op>, error: Option<ApplyError>, meta: Meta, now: seq<Op>) {
    match plan
    case Plan(more, left, failed) => error == failed && meta == left && now == ops + more
  }

  lemma FoldCarriedOut(feed: Feed, mode: ColdStartMode, was: Meta, empty: bool, ops: seq<Op>,
                       cold: Plan, mid: Meta, midOps: seq<Op>, error: Option<ApplyError>, meta: Meta, now: seq<Op>)
    requires cold == PlanCold(feed, mode, was, empty) && CarriedOut(cold, ops, None, mid, midOps)
    requires CarriedOut(PlanBlocks(feed, mid), midOps, error, meta, now)
    ensures CarriedOut(PlanFold(feed, mode, was, empty), ops, error, meta, now)
  {
    assert (ops + cold.ops) + PlanBlocks(feed, mid).ops == ops + (cold.ops + PlanBlocks(feed, mid).ops);
  }

  lemma ColdFailed(feed: Feed, mode: ColdStartMode, was: Meta, empty: bool, ops: seq<Op>, error: ApplyError, meta: Meta, now: seq<Op>)
    requires CarriedOut(PlanCold(feed, mode, was, empty), ops, Some(error), meta, now)
    ensures CarriedOut(PlanFold(feed, mode, was, empty), ops, Some(error), meta, now)
  {
  }

  method Fold(store: MemStore, feed: Feed, mode: ColdStartMode) returns (error: Option<ApplyError>, rewound: bool)
    requires Tracked(store)
    modifies store
    ensures Tracked(store) && store.generation >= old(store.generation)
    ensures CarriedOut(PlanFold(feed, mode, old(store.meta), old(IsEmpty(store))), old(store.ops), error, store.meta, store.ops)
    ensures rewound <==> store.generation != old(store.generation)
  {
    ghost var was, empty, ops := store.meta, IsEmpty(store), store.ops;
    ghost var cold := PlanCold(feed, mode, was, empty);
    error := ColdStartIfEmpty(store, feed, mode);
    if error.Some? {
      ColdFailed(feed, mode, was, empty, ops, error.value, store.meta, store.ops);
      return error, false;
    }
    ghost var mid, midOps := store.meta, store.ops;
    error, rewound := ApplyBlocks(store, feed);
    FoldCarriedOut(feed, mode, was, empty, ops, cold, mid, midOps, error, store.meta, store.ops);
  }

  /** Fold the feed. The store's log, metadata and error are the plan's; the generation keeps
      counting exactly the writes that lost a stored block of their range. */
  method ApplyFeed(store: MemStore, feed: Feed, mode: ColdStartMode) returns (r: Applied)
    requires Tracked(store)
    modifies store
    ensures Tracked(store)
    ensures var plan := PlanFeed(feed, mode, old(store.meta), old(IsEmpty(store)));
            && store.meta == plan.meta && store.ops == old(store.ops) + plan.ops
            && plan.error == match r case Failed(e) => Some(e) case Done(_, _) => None
    ensures r.Done? ==> (r.tailRewound <==> store.generation != old(store.generation))
    ensures r.Done? ==> r.head == if store.meta.headNumber.Some? then store.meta.headNumber.value else 0
  {
    var rewound := false;
    var error := PinIdentity(store, feed);
    if error.None? {
      error, rewound := Fold(store, feed, mode);
    } else {
      assert store.ops + [] == store.ops;
    }
    if error.Some? {
      return Failed(error.value);
    }
    r := Done(if store.meta.headNumber.Some? then store.meta.headNumber.value else 0, rewound);
  }
}
