/** The in-memory mirror of `crates/consumer/src/mem.rs`: rows by slot and write block, as-of
    reads, range replacement with the skipped clear scan, and snapshot installs.

    The ghost field `ops` is the plain log of `MirrorLog`; every method says what it appends
    to it, and `Valid` ties the rows to it. */
module MemStores {
  import opened Felts
  import opened Mpt
  import opened MptRoot
  import opened CachedTries
  import opened MirrorLog
  import opened Checkpoint

  type Digest = nat

  /** The typed metadata rows; `None` is a missing key. */
  datatype Meta = Meta(
    pool: Option<Felt>, chainId: Option<string>,
    lastEpochApplied: Option<nat>, lastEpochHash: Option<Digest>, lastEpochTo: Option<Block>,
    headEtag: Option<string>, headNumber: Option<Block>, l1Accepted: Option<Block>,
    snapshotBasis: Option<Block>, historyFloor: Option<nat>,
    verifiedCheckpoint: Option<TrustedCheckpoint>, verificationFailed: Option<bool>)

  const NO_META := Meta(None, None, None, None, None, None, None, None, None, None, None, None)

  type Rows = map<(Felt, Block), Felt>

  function Row(rows: Rows, slot: Felt, b: Block): Option<Felt> {
    if (slot, b) in rows then Some(rows[(slot, b)]) else None
  }

  function HashRow(blocks: map<Block, Felt>, n: Block): Option<Felt> {
    if n in blocks then Some(blocks[n]) else None
  }

  /** The rows are what survives of the log. */
  ghost predicate RowsOf(rows: Rows, ops: seq<Op>) {
    forall slot, b :: Row(rows, slot, b) == Surviving(ops, slot, b)
  }

  ghost predicate BlocksOf(blocks: map<Block, Felt>, ops: seq<Op>) {
    forall n :: HashRow(blocks, n) == SurvivingHash(ops, n)
  }

  /** No row carries a write block above `max`. */
  ghost predicate AtMost(rows: Rows, max: Block) {
    forall key :: key in rows ==> key.1 <= max
  }

  function Newer(was: Option<Felt>, write: Option<Felt>): Option<Felt> {
    if write.Some? then write else was
  }

  // --------------------------------------------------------- range clearing

  /** The rows left after clearing `range`. */
  ghost predicate Cleared(rows: Rows, base: Rows, range: Range) {
    forall slot, b :: Row(rows, slot, b) == if Contains(range, b) then None else Row(base, slot, b)
  }

  /** Skipping the scan when the range starts above the highest write block is the same as
      scanning. */
  lemma SkipIsScan(rows: Rows, max: Block, range: Range)
    requires AtMost(rows, max) && max < Bounds(range).0
    ensures Cleared(rows, rows, range)
  {
    forall slot: Felt, b: Block ensures Row(rows, slot, b) == if Contains(range, b) then None else Row(rows, slot, b) {
      if Contains(range, b) { assert (slot, b) !in rows; }
    }
  }

  // ------------------------------------------------------------ applied lines

  ghost predicate LinesApplied(rows: Rows, base: Rows, lines: seq<BlockLine>) {
    forall slot, b :: Row(rows, slot, b) == Newer(Row(base, slot, b), LineWrite(lines, slot, b))
  }

  ghost predicate DiffsApplied(rows: Rows, base: Rows, number: Block, diffs: seq<(Felt, Felt)>) {
    forall slot, b :: Row(rows, slot, b) == Newer(Row(base, slot, b), if b == number then LastDiff(diffs, slot) else None)
  }

  lemma OneMoreDiff(rows: Rows, base: Rows, number: Block, diffs: seq<(Felt, Felt)>, j: nat)
    requires j < |diffs| && DiffsApplied(rows, base, number, diffs[..j])
    ensures DiffsApplied(rows[(diffs[j].0, number) := diffs[j].1], base, number, diffs[..j + 1])
  {
    assert diffs[..j + 1][..j] == diffs[..j] && diffs[..j + 1][j] == diffs[j];
  }

  lemma OneMoreLine(before: Rows, rows: Rows, base: Rows, lines: seq<BlockLine>, i: nat)
    requires i < |lines| && LinesApplied(before, base, lines[..i])
    requires DiffsApplied(rows, before, lines[i].number, lines[i].diffs)
    ensures LinesApplied(rows, base, lines[..i + 1])
  {
    assert lines[..i + 1][..i] == lines[..i] && lines[..i + 1][i] == lines[i];
  }

  lemma Replaced(rows: Rows, cleared: Rows, base: Rows, ops: seq<Op>, range: Range, lines: seq<BlockLine>)
    requires RowsOf(base, ops) && Cleared(cleared, base, range) && LinesApplied(rows, cleared, lines)
    ensures RowsOf(rows, ops + [Replace(range, lines)])
  {
    var out := ops + [Replace(range, lines)];
    assert out[..|out| - 1] == ops;
    forall slot: Felt, b: Block ensures Row(rows, slot, b) == Surviving(out, slot, b) {
      assert Row(cleared, slot, b) == if Contains(range, b) then None else Surviving(ops, slot, b);
    }
  }

  /** Block hashes after clearing a range by its bounds and inserting the lines in turn. */
  ghost predicate HashesApplied(blocks: map<Block, Felt>, base: map<Block, Felt>, range: Range, lines: seq<BlockLine>) {
    forall n :: HashRow(blocks, n) == Newer(if InBounds(range, n) then None else HashRow(base, n), LineHash(lines, n))
  }

  lemma OneMoreHash(blocks: map<Block, Felt>, base: map<Block, Felt>, range: Range, lines: seq<BlockLine>, i: nat)
    requires i < |lines| && HashesApplied(blocks, base, range, lines[..i])
    ensures HashesApplied(blocks[lines[i].number := lines[i].hash], base, range, lines[..i + 1])
  {
    assert lines[..i + 1][..i] == lines[..i] && lines[..i + 1][i] == lines[i];
  }

  lemma HashesReplaced(blocks: map<Block, Felt>, base: map<Block, Felt>, ops: seq<Op>, range: Range, lines: seq<BlockLine>)
    requires BlocksOf(base, ops) && HashesApplied(blocks, base, range, lines)
    ensures BlocksOf(blocks, ops + [Replace(range, lines)])
  {
    var out := ops + [Replace(range, lines)];
    assert out[..|out| - 1] == ops;
    forall n: Block ensures HashRow(blocks, n) == SurvivingHash(out, n) {
      assert HashRow(base, n) == SurvivingHash(ops, n);
    }
  }

  // ---------------------------------------------------------- installed slots

  ghost predicate SlotsInstalled(rows: Rows, base: Rows, slots: seq<SnapSlot>) {
    forall slot, b :: Row(rows, slot, b) == Newer(Row(base, slot, b), SnapWrite(slots, slot, b))
  }

  lemma OneMoreSlot(rows: Rows, base: Rows, slots: seq<SnapSlot>, i: nat)
    requires i < |slots| && SlotsInstalled(rows, base, slots[..i])
    ensures SlotsInstalled(rows[(slots[i].k, slots[i].w) := slots[i].v], base, slots[..i + 1])
  {
    assert slots[..i + 1][..i] == slots[..i] && slots[..i + 1][i] == slots[i];
  }

  lemma Installed(rows: Rows, base: Rows, blocks: map<Block, Felt>, ops: seq<Op>, slots: seq<SnapSlot>)
    requires RowsOf(base, ops) && SlotsInstalled(rows, base, slots) && BlocksOf(blocks, ops)
    ensures RowsOf(rows, ops + [Install(slots)]) && BlocksOf(blocks, ops + [Install(slots)])
  {
    var out := ops + [Install(slots)];
    assert out[..|out| - 1] == ops;
    forall slot: Felt, b: Block ensures Row(rows, slot, b) == Surviving(out, slot, b) { assert Row(base, slot, b) == Surviving(ops, slot, b); }
    forall n: Block ensures HashRow(blocks, n) == SurvivingHash(out, n) { assert HashRow(blocks, n) == SurvivingHash(ops, n); }
  }

  // -------------------------------------------------------------- as-of reads

  lemma {:induction false} Top(bs: set<Block>) returns (m: Block)
    requires bs != {}
    ensures m in bs && forall b :: b in bs ==> b <= m
  {
    m :| m in bs;
    var rest := bs - {m};
    if rest != {} {
      var n := Top(rest);
      var was := m;
      if m < n { m := n; }
      forall b | b in bs ensures b <= m {
        if b != was { assert b in rest; }
      }
    } else {
      assert bs == {m};
    }
  }

  lemma HasMax(bs: set<Block>)
    requires bs != {}
    ensures exists m :: m in bs && forall b :: b in bs ==> b <= m
  {
    var m := Top(bs);
  }

  function MaxOf(bs: set<Block>): (m: Block)
    requires bs != {}
    ensures m in bs && forall b :: b in bs ==> b <= m
  {
    HasMax(bs);
    var m :| m in bs && forall b :: b in bs ==> b <= m;
    m
  }

  /** The blocks at or below `bound` in which a row for `slot` exists. */
  function WriteBlocks(rows: Rows, slot: Felt, bound: Block): set<Block> {
    set key | key in rows && key.0 == slot && key.1 <= bound :: key.1
  }

  function LastRow(rows: Rows, slot: Felt, bound: Block): (Felt, Block) {
    var bs := WriteBlocks(rows, slot, bound);
    if bs == {} then (0, 0) else (rows[(slot, MaxOf(bs))], MaxOf(bs))
  }

  lemma LastRowIsRead(rows: Rows, ops: seq<Op>, slot: Felt, bound: Block)
    requires RowsOf(rows, ops)
    ensures LastRow(rows, slot, bound) == Read(ops, slot, bound)
  {
    LastRowIsReadUpTo(rows, ops, slot, bound);
  }

  /** The lookup needs the slot's rows at or below the bound only. */
  lemma LastRowIsReadUpTo(rows: Rows, ops: seq<Op>, slot: Felt, bound: Block)
    requires forall b: Block :: b <= bound ==> Row(rows, slot, b) == Surviving(ops, slot, b)
    ensures LastRow(rows, slot, bound) == Read(ops, slot, bound)
  {
    var bs := WriteBlocks(rows, slot, bound);
    forall b: Block | b <= bound ensures b in bs <==> Surviving(ops, slot, b).Some? {
      assert Row(rows, slot, b) == Surviving(ops, slot, b);
      if (slot, b) in rows { assert (slot, b).1 in bs; }
    }
    if bs == {} {
      ReadNothing(ops, slot, bound);
    } else {
      var m := MaxOf(bs);
      assert Row(rows, slot, m) == Surviving(ops, slot, m);
      ReadLatest(ops, slot, bound, m, rows[(slot, m)]);
    }
  }

  // ----------------------------------------------------------- the slot list

  /** The list holds each slot of the set once. */
  ghost predicate ListsSet(list: seq<(Felt, Felt)>, m: map<Felt, Felt>) {
    && (forall i :: 0 <= i < |list| ==> list[i].0 in m && m[list[i].0] == list[i].1)
    && (forall slot :: slot in m ==> (slot, m[slot]) in list)
    && (forall i, j :: 0 <= i < j < |list| ==> list[i].0 != list[j].0)
  }

  /** The slot set by key path, as the trie sees it. */
  function PathMap(m: map<Felt, Felt>): (s: Slots) {
    map k | k in (set slot | slot in m :: KeyBits(slot)) && |k| == HEIGHT && PathFelt(k) in m :: m[PathFelt(k)]
  }

  ghost predicate TrieKeys(m: map<Felt, Felt>) {
    forall slot :: slot in m ==> IsTrieKey(slot)
  }

  /** `k` is the path of a slot of `m`. */
  ghost predicate PathIn(m: map<Felt, Felt>, k: Bits) {
    |k| == HEIGHT && PathFelt(k) in m
  }

  lemma PathMapHas(m: map<Felt, Felt>, k: Bits)
    ensures k in PathMap(m) <==> PathIn(m, k)
    ensures k in PathMap(m) ==> PathMap(m)[k] == m[PathFelt(k)]
  {
    if PathIn(m, k) {
      PathFeltRoundTrip(k);
      assert KeyBits(PathFelt(k)) == k;
    }
  }

  lemma PathMapAdds(m: map<Felt, Felt>, slot: Felt)
    requires slot in m && IsTrieKey(slot)
    ensures PathMap(m) == PathMap(m - {slot})[KeyBits(slot) := m[slot]]
  {
    var out := PathMap(m - {slot})[KeyBits(slot) := m[slot]];
    forall k ensures k in PathMap(m) <==> k in out { PathMapKey(m, slot, k); }
    forall k | k in PathMap(m) ensures PathMap(m)[k] == out[k] { PathMapKey(m, slot, k); }
  }

  lemma PathMapKey(m: map<Felt, Felt>, slot: Felt, k: Bits)
    requires slot in m && IsTrieKey(slot)
    ensures k in PathMap(m) <==> k in PathMap(m - {slot}) || k == KeyBits(slot)
    ensures k in PathMap(m) ==> PathMap(m)[k] == if k == KeyBits(slot) then m[slot] else PathMap(m - {slot})[k]
  {
    KeyBitsRoundTrip(slot);
    PathMapHas(m, k);
    PathMapHas(m - {slot}, k);
    if PathIn(m, k) { PathFeltRoundTrip(k); }
  }

  /** The list and the set are one slot map. */
  lemma {:induction false} ListIsPathMap(list: seq<(Felt, Felt)>, m: map<Felt, Felt>)
    requires ListsSet(list, m) && TrieKeys(m) && forall slot :: slot in m ==> m[slot] != 0
    ensures SlotMap(list) == PathMap(m)
    decreases |list|
  {
    if list == [] {
      assert m == map[];
      forall k ensures k !in PathMap(m) { PathMapHas(m, k); }
    } else {
      var slot := list[0].0;
      var rest := m - {slot};
      ListsRest(list, m);
      ListIsPathMap(list[1..], rest);
      PathMapAdds(m, slot);
    }
  }

  lemma ListsRest(list: seq<(Felt, Felt)>, m: map<Felt, Felt>)
    requires ListsSet(list, m) && list != []
    ensures ListsSet(list[1..], m - {list[0].0})
  {
    var rest, tail := m - {list[0].0}, list[1..];
    forall i | 0 <= i < |tail| ensures tail[i].0 in rest && rest[tail[i].0] == tail[i].1 { assert tail[i] == list[i + 1]; }
    forall slot | slot in rest ensures (slot, rest[slot]) in tail {
      assert (slot, m[slot]) in list;
      assert list == [list[0]] + tail;
    }
  }

  /** `slots` maps every key path to the value its slot reads as of `block`, and there is no
      other slot. */
  ghost predicate MapAt(ops: seq<Op>, block: Block, slots: Slots) {
    && (forall k :: k in slots ==> |k| == HEIGHT && slots[k] == Read(ops, PathFelt(k), block).0)
    && (forall k :: |k| == HEIGHT ==> (k in slots <==> Read(ops, PathFelt(k), block).0 != 0))
    && (forall slot: Felt :: Read(ops, slot, block).0 != 0 ==> IsTrieKey(slot))
  }

  lemma MapAtUnique(ops: seq<Op>, block: Block, a: Slots, b: Slots)
    requires MapAt(ops, block, a) && MapAt(ops, block, b)
    ensures a == b
  {
    forall k ensures k in a <==> k in b { MapAtHas(ops, block, a, k); MapAtHas(ops, block, b, k); }
    forall k | k in a ensures a[k] == b[k] { MapAtHas(ops, block, a, k); MapAtHas(ops, block, b, k); }
  }

  lemma MapAtHas(ops: seq<Op>, block: Block, slots: Slots, k: Bits)
    requires MapAt(ops, block, slots)
    ensures k in slots <==> |k| == HEIGHT && Read(ops, PathFelt(k), block).0 != 0
    ensures k in slots ==> slots[k] == Read(ops, PathFelt(k), block).0
  {
  }

  lemma PathMapAt(ops: seq<Op>, block: Block)
    requires TrieKeys(SlotSet(ops, block))
    ensures MapAt(ops, block, PathMap(SlotSet(ops, block)))
  {
    var m := SlotSet(ops, block);
    forall k ensures k in PathMap(m) <==> |k| == HEIGHT && Read(ops, PathFelt(k), block).0 != 0 { PathMapHas(m, k); }
    forall k | k in PathMap(m) ensures PathMap(m)[k] == Read(ops, PathFelt(k), block).0 { PathMapHas(m, k); }
    forall slot: Felt | Read(ops, slot, block).0 != 0 ensures IsTrieKey(slot) { assert slot in m; }
  }

  /** A slot map exists exactly when every slot is a trie key. */
  lemma MapAtKeys(ops: seq<Op>, block: Block, slots: Slots)
    requires MapAt(ops, block, slots)
    ensures TrieKeys(SlotSet(ops, block)) && slots == PathMap(SlotSet(ops, block)) && WfSlots(slots)
  {
    forall slot | slot in SlotSet(ops, block) ensures IsTrieKey(slot) { assert Read(ops, slot, block).0 != 0; }
    PathMapAt(ops, block);
    MapAtUnique(ops, block, slots, PathMap(SlotSet(ops, block)));
  }

  /** The complete slot map at `block` has this root. */
  ghost predicate RootIs(h: Hasher, ops: seq<Op>, block: Block, root: Felt) {
    exists slots :: MapAt(ops, block, slots) && WfSlots(slots) && root == HashAt(h, slots, [])
  }

  lemma RootOf(h: Hasher, ops: seq<Op>, block: Block, root: Felt)
    ensures RootIs(h, ops, block, root) <==> TrieKeys(SlotSet(ops, block)) && WfSlots(PathMap(SlotSet(ops, block))) && root == HashAt(h, PathMap(SlotSet(ops, block)), [])
  {
    if RootIs(h, ops, block, root) {
      var slots :| MapAt(ops, block, slots) && WfSlots(slots) && root == HashAt(h, slots, []);
      MapAtKeys(ops, block, slots);
    }
    if TrieKeys(SlotSet(ops, block)) { PathMapAt(ops, block); }
  }

  /** The cached trie refuses exactly the sets that name a key of more than 251 bits. */
  lemma ListRefused(list: seq<(Felt, Felt)>, m: map<Felt, Felt>)
    requires ListsSet(list, m)
    ensures NamesBadKey(list) <==> !TrieKeys(m)
    ensures !NamesTwice(list)
  {
    if !TrieKeys(m) {
      var slot :| slot in m && !IsTrieKey(slot);
      assert (slot, m[slot]) in list;
      var i :| 0 <= i < |list| && list[i] == (slot, m[slot]);
      assert !IsTrieKey(list[i].0);
    }
  }

  class MemStore {
    const trie: CachedTrie
    var meta: Meta
    var blocks: map<Block, Felt>
    var storage: Rows
    var storageMaxBlock: Block
    var generation: nat
    ghost var ops: seq<Op>

    ghost predicate Valid()
      reads this`blocks, this`storage, this`storageMaxBlock, this`ops, trie
    {
      trie.Valid() && RowsOf(storage, ops) && BlocksOf(blocks, ops) && AtMost(storage, storageMaxBlock)
    }

    constructor (h: Hasher)
      ensures Valid() && fresh(trie) && trie.h == h
      ensures ops == [] && meta == NO_META && generation == 0
    {
      trie := new CachedTrie(h);
      meta, blocks, storage, storageMaxBlock, generation, ops := NO_META, map[], map[], 0, 0, [];
    }

    /** `fork`: an independent candidate with the same contents. */
    constructor Fork(of: MemStore)
      requires of.Valid()
      ensures Valid() && fresh(trie) && trie.h == of.trie.h
      ensures ops == of.ops && meta == of.meta && generation == of.generation
      ensures blocks == of.blocks && storage == of.storage
    {
      trie := new CachedTrie.Clone(of.trie);
      meta, blocks, storage := of.meta, of.blocks, of.storage;
      storageMaxBlock, generation, ops := of.storageMaxBlock, of.generation, of.ops;
    }

    method ReadSlotAsOf(slot: Felt, bound: Block) returns (value: Felt, block: Block)
      requires Valid()
      ensures (value, block) == Read(ops, slot, bound)
    {
      LastRowIsRead(storage, ops, slot, bound);
      var last := LastRow(storage, slot, bound);
      value, block := last.0, last.1;
    }

    /** Every mirrored number and hash inside the range. */
    method BlockHashes(range: Range) returns (m: map<Block, Felt>)
      requires Valid()
      ensures forall n :: HashRow(m, n) == if InBounds(range, n) then SurvivingHash(ops, n) else None
    {
      m := map n | n in blocks && InBounds(range, n) :: blocks[n];
      forall n: Block ensures HashRow(m, n) == if InBounds(range, n) then SurvivingHash(ops, n) else None {
        assert HashRow(blocks, n) == SurvivingHash(ops, n);
      }
    }

    /** The complete slot set at `block`, each slot once. */
    method FullSlotSetAsOf(block: Block) returns (list: seq<(Felt, Felt)>)
      requires Valid()
      ensures ListsSet(list, SlotSet(ops, block))
    {
      ghost var all := SlotSet(ops, block);
      ghost var m: map<Felt, Felt> := map[];
      list := [];
      var todo := set key | key in storage :: key.0;
      forall slot | slot !in todo ensures slot !in all {
        LastRowIsRead(storage, ops, slot, block);
        assert forall key :: key in storage ==> key.0 in todo;
        assert WriteBlocks(storage, slot, block) == {};
      }
      while todo != {}
        invariant forall slot :: slot in m <==> slot in all && slot !in todo
        invariant forall slot :: slot in m ==> m[slot] == all[slot]
        invariant ListsSet(list, m)
      {
        var slot :| slot in todo;
        var value, _ := ReadSlotAsOf(slot, block);
        if value != 0 {
          OneMoreListed(list, m, slot, value);
          list, m := list + [(slot, value)], m[slot := value];
        }
        todo := todo - {slot};
      }
      assert m == all;
    }

    /** The root of the complete slot set at `block`, through the cached trie. */
    method StorageRootAt(block: Block) returns (r: UpdateResult)
      requires Valid()
      modifies trie
      ensures Valid()
      ensures r.Root? ==> RootIs(trie.h, ops, block, r.root)
      ensures r.Rejected? ==> exists slot :: Read(ops, slot, block).0 != 0 && !IsTrieKey(slot)
    {
      var list := FullSlotSetAsOf(block);
      ghost var m := SlotSet(ops, block);
      ListRefused(list, m);
      r := trie.Update(list);
      if r.Root? {
        ListIsPathMap(list, m);
        RootOf(trie.h, ops, block, r.root);
      } else {
        ghost var slot :| slot in m && !IsTrieKey(slot);
        assert Read(ops, slot, block).0 != 0;
      }
    }

    method InstallSnapshot(slots: seq<SnapSlot>, meta': Meta)
      requires Valid()
      modifies this
      ensures Valid()
      ensures ops == old(ops) + [Install(slots)] && meta == meta' && generation == old(generation)
    {
      ghost var base := storage;
      for i := 0 to |slots|
        invariant trie.Valid() && AtMost(storage, storageMaxBlock) && SlotsInstalled(storage, base, slots[..i])
        invariant blocks == old(blocks) && ops == old(ops) && generation == old(generation)
      {
        OneMoreSlot(storage, base, slots, i);
        storage := storage[(slots[i].k, slots[i].w) := slots[i].v];
        if slots[i].w > storageMaxBlock { storageMaxBlock := slots[i].w; }
      }
      assert slots[..|slots|] == slots;
      Installed(storage, base, blocks, ops, slots);
      ops := ops + [Install(slots)];
      meta := meta';
    }

    method ClearRange(range: Range)
      requires AtMost(storage, storageMaxBlock)
      modifies this`storage, this`blocks
      ensures Cleared(storage, old(storage), range) && AtMost(storage, storageMaxBlock)
      ensures HashesApplied(blocks, old(blocks), range, [])
    {
      blocks := map n | n in blocks && !InBounds(range, n) :: blocks[n];
      if Bounds(range).0 <= storageMaxBlock {
        storage := map key | key in storage && !Contains(range, key.1) :: storage[key];
      } else {
        SkipIsScan(storage, storageMaxBlock, range);
      }
    }

    method ApplyBlockLine(line: BlockLine)
      requires AtMost(storage, storageMaxBlock)
      modifies this`storage, this`storageMaxBlock, this`blocks
      ensures DiffsApplied(storage, old(storage), line.number, line.diffs) && AtMost(storage, storageMaxBlock)
      ensures blocks == old(blocks)[line.number := line.hash]
    {
      blocks := blocks[line.number := line.hash];
      ghost var base := storage;
      if line.diffs != [] && line.number > storageMaxBlock { storageMaxBlock := line.number; }
      for j := 0 to |line.diffs|
        invariant DiffsApplied(storage, base, line.number, line.diffs[..j]) && AtMost(storage, storageMaxBlock)
        invariant line.diffs != [] ==> line.number <= storageMaxBlock
        invariant blocks == old(blocks)[line.number := line.hash]
      {
        OneMoreDiff(storage, base, line.number, line.diffs, j);
        storage := storage[(line.diffs[j].0, line.number) := line.diffs[j].1];
      }
      assert line.diffs[..|line.diffs|] == line.diffs;
    }

    /** Replace every row of the range by the lines, set the metadata and, when asked, bump
        the generation, in one write. */
    method ReplaceRange(range: Range, lines: seq<BlockLine>, meta': Meta, bump: bool)
      requires Valid()
      modifies this
      ensures Valid()
      ensures ops == old(ops) + [Replace(range, lines)] && meta == meta'
      ensures generation == old(generation) + if bump then 1 else 0
    {
      ghost var base, baseBlocks := storage, blocks;
      ClearRange(range);
      ghost var cleared := storage;
      for i := 0 to |lines|
        invariant trie.Valid() && AtMost(storage, storageMaxBlock)
        invariant LinesApplied(storage, cleared, lines[..i]) && HashesApplied(blocks, baseBlocks, range, lines[..i])
        invariant ops == old(ops) && generation == old(generation)
      {
        ghost var before := storage;
        OneMoreHash(blocks, baseBlocks, range, lines, i);
        ApplyBlockLine(lines[i]);
        OneMoreLine(before, storage, cleared, lines, i);
      }
      assert lines[..|lines|] == lines;
      Replaced(storage, cleared, base, ops, range, lines);
      HashesReplaced(blocks, baseBlocks, ops, range, lines);
      ops := ops + [Replace(range, lines)];
      meta := meta';
      if bump { generation := generation + 1; }
    }
  }

  lemma OneMoreListed(list: seq<(Felt, Felt)>, m: map<Felt, Felt>, slot: Felt, value: Felt)
    requires ListsSet(list, m) && slot !in m
    ensures ListsSet(list + [(slot, value)], m[slot := value])
  {
    var out, more := list + [(slot, value)], m[slot := value];
    assert out[|list|] == (slot, value);
    forall s | s in more ensures (s, more[s]) in out {
      if s != slot { assert (s, m[s]) in list; }
    }
  }
}
