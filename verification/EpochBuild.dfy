/** The epochs the cutter builds (`build_epoch` and `blocks_as_lines` of
    `crates/indexerd/src/cutter.rs`, over the queries of `db.rs`): the stored blocks of a range
    with their rows. Replaying the epochs cut from a database gives that database's rows back,
    and the client accepts what the cutter builds. */
module EpochBuilds {
  import opened Felts
  import opened Mpt
  import opened MirrorLog
  import opened MemStores
  import opened FeedCodec
  import opened ApplyFeeds
  import opened ColdStart
  import opened SnapshotBuild
  import opened Sorting

  /** A row of the block table, with the indices of the block's events. */
  datatype StoredBlock = StoredBlock(hash: Felt, parent: Felt, events: set<nat>)

  datatype Database = Database(blocks: map<Block, StoredBlock>, rows: Rows)

  /** Every storage row references a stored block. */
  ghost predicate Referenced(db: Database) {
    forall key :: key in db.rows ==> key.1 in db.blocks
  }

  // ---------------------------------------------------------- what is built

  function DiffSlot(d: (Felt, Felt)): nat {
    d.0
  }

  function LineNumber(n: Block): nat {
    n
  }

  /** The block's rows, sorted by slot. */
  ghost predicate DiffsOf(diffs: seq<(Felt, Felt)>, rows: Rows, n: Block) {
    && AscendingBy(DiffSlot, diffs)
    && (forall d :: d in diffs ==> Row(rows, d.0, n) == Some(d.1))
    && (forall slot: Felt :: Row(rows, slot, n).Some? ==> (slot, Row(rows, slot, n).value) in diffs)
  }

  ghost predicate EventsOf(list: seq<nat>, events: set<nat>) {
    AscendingBy(Itself, list) && forall e :: e in list <==> e in events
  }

  /** The line of a stored block: its header, its rows and its events, without a finality mark. */
  ghost predicate LineOf(line: BlockLine, db: Database) {
    && line.number in db.blocks && line.fin.None?
    && line.hash == db.blocks[line.number].hash && line.parent == db.blocks[line.number].parent
    && DiffsOf(line.diffs, db.rows, line.number) && EventsOf(line.events, db.blocks[line.number].events)
  }

  /** Exactly the stored blocks of the range, in order. */
  ghost predicate LinesOf(lines: seq<BlockLine>, db: Database, from: Block, to: Block) {
    && Ascending(lines)
    && (forall i :: 0 <= i < |lines| ==> from <= lines[i].number <= to && LineOf(lines[i], db))
    && (forall n: Block :: from <= n <= to && n in db.blocks ==> exists i :: 0 <= i < |lines| && lines[i].number == n)
  }

  /** `diffs_of_block` */
  method DiffsOfBlock(rows: Rows, n: Block) returns (diffs: seq<(Felt, Felt)>)
    ensures DiffsOf(diffs, rows, n)
  {
    diffs := [];
    var todo := set key | key in rows && key.1 == n :: key.0;
    forall slot: Felt | Row(rows, slot, n).Some? ensures slot in todo { assert (slot, n).0 in todo; }
    while todo != {}
      invariant AscendingBy(DiffSlot, diffs) && forall d :: d in diffs ==> d.0 !in todo && Row(rows, d.0, n) == Some(d.1)
      invariant forall slot :: slot in todo ==> Row(rows, slot, n).Some?
      invariant forall slot: Felt :: Row(rows, slot, n).Some? && slot !in todo ==> (slot, Row(rows, slot, n).value) in diffs
    {
      var slot :| slot in todo;
      var d := (slot, rows[(slot, n)]);
      forall i | 0 <= i < |diffs| ensures DiffSlot(diffs[i]) != slot { assert diffs[i] in diffs; }
      InsertAscends(DiffSlot, diffs, d);
      forall x ensures x in Insert(DiffSlot, diffs, d) <==> x in diffs || x == d { InsertMembers(DiffSlot, diffs, d, x); }
      diffs := Insert(DiffSlot, diffs, d);
      todo := todo - {slot};
    }
  }

  /** `events_of_block`, by event index. */
  method EventsOfBlock(events: set<nat>) returns (list: seq<nat>)
    ensures EventsOf(list, events)
  {
    list := [];
    var todo := events;
    while todo != {}
      invariant AscendingBy(Itself, list) && todo <= events && forall e :: e in list <==> e in events && e !in todo
    {
      var e :| e in todo;
      forall i | 0 <= i < |list| ensures Itself(list[i]) != e { assert list[i] in list; }
      InsertAscends(Itself, list, e);
      forall x ensures x in Insert(Itself, list, e) <==> x in list || x == e { InsertMembers(Itself, list, e, x); }
      list := Insert(Itself, list, e);
      todo := todo - {e};
    }
  }

  /** `blocks_in_range` */
  method BlocksInRange(blocks: map<Block, StoredBlock>, from: Block, to: Block) returns (numbers: seq<Block>)
    ensures AscendingBy(LineNumber, numbers) && forall n :: n in numbers <==> n in blocks && from <= n <= to
  {
    numbers := [];
    var todo := set n | n in blocks && from <= n <= to;
    while todo != {}
      invariant AscendingBy(LineNumber, numbers) && forall n :: n in todo ==> n in blocks && from <= n <= to
      invariant forall n :: n in numbers <==> n in blocks && from <= n <= to && n !in todo
    {
      var n :| n in todo;
      forall i | 0 <= i < |numbers| ensures LineNumber(numbers[i]) != n { assert numbers[i] in numbers; }
      InsertAscends(LineNumber, numbers, n);
      forall x ensures x in Insert(LineNumber, numbers, n) <==> x in numbers || x == n { InsertMembers(LineNumber, numbers, n, x); }
      numbers := Insert(LineNumber, numbers, n);
      todo := todo - {n};
    }
  }

  /** `blocks_as_lines` of an epoch file. */
  method BlocksAsLines(db: Database, from: Block, to: Block) returns (lines: seq<BlockLine>)
    ensures LinesOf(lines, db, from, to)
  {
    var numbers := BlocksInRange(db.blocks, from, to);
    lines := [];
    for i := 0 to |numbers|
      invariant |lines| == i && forall j :: 0 <= j < i ==> lines[j].number == numbers[j] && LineOf(lines[j], db)
    {
      var n := numbers[i];
      assert n in numbers;
      var diffs := DiffsOfBlock(db.rows, n);
      var events := EventsOfBlock(db.blocks[n].events);
      lines := lines + [BlockLine(n, db.blocks[n].hash, db.blocks[n].parent, diffs, events, None)];
    }
    forall i, j | 0 <= i < j < |lines| ensures lines[i].number < lines[j].number { assert LineNumber(numbers[i]) < LineNumber(numbers[j]); }
    forall i | 0 <= i < |lines| ensures from <= lines[i].number <= to { assert numbers[i] in numbers; }
    forall n: Block | from <= n <= to && n in db.blocks ensures exists i :: 0 <= i < |lines| && lines[i].number == n {
      var i :| 0 <= i < |numbers| && numbers[i] == n;
      assert lines[i].number == n;
    }
  }

  /** An epoch file built from the database: its range, its header and its lines. */
  ghost predicate EpochOf(file: EpochFile, db: Database, genesis: Genesis, idx: nat, prev: Option<Digest>) {
    && EpochEnd(idx, genesis.epochSize) == Some(file.to) && file.from + genesis.epochSize == file.to + 1
    && file.e == idx && file.prev == prev && file.chainId == genesis.chainId && file.pool == genesis.pool
    && file.footer == CountsOf(file.lines) && LinesOf(file.lines, db, file.from, file.to)
  }

  /** `build_epoch` and the hash of its payload, whose encoding is `sha`'s argument. */
  method BuildEpoch(db: Database, genesis: Genesis, idx: nat, prev: Option<Digest>, sha: EpochFile -> Digest) returns (file: EpochFile)
    requires EpochEnd(idx, genesis.epochSize).Some? && genesis.epochSize > 0
    ensures EpochOf(file, db, genesis, idx, prev) && file.digest == sha(file.(digest := 0))
  {
    var from: nat := idx * genesis.epochSize;
    var to: nat := from + genesis.epochSize - 1;
    var lines := BlocksAsLines(db, from, to);
    file := EpochFile(0, genesis.chainId, genesis.pool, idx, from, to, prev, lines, CountsOf(lines));
    file := file.(digest := sha(file));
  }

  // ------------------------------------------------- a pure function of the rows

  /** Two databases hold the same blocks and rows in the range. */
  ghost predicate SameIn(a: Database, b: Database, from: Block, to: Block) {
    && (forall n: Block :: from <= n <= to ==> (n in a.blocks <==> n in b.blocks) && (n in a.blocks ==> a.blocks[n] == b.blocks[n]))
    && (forall slot, n: Block :: from <= n <= to ==> Row(a.rows, slot, n) == Row(b.rows, slot, n))
  }

  lemma SameEmpty<T>(a: seq<T>, b: seq<T>)
    requires forall x :: x in a <==> x in b
    ensures a == [] <==> b == []
  {
    if a != [] { assert a[0] in b; }
    if b != [] { assert b[0] in a; }
  }

  lemma Before<T>(key: T -> nat, s: seq<T>, i: nat, j: nat)
    requires AscendingBy(key, s)
    ensures i < j < |s| ==> key(s[i]) < key(s[j])
  {
  }

  lemma {:induction false} SameList<T>(key: T -> nat, a: seq<T>, b: seq<T>)
    requires AscendingBy(key, a) && AscendingBy(key, b) && forall x :: x in a <==> x in b
    ensures a == b
    decreases |a|
  {
    SameEmpty(a, b);
    if a != [] {
      HeadsMeet(key, a, b);
      forall x ensures x in a[1..] <==> x in b[1..] { WithoutHead(key, a, x); WithoutHead(key, b, x); }
      SameList(key, a[1..], b[1..]);
      assert a == [a[0]] + a[1..] && b == [b[0]] + b[1..];
    }
  }

  lemma HeadsMeet<T>(key: T -> nat, a: seq<T>, b: seq<T>)
    requires AscendingBy(key, a) && AscendingBy(key, b) && a != [] && b != [] && forall x :: x in a <==> x in b
    ensures a[0] == b[0]
  {
    assert a[0] in b && b[0] in a;
    var i :| 0 <= i < |b| && b[i] == a[0];
    var j :| 0 <= j < |a| && a[j] == b[0];
    Before(key, b, 0, i);
    Before(key, a, 0, j);
  }

  lemma WithoutHead<T>(key: T -> nat, a: seq<T>, x: T)
    requires AscendingBy(key, a) && a != []
    ensures x in a[1..] <==> x in a && x != a[0]
  {
    if x in a[1..] {
      var i :| 0 <= i < |a[1..]| && a[1..][i] == x;
      assert key(a[0]) < key(a[i + 1]);
    }
    assert a == [a[0]] + a[1..];
  }

  lemma SameLine(a: BlockLine, b: BlockLine, x: Database, y: Database, from: Block, to: Block)
    requires SameIn(x, y, from, to) && from <= a.number <= to && a.number == b.number && LineOf(a, x) && LineOf(b, y)
    ensures a == b
  {
    forall d ensures d in a.diffs <==> d in b.diffs {
      assert Row(x.rows, d.0, a.number) == Row(y.rows, d.0, a.number);
    }
    SameList(DiffSlot, a.diffs, b.diffs);
    SameList(Itself, a.events, b.events);
  }

  function NumberOf(line: BlockLine): nat {
    line.number
  }

  lemma HalfSame(a: seq<BlockLine>, b: seq<BlockLine>, x: Database, y: Database, from: Block, to: Block, i: nat)
    requires LinesOf(a, x, from, to) && LinesOf(b, y, from, to) && SameIn(x, y, from, to) && i < |a|
    ensures a[i] in b
  {
    assert LineOf(a[i], x);
    var j :| 0 <= j < |b| && b[j].number == a[i].number;
    SameLine(a[i], b[j], x, y, from, to);
  }

  /** An epoch's lines depend on the blocks and rows of its range only. */
  lemma LinesDepend(a: seq<BlockLine>, b: seq<BlockLine>, x: Database, y: Database, from: Block, to: Block)
    requires LinesOf(a, x, from, to) && LinesOf(b, y, from, to) && SameIn(x, y, from, to)
    ensures a == b
  {
    forall i | 0 <= i < |a| ensures a[i] in b { HalfSame(a, b, x, y, from, to, i); }
    forall i | 0 <= i < |b| ensures b[i] in a { HalfSame(b, a, y, x, from, to, i); }
    forall l ensures l in a <==> l in b {}
    SameList(NumberOf, a, b);
  }

  // ----------------------------------------------------- the client accepts it

  /** Stored neighbours in the range link. */
  ghost predicate ParentsStored(db: Database, from: Block, to: Block) {
    forall n: Block :: from <= n < to && n in db.blocks && n + 1 in db.blocks ==> db.blocks[n + 1].parent == db.blocks[n].hash
  }

  lemma LineAt(lines: seq<BlockLine>, db: Database, from: Block, to: Block, n: Block) returns (i: nat)
    requires LinesOf(lines, db, from, to) && from <= n <= to && n in db.blocks
    ensures i < |lines| && lines[i].number == n && lines[i].hash == db.blocks[n].hash && lines[i].parent == db.blocks[n].parent
  {
    i :| 0 <= i < |lines| && lines[i].number == n;
    assert LineOf(lines[i], db);
  }

  lemma LinkStored(lines: seq<BlockLine>, db: Database, from: Block, to: Block, n: Block)
    requires LinesOf(lines, db, from, to) && ParentsLink(lines) && from <= n < to && n in db.blocks && n + 1 in db.blocks
    ensures db.blocks[n + 1].parent == db.blocks[n].hash
  {
    var i := LineAt(lines, db, from, to, n);
    var j := LineAt(lines, db, from, to, n + 1);
    NextTo(lines, i, j);
  }

  lemma LinkLines(lines: seq<BlockLine>, db: Database, from: Block, to: Block, i: nat)
    requires LinesOf(lines, db, from, to) && ParentsStored(db, from, to)
    requires 0 < i < |lines| && lines[i].number == lines[i - 1].number + 1
    ensures lines[i].parent == lines[i - 1].hash
  {
    assert LineOf(lines[i - 1], db) && LineOf(lines[i], db);
  }

  lemma LinesLink(lines: seq<BlockLine>, db: Database, from: Block, to: Block)
    requires LinesOf(lines, db, from, to)
    ensures ParentsLink(lines) <==> ParentsStored(db, from, to)
  {
    if ParentsLink(lines) {
      forall n: Block | from <= n < to && n in db.blocks && n + 1 in db.blocks ensures db.blocks[n + 1].parent == db.blocks[n].hash {
        LinkStored(lines, db, from, to, n);
      }
    }
    if ParentsStored(db, from, to) {
      forall i | 0 < i < |lines| && lines[i].number == lines[i - 1].number + 1 ensures lines[i].parent == lines[i - 1].hash {
        LinkLines(lines, db, from, to, i);
      }
    }
  }

  lemma Earlier(lines: seq<BlockLine>, i: nat, j: nat)
    requires Ascending(lines)
    ensures i < j < |lines| ==> lines[i].number < lines[j].number
  {
  }

  lemma NextTo(lines: seq<BlockLine>, i: nat, j: nat)
    requires Ascending(lines) && i < |lines| && j < |lines| && lines[j].number == lines[i].number + 1
    ensures j == i + 1
  {
    Earlier(lines, i, i + 1);
    Earlier(lines, i + 1, j);
    Earlier(lines, j, i);
  }

  /** What the cutter builds passes every check of the client, on the hash of the epoch before
      it, exactly when the stored neighbours of its range link. */
  lemma BuiltAccepted(feed: Feed, file: EpochFile, db: Database, idx: nat, prev: Option<Digest>)
    requires EpochOf(file, db, feed.genesis, idx, prev)
    ensures EpochError(feed, ManifestEpoch(idx, file.from, file.to, file.digest), file, prev).None? <==> ParentsStored(db, file.from, file.to)
  {
    LinesLink(file.lines, db, file.from, file.to);
    forall i | 0 <= i < |file.lines| ensures SortedLine(file.lines[i]) { SortedBuilt(file.lines[i], db); }
  }

  lemma SortedBuilt(line: BlockLine, db: Database)
    requires LineOf(line, db)
    ensures SortedLine(line)
  {
    forall i, j | 0 <= i < j < |line.diffs| ensures line.diffs[i].0 < line.diffs[j].0 { assert DiffSlot(line.diffs[i]) < DiffSlot(line.diffs[j]); }
    forall i, j | 0 <= i < j < |line.events| ensures line.events[i] < line.events[j] { assert Itself(line.events[i]) < Itself(line.events[j]); }
  }

  // ------------------------------------------------- replaying what was cut

  lemma {:induction false} LastDiffIs(diffs: seq<(Felt, Felt)>, slot: Felt)
    ensures LastDiff(diffs, slot).Some? ==> (slot, LastDiff(diffs, slot).value) in diffs
    ensures LastDiff(diffs, slot).None? ==> forall d :: d in diffs ==> d.0 != slot
  {
    if diffs != [] {
      var init := diffs[..|diffs| - 1];
      LastDiffIs(init, slot);
      assert diffs == init + [diffs[|diffs| - 1]];
    }
  }

  /** A block's diffs say what its rows say. */
  lemma DiffsWrite(diffs: seq<(Felt, Felt)>, rows: Rows, n: Block, slot: Felt)
    requires DiffsOf(diffs, rows, n)
    ensures LastDiff(diffs, slot) == Row(rows, slot, n)
  {
    LastDiffIs(diffs, slot);
    if LastDiff(diffs, slot).Some? { assert (slot, LastDiff(diffs, slot).value) in diffs; }
  }

  /** An epoch's lines write the database's rows of its range, and nothing else. */
  lemma LinesWrite(lines: seq<BlockLine>, db: Database, from: Block, to: Block, slot: Felt, b: Block)
    requires LinesOf(lines, db, from, to) && Referenced(db)
    ensures LineWrite(lines, slot, b) == if from <= b <= to then Row(db.rows, slot, b) else None
  {
    if i :| 0 <= i < |lines| && lines[i].number == b {
      LineWriteAt(lines, slot, i);
      assert LineOf(lines[i], db);
      DiffsWrite(lines[i].diffs, db.rows, b, slot);
    } else {
      NoLineBelow(lines, slot, b);
      if (slot, b) in db.rows { assert (slot, b).1 in db.blocks; }
    }
  }

  /** Every epoch is the one the database would be cut into today, and the database holds
      nothing below the first of them. */
  ghost predicate CutFrom(epochs: seq<Epoch>, db: Database) {
    && Referenced(db)
    && (forall i :: 0 <= i < |epochs| ==> LinesOf(epochs[i].lines, db, epochs[i].from, epochs[i].to))
    && (forall key :: key in db.rows && epochs != [] ==> epochs[0].from <= key.1)
  }

  /** The last epoch decides its own range and leaves the rest. */
  lemma LastEpoch(epochs: seq<Epoch>, db: Database, slot: Felt, b: Block)
    requires CutFrom(epochs, db) && epochs != [] && b <= epochs[|epochs| - 1].to
    ensures Surviving(Replay(epochs), slot, b) ==
            if b < epochs[|epochs| - 1].from then Surviving(Replay(epochs[..|epochs| - 1]), slot, b) else Row(db.rows, slot, b)
  {
    var e := epochs[|epochs| - 1];
    ReplayLast(epochs, slot, b);
    LinesWrite(e.lines, db, e.from, e.to, slot, b);
  }

  lemma CutPrefix(epochs: seq<Epoch>, db: Database, n: nat)
    requires Tile(epochs) && CutFrom(epochs, db) && n <= |epochs|
    ensures Tile(epochs[..n]) && CutFrom(epochs[..n], db)
  {
  }

  /** Replaying the epochs cut from a database leaves that database's rows, up to the end of
      the last epoch. */
  lemma {:induction false} ReplayIsDatabase(epochs: seq<Epoch>, db: Database, slot: Felt, b: Block)
    requires Tile(epochs) && CutFrom(epochs, db) && epochs != [] && b <= epochs[|epochs| - 1].to
    ensures Surviving(Replay(epochs), slot, b) == Row(db.rows, slot, b)
  {
    var n := |epochs| - 1;
    LastEpoch(epochs, db, slot, b);
    if b < epochs[n].from {
      if n == 0 {
        NothingBelow(epochs, db, slot, b);
      } else {
        CutPrefix(epochs, db, n);
        assert epochs[n].from == epochs[n - 1].to + 1;
        ReplayIsDatabase(epochs[..n], db, slot, b);
      }
    }
  }

  lemma NothingBelow(epochs: seq<Epoch>, db: Database, slot: Felt, b: Block)
    requires CutFrom(epochs, db) && epochs != [] && b < epochs[0].from
    ensures Row(db.rows, slot, b).None? && Surviving(Replay([]), slot, b).None?
  {
    var start, key := epochs[0].from, (slot, b);
    assert key in db.rows ==> start <= key.1;
  }

  /** A snapshot of the database at an epoch's end is a snapshot of the replay up to there. */
  lemma SnapshotOfReplay(epochs: seq<Epoch>, n: nat, db: Database, slots: seq<SnapSlot>)
    requires Tile(epochs) && CutFrom(epochs, db) && n < |epochs| && SnapshotRows(slots, db.rows, epochs[n].to)
    ensures SnapshotOf(slots, Replay(epochs[..n + 1]), epochs[n].to)
  {
    var first, basis := epochs[..n + 1], epochs[n].to;
    CutPrefix(epochs, db, n + 1);
    forall k: Felt ensures LastRow(db.rows, k, basis) == Read(Replay(first), k, basis) {
      forall b: Block | b <= basis ensures Row(db.rows, k, b) == Surviving(Replay(first), k, b) { ReplayIsDatabase(first, db, k, b); }
      LastRowIsReadUpTo(db.rows, Replay(first), k, basis);
    }
    SnapshotOfLog(slots, db.rows, Replay(first), basis);
  }
}
