/** The indexer's run: ingest cycles with the L1-height ratchet and reorg rollbacks
    (`crates/indexerd/src/ingest.rs`, `db.rs`), the forward cut of hash-linked epochs and
    their backward re-cut (`cutter.rs`).

    The chain's answers are parameters. Encoding and hashing an epoch is one function `build`
    of its index, the preceding hash, and the stored content it is built from. */
module Publication {
  import opened Felts
  import opened Mpt

  type Digest = nat

  /** A stored block: its hash and everything an epoch line says of it. */
  datatype Stored = Stored(hash: Felt, data: nat)

  type Blocks = map<nat, Stored>
  type Classes = map<nat, Felt>
  type Build = (nat, Option<Digest>, Blocks, Classes) -> Digest

  datatype EpochRow = EpochRow(idx: nat, from: nat, to: nat, hash: Digest)

  // ------------------------------------------------------------------ ranges

  /** Epochs are aligned blocks of `size` numbers. */
  function EpochFrom(idx: nat, size: nat): nat {
    if idx == 0 then 0 else EpochFrom(idx - 1, size) + size
  }

  function EpochTo(idx: nat, size: nat): nat
    requires size > 0
  {
    EpochFrom(idx, size) + (size - 1)
  }

  /** `epoch_range`, multiplied out. */
  lemma {:induction false} EpochRange(idx: nat, size: nat)
    requires size > 0
    ensures EpochFrom(idx, size) == idx * size && EpochTo(idx, size) == (idx + 1) * size - 1
  {
    if idx > 0 { EpochRange(idx - 1, size); }
  }

  /** Only the first epoch of all can end at block zero, and only when it holds one block. */
  lemma {:induction false} EndsAtZero(idx: nat, size: nat)
    requires size > 0
    ensures EpochTo(idx, size) == 0 <==> idx == 0 && size == 1
  {
    if idx > 0 { EndsAtZero(idx - 1, size); }
  }

  /** The rows' ranges follow one another without gap or overlap from the first epoch. */
  ghost predicate Tile(rows: seq<EpochRow>, first: nat, size: nat)
    requires size > 0
  {
    forall i :: 0 <= i < |rows| ==> rows[i].idx == first + i && rows[i].from == EpochFrom(first + i, size) && rows[i].to == EpochTo(first + i, size)
  }

  /** Consecutive epochs meet. */
  lemma TileMeets(rows: seq<EpochRow>, first: nat, size: nat, i: nat)
    requires size > 0 && Tile(rows, first, size) && 0 < i < |rows|
    ensures rows[i].from == rows[i - 1].to + 1 && rows[i].from <= rows[i].to
  {
    assert rows[i].idx == rows[i - 1].idx + 1;
  }

  lemma {:induction false} TileGrows(rows: seq<EpochRow>, first: nat, size: nat, i: nat, j: nat)
    requires size > 0 && Tile(rows, first, size) && i <= j < |rows|
    ensures rows[i].to <= rows[j].to
  {
    if i < j {
      TileGrows(rows, first, size, i, j - 1);
      TileMeets(rows, first, size, j);
    }
  }

  function LastTo(rows: seq<EpochRow>): nat {
    if rows == [] then 0 else rows[|rows| - 1].to
  }

  // ------------------------------------------------------------- epoch hashes

  /** What an epoch is built from: the stored blocks of its range, and the class changes up to
      its end. */
  function BlocksIn(blocks: Blocks, from: nat, to: nat): Blocks {
    map n | n in blocks && from <= n <= to :: blocks[n]
  }

  function ClassesUpTo(classes: Classes, to: nat): Classes {
    map n | n in classes && n <= to :: classes[n]
  }

  /** The hash an epoch has when it is cut from the database as it stands. */
  function Rebuilt(build: Build, blocks: Blocks, classes: Classes, idx: nat, size: nat, prev: Option<Digest>): Digest
    requires size > 0
  {
    build(idx, prev, BlocksIn(blocks, EpochFrom(idx, size), EpochTo(idx, size)), ClassesUpTo(classes, EpochTo(idx, size)))
  }

  function PrevHash(rows: seq<EpochRow>, i: nat): Option<Digest>
    requires i <= |rows|
  {
    if i == 0 then None else Some(rows[i - 1].hash)
  }

  /** Row `i` carries the hash of its epoch rebuilt from the database on the preceding row's hash. */
  ghost predicate RowCurrent(build: Build, blocks: Blocks, classes: Classes, size: nat, rows: seq<EpochRow>, i: nat)
    requires size > 0 && i < |rows|
  {
    rows[i].hash == Rebuilt(build, blocks, classes, rows[i].idx, size, PrevHash(rows, i))
  }

  ghost predicate Current(build: Build, blocks: Blocks, classes: Classes, size: nat, rows: seq<EpochRow>)
    requires size > 0
  {
    forall i :: 0 <= i < |rows| ==> RowCurrent(build, blocks, classes, size, rows, i)
  }

  /** Two databases agree on everything up to `upto`. */
  ghost predicate SameUpTo(blocks: Blocks, classes: Classes, blocks': Blocks, classes': Classes, upto: nat) {
    && (forall n :: n <= upto ==> (n in blocks <==> n in blocks') && (n in blocks ==> blocks[n] == blocks'[n]))
    && (forall n :: n <= upto ==> (n in classes <==> n in classes') && (n in classes ==> classes[n] == classes'[n]))
  }

  /** Published rows depend only on what lies at or below the last epoch's end. */
  lemma CurrentKept(build: Build, blocks: Blocks, classes: Classes, blocks': Blocks, classes': Classes, size: nat, first: nat, rows: seq<EpochRow>)
    requires size > 0 && Tile(rows, first, size) && SameUpTo(blocks, classes, blocks', classes', LastTo(rows))
    requires Current(build, blocks, classes, size, rows)
    ensures Current(build, blocks', classes', size, rows)
  {
    forall i | 0 <= i < |rows| ensures RowCurrent(build, blocks', classes', size, rows, i) {
      TileGrows(rows, first, size, i, |rows| - 1);
      var to := EpochTo(rows[i].idx, size);
      assert BlocksIn(blocks, EpochFrom(rows[i].idx, size), to) == BlocksIn(blocks', EpochFrom(rows[i].idx, size), to);
      assert ClassesUpTo(classes, to) == ClassesUpTo(classes', to);
      assert RowCurrent(build, blocks, classes, size, rows, i);
    }
  }

  // -------------------------------------------------------- the finality poll

  /** A header: its number, hashes and state root, and whether it is labelled accepted on L1, when it is labelled. */
  datatype Header = Header(number: nat, hash: Felt, parent: Felt, root: Option<Felt>, accepted: Option<bool>)

  datatype Rejection = Mislabelled | AboveLatest | BelowRecorded | BelowGenesis

  /** `l1_answer_rejection`: an honest answer lies between what is recorded, the genesis block
      and the latest block. */
  function L1Rejection(answer: Header, latest: nat, recorded: Option<nat>, genesis: nat): (r: Option<Rejection>)
    ensures r.None? <==> answer.accepted != Some(false) && answer.number <= latest && genesis <= answer.number
                         && (recorded.Some? ==> recorded.value <= answer.number)
  {
    if answer.accepted == Some(false) then Some(Mislabelled)
    else if answer.number > latest then Some(AboveLatest)
    else if recorded.Some? && answer.number < recorded.value then Some(BelowRecorded)
    else if answer.number < genesis then Some(BelowGenesis)
    else None
  }

  /** A height that is not recorded counts as zero. */
  function Recorded(x: Option<nat>): nat {
    if x.Some? then x.value else 0
  }

  // -------------------------------------------------------- reorg detection

  /** The chain's answer about one block number. */
  datatype Answer = Hash(hash: Felt) | NotFound | Failure

  datatype Reorg = NoReorg | Fork(ancestor: nat) | Unreachable

  /** A stored block the walkback may stop at: final up to the recorded height, or still on
      the chain under its stored hash. */
  predicate StillHolds(blocks: Blocks, finals: set<nat>, l1: nat, canonical: nat -> Answer, n: nat)
    requires n in blocks
  {
    (n in finals && n <= l1) || canonical(n) == Hash(blocks[n].hash)
  }

  /** The walk down the stored blocks from `n` to the highest that still holds, never below
      the floor; a failed answer ends it. */
  function WalkDown(blocks: Blocks, finals: set<nat>, l1: nat, canonical: nat -> Answer, floor: nat, n: nat): Reorg {
    if n <= floor then Fork(floor)
    else if n in blocks && StillHolds(blocks, finals, l1, canonical, n) then Fork(n)
    else if n in blocks && canonical(n) == Failure then Unreachable
    else WalkDown(blocks, finals, l1, canonical, floor, n - 1)
  }

  /** The fork is at the highest stored block that still holds, or at the floor. */
  lemma {:induction false} WalkDownMeans(blocks: Blocks, finals: set<nat>, l1: nat, canonical: nat -> Answer, floor: nat, head: nat)
    ensures var r := WalkDown(blocks, finals, l1, canonical, floor, head);
            && (r.Fork? || r.Unreachable?)
            && (r.Fork? ==> r.ancestor == floor || (floor < r.ancestor <= head && r.ancestor in blocks && StillHolds(blocks, finals, l1, canonical, r.ancestor)))
            && (r.Fork? ==> forall n :: r.ancestor < n <= head && n in blocks ==> !StillHolds(blocks, finals, l1, canonical, n) && canonical(n) != Failure)
            && (r.Unreachable? ==> exists n :: floor < n <= head && n in blocks && canonical(n) == Failure)
  {
    if head > floor && !(head in blocks && (StillHolds(blocks, finals, l1, canonical, head) || canonical(head) == Failure)) {
      WalkDownMeans(blocks, finals, l1, canonical, floor, head - 1);
    }
  }

  method WalkBack(blocks: Blocks, finals: set<nat>, l1: nat, canonical: nat -> Answer, floor: nat, head: nat) returns (r: Reorg)
    ensures r == WalkDown(blocks, finals, l1, canonical, floor, head)
  {
    var n: nat := head;
    while n > floor
      invariant WalkDown(blocks, finals, l1, canonical, floor, n) == WalkDown(blocks, finals, l1, canonical, floor, head)
    {
      if n in blocks {
        if n in finals && n <= l1 {
          return Fork(n);
        }
        if canonical(n) == Hash(blocks[n].hash) {
          return Fork(n);
        }
        if canonical(n) == Failure {
          return Unreachable;
        }
      }
      n := n - 1;
    }
    r := Fork(floor);
  }

  /** The announced header is the stored head, or names it as its parent. */
  predicate Continues(announced: Header, head: (nat, Felt)) {
    (announced.number == head.0 && announced.hash == head.1) || (announced.number == head.0 + 1 && announced.parent == head.1)
  }

  /** `detect_reorg`: a stored head that the announced header does not continue is asked for;
      when it is gone, the stored blocks are walked down. */
  function ReorgOf(blocks: Blocks, finals: set<nat>, l1: nat, canonical: nat -> Answer, floor: nat, head: Option<(nat, Felt)>, announced: Header): Reorg {
    if head.None? || Continues(announced, head.value) then NoReorg
    else if canonical(head.value.0) == Failure then Unreachable
    else if canonical(head.value.0) == Hash(head.value.1) then NoReorg
    else WalkDown(blocks, finals, l1, canonical, floor, head.value.0)
  }

  /** One block as the cycle fetches it. */
  datatype Fetched = Inactive | Active(block: Stored, final: bool, upgrade: Option<Felt>) | Broken

  /** The stored blocks an upsert of number `n` with `hash` deletes: numbers are the primary key,
      and hashes are unique. */
  function Displaced(blocks: Blocks, n: nat, hash: Felt): set<nat> {
    set m | m in blocks && (m == n || blocks[m].hash == hash)
  }

  /** `insert_block_data`: replacing a block deletes it with its rows, and so does repeating the
      hash of another block. */
  function Store(blocks: Blocks, n: nat, block: Stored): Blocks {
    (blocks - Displaced(blocks, n, block.hash))[n := block]
  }

  /** The stored blocks after every block above `start` and up to `upto` was fetched and taken. */
  function Ingested(was: Blocks, fetch: nat -> Fetched, start: nat, upto: nat): Blocks {
    if upto <= start then was
    else
      var before := Ingested(was, fetch, start, upto - 1);
      match fetch(upto)
      case Active(block, _, _) => Store(before, upto, block)
      case _ => before
  }

  /** A block taken above `start` and up to `end` carries the hash of the stored block `m`. */
  ghost predicate Repeats(was: Blocks, fetch: nat -> Fetched, start: nat, end: nat, m: nat)
    requires m in was
  {
    exists n :: start < n <= end && fetch(n).Active? && fetch(n).block.hash == was[m].hash
  }

  /** No block taken carries the hash of a block stored at or below `upto`. */
  ghost predicate NoneRepeated(was: Blocks, fetch: nat -> Fetched, start: nat, end: nat, upto: nat) {
    forall m :: m in was && m <= upto ==> !Repeats(was, fetch, start, end, m)
  }

  lemma RepeatsStep(was: Blocks, fetch: nat -> Fetched, start: nat, end: nat, m: nat)
    requires m in was && start < end
    ensures Repeats(was, fetch, start, end, m) <==>
            Repeats(was, fetch, start, end - 1, m) || (fetch(end).Active? && fetch(end).block.hash == was[m].hash)
  {
  }

  /** A block at or below the start of an ingestion stays, unchanged, exactly when no block taken
      repeats its hash, and none appears. */
  lemma {:induction false} LowBlock(was: Blocks, fetch: nat -> Fetched, start: nat, end: nat, m: nat)
    requires m <= start
    ensures var now := Ingested(was, fetch, start, end);
            && (m in now <==> m in was && !Repeats(was, fetch, start, end, m))
            && (m in now ==> now[m] == was[m])
    decreases end
  {
    if end > start {
      LowBlock(was, fetch, start, end - 1, m);
      if m in was { RepeatsStep(was, fetch, start, end, m); }
    }
  }

  lemma IngestedStep(was: Blocks, fetch: nat -> Fetched, start: nat, n: nat)
    requires start < n
    ensures Ingested(was, fetch, start, n) ==
            if fetch(n).Active? then Store(Ingested(was, fetch, start, n - 1), n, fetch(n).block) else Ingested(was, fetch, start, n - 1)
  {
  }

  lemma {:induction false} IngestedQuiet(was: Blocks, fetch: nat -> Fetched, start: nat, a: nat, b: nat)
    requires start <= a <= b && forall m :: a < m <= b ==> fetch(m).Inactive?
    ensures Ingested(was, fetch, start, b) == Ingested(was, fetch, start, a)
    decreases b
  {
    if a < b { IngestedQuiet(was, fetch, start, a, b - 1); }
  }

  /** The stored blocks after a rollback to the fork, when there is one. */
  function RolledBack(blocks: Blocks, reorg: Reorg): Blocks {
    if reorg.Fork? then map n | n in blocks && n <= reorg.ancestor :: blocks[n] else blocks
  }

  function FrontierAfter(frontier: Option<nat>, reorg: Reorg): Option<nat> {
    if reorg.Fork? && frontier.Some? && frontier.value > reorg.ancestor then Some(reorg.ancestor) else frontier
  }

  const TAIL_SPAN: nat := 256
  const TAIL_BATCH: nat := 8
  const SCAN_SEGMENT: nat := 100_000

  datatype Recut = NotCut | StaleBelow(lowest: nat) | NothingDiffers | Rewritten

  // ------------------------------------------------------------------ re-cut

  /** A re-cut from `firstIdx` is accepted: nothing below is stale and something is. */
  ghost predicate RecutAccepted(build: Build, blocks: Blocks, classes: Classes, size: nat, rows: seq<EpochRow>, firstIdx: nat)
    requires size > 0
  {
    && !Current(build, blocks, classes, size, rows)
    && exists pos :: 0 <= pos < |rows| && rows[pos].idx == firstIdx && forall i :: 0 <= i < pos ==> RowCurrent(build, blocks, classes, size, rows, i)
  }

  /** `lowest` is the lowest stale epoch, and it lies below row `pos`. */
  ghost predicate LowestStale(build: Build, blocks: Blocks, classes: Classes, size: nat, rows: seq<EpochRow>, pos: nat, lowest: nat)
    requires size > 0 && pos <= |rows|
  {
    exists j :: 0 <= j < pos && rows[j].idx == lowest && !RowCurrent(build, blocks, classes, size, rows, j)
                && forall i :: 0 <= i < j ==> RowCurrent(build, blocks, classes, size, rows, i)
  }

  /** Re-cutting from the epoch a refusal names is accepted. */
  lemma AdviceAccepted(build: Build, blocks: Blocks, classes: Classes, size: nat, rows: seq<EpochRow>, pos: nat, lowest: nat)
    requires size > 0 && pos <= |rows| && LowestStale(build, blocks, classes, size, rows, pos, lowest)
    ensures RecutAccepted(build, blocks, classes, size, rows, lowest)
  {
  }

  /** The rows as the database lists them: one per epoch, in index order. */
  ghost predicate InOrder(rows: seq<EpochRow>) {
    forall i, j :: 0 <= i < j < |rows| ==> rows[i].idx < rows[j].idx
  }

  /** The row of an epoch cut again. */
  function Again(row: EpochRow, size: nat, hash: Digest): EpochRow
    requires size > 0
  {
    EpochRow(row.idx, EpochFrom(row.idx, size), EpochTo(row.idx, size), hash)
  }

  /** Rows `[..k]` are current and the rest is as it was: also the state a run stopped between
      two iterations leaves behind. */
  ghost predicate RecutTo(build: Build, blocks: Blocks, classes: Classes, size: nat, was: seq<EpochRow>, rows: seq<EpochRow>, k: nat)
    requires size > 0
  {
    && |rows| == |was| && k <= |rows| && (forall i :: k <= i < |rows| ==> rows[i] == was[i])
    && (forall i :: 0 <= i < k ==> rows[i] == was[i] || rows[i] == Again(was[i], size, rows[i].hash))
    && (forall i :: 0 <= i < k ==> RowCurrent(build, blocks, classes, size, rows, i))
  }

  lemma RecutRow(build: Build, blocks: Blocks, classes: Classes, size: nat, was: seq<EpochRow>, rows: seq<EpochRow>, k: nat, hash: Digest)
    requires size > 0 && RecutTo(build, blocks, classes, size, was, rows, k) && k < |rows|
    requires hash == Rebuilt(build, blocks, classes, rows[k].idx, size, PrevHash(rows, k))
    ensures RecutTo(build, blocks, classes, size, was, rows[k := Again(rows[k], size, hash)], k + 1)
  {
    var out := rows[k := Again(rows[k], size, hash)];
    forall i | 0 <= i < k + 1 ensures RowCurrent(build, blocks, classes, size, out, i) {
      assert PrevHash(out, i) == PrevHash(rows, i);
      if i < k { assert RowCurrent(build, blocks, classes, size, rows, i); }
    }
  }

  /** The loop of a re-cut at row `k`: until an epoch differs nothing was written. */
  ghost predicate Rewriting(build: Build, blocks: Blocks, classes: Classes, size: nat, was: seq<EpochRow>, rows: seq<EpochRow>, k: nat, diverged: bool)
    requires size > 0
  {
    && RecutTo(build, blocks, classes, size, was, rows, k)
    && (if diverged then !Current(build, blocks, classes, size, was) else rows == was)
  }

  lemma RewriteStep(build: Build, blocks: Blocks, classes: Classes, size: nat, was: seq<EpochRow>, rows: seq<EpochRow>, k: nat, diverged: bool, hash: Digest)
    requires size > 0 && Rewriting(build, blocks, classes, size, was, rows, k, diverged) && k < |rows|
    requires hash == Rebuilt(build, blocks, classes, rows[k].idx, size, PrevHash(rows, k))
    ensures if diverged || hash != rows[k].hash
            then Rewriting(build, blocks, classes, size, was, rows[k := Again(rows[k], size, hash)], k + 1, true)
            else Rewriting(build, blocks, classes, size, was, rows, k + 1, false)
  {
    if diverged || hash != rows[k].hash {
      RecutRow(build, blocks, classes, size, was, rows, k, hash);
      if !diverged { assert !RowCurrent(build, blocks, classes, size, was, k); }
    } else {
      assert RowCurrent(build, blocks, classes, size, rows, k);
    }
  }

  lemma RecutTiles(build: Build, blocks: Blocks, classes: Classes, size: nat, first: nat, was: seq<EpochRow>, rows: seq<EpochRow>)
    requires size > 0 && InOrder(was) && RecutTo(build, blocks, classes, size, was, rows, |rows|)
    ensures InOrder(rows) && Current(build, blocks, classes, size, rows)
    ensures Tile(was, first, size) ==> Tile(rows, first, size) && LastTo(rows) == LastTo(was)
  {
  }

  // ---------------------------------------------------------------- the indexer

  class Indexer {
    const size: nat
    const genesis: nat
    const first: nat
    const build: Build
    var blocks: Blocks
    var finals: set<nat>
    var classes: Classes
    var frontier: Option<nat>
    var l1: Option<nat>
    var head: Option<(nat, Felt)>
    var rows: seq<EpochRow>
    var manifest: seq<EpochRow>
    var snapshots: set<nat>

    /** Epochs tile from the first one; the last ends at or below the recorded L1 height and the
        frontier; the manifest lists the rows. */
    ghost predicate Valid()
      reads this`rows, this`l1, this`frontier, this`manifest
    {
      && size > 0 && Tile(rows, first, size)
      && LastTo(rows) <= Recorded(l1) && LastTo(rows) <= Recorded(frontier)
      && manifest == rows
    }

    /** Without a recorded L1 height, or without a frontier, no epoch is published, except the one
        of a feed whose first epoch is block zero alone. */
    lemma NoHeightNoEpoch()
      requires Valid() && (l1.None? || frontier.None?)
      ensures rows == [] || (first == 0 && size == 1 && |rows| == 1)
    {
      if rows != [] {
        EndsAtZero(rows[|rows| - 1].idx, size);
      }
    }

    /** Every published epoch is what the database would cut today. */
    ghost predicate UpToDate()
      requires size > 0
      reads this
    {
      Current(build, blocks, classes, size, rows)
    }

    constructor (size: nat, genesis: nat, build: Build)
      requires size > 0
      ensures Valid() && UpToDate() && rows == []
      ensures this.size == size && this.genesis == genesis && this.build == build && first == genesis / size
      ensures blocks == map[] && finals == {} && classes == map[] && frontier.None? && l1.None? && head.None? && snapshots == {}
    {
      this.size, this.genesis, this.build, this.first := size, genesis, build, genesis / size;
      blocks, finals, classes := map[], {}, map[];
      frontier, l1, head := None, None, None;
      rows, manifest, snapshots := [], [], {};
    }

    // ---------------------------------------------------------------- cycles

    /** What `detect_reorg` answers in this state. */
    function ReorgNow(canonical: nat -> Answer, announced: Header): Reorg
      reads this
    {
      ReorgOf(blocks, finals, Recorded(l1), canonical, LastTo(rows), head, announced)
    }

    method DetectReorg(announced: Header, canonical: nat -> Answer) returns (r: Reorg)
      ensures r == ReorgNow(canonical, announced)
    {
      if head.None? || Continues(announced, head.value) {
        return NoReorg;
      }
      var (number, hash) := head.value;
      if canonical(number) == Failure {
        return Unreachable;
      }
      if canonical(number) == Hash(hash) {
        return NoReorg;
      }
      r := WalkBack(blocks, finals, Recorded(l1), canonical, LastTo(rows), number);
    }

    /** Delete every block above the ancestor and lower the frontier to it. Class history stays. */
    method RollbackAbove(ancestor: nat)
      modifies this`blocks, this`finals, this`frontier
      ensures blocks == RolledBack(old(blocks), Fork(ancestor)) && frontier == FrontierAfter(old(frontier), Fork(ancestor))
      ensures finals == set n | n in old(finals) && n <= ancestor
    {
      blocks := map n | n in blocks && n <= ancestor :: blocks[n];
      finals := set n | n in finals && n <= ancestor;
      if frontier.Some? && frontier.value > ancestor { frontier := Some(ancestor); }
    }

    /** Take an L1 answer that passes the check; keep the recorded height otherwise. */
    method PollL1(answer: Header, latest: nat)
      modifies this`l1, this`finals
      ensures l1 == if L1Rejection(answer, latest, old(l1), genesis).None? then Some(answer.number) else old(l1)
      ensures finals == old(finals) + if L1Rejection(answer, latest, old(l1), genesis).None? then (set n | n in blocks && n <= answer.number) else {}
      ensures Recorded(l1) >= Recorded(old(l1))
    {
      if L1Rejection(answer, latest, l1, genesis).None? {
        finals := finals + set n | n in blocks && n <= answer.number;
        l1 := Some(answer.number);
      }
    }

    /** Store one fetched block and advance the frontier to it. */
    method StoreBlock(n: nat, block: Fetched)
      requires block.Active?
      modifies this`blocks, this`finals, this`classes, this`frontier
      ensures blocks == Store(old(blocks), n, block.block) && frontier == Some(n)
      ensures finals == old(finals) - Displaced(old(blocks), n, block.block.hash) + if block.final then {n} else {}
      ensures classes == if block.upgrade.Some? then old(classes)[n := block.upgrade.value] else old(classes)
    {
      var gone := Displaced(blocks, n, block.block.hash);
      blocks := (blocks - gone)[n := block.block];
      finals := finals - gone + if block.final then {n} else {};
      if block.upgrade.Some? { classes := classes[n := block.upgrade.value]; }
      frontier := Some(n);
    }

    /** One batch: take every block up to `end`, then advance the frontier to it. A block that
        cannot be fetched stops the batch after the last active one. */
    method IngestBatch(cursor: nat, end: nat, fetch: nat -> Fetched, ghost was: Blocks, ghost wasClasses: Classes, ghost start: nat) returns (ok: bool)
      requires start <= cursor < end && cursor == Start(frontier, genesis)
      requires blocks == Ingested(was, fetch, start, cursor) && SameClasses(wasClasses, classes, start)
      modifies this`blocks, this`finals, this`classes, this`frontier
      ensures blocks == Ingested(was, fetch, start, Start(frontier, genesis)) && SameClasses(wasClasses, classes, start)
      ensures cursor <= Start(frontier, genesis) && (frontier == old(frontier) || frontier.Some?)
      ensures ok <==> forall n :: cursor < n <= end ==> !fetch(n).Broken?
      ensures ok ==> frontier == Some(end)
    {
      for n := cursor + 1 to end + 1
        invariant start <= cursor <= Start(frontier, genesis) < n && (frontier == old(frontier) || frontier.Some?)
        invariant blocks == Ingested(was, fetch, start, n - 1) && SameClasses(wasClasses, classes, start)
        invariant forall m :: Start(frontier, genesis) < m < n ==> fetch(m).Inactive?
        invariant forall m :: cursor < m < n ==> !fetch(m).Broken?
      {
        var block := fetch(n);
        if block.Broken? {
          IngestedQuiet(was, fetch, start, Start(frontier, genesis), n - 1);
          return false;
        }
        if block.Active? {
          StoreBlock(n, block);
        }
        IngestedStep(was, fetch, start, n);
      }
      frontier := Some(end);
      ok := true;
    }

    /** Ingest above the frontier in batches, until done or something fails. Exactly the blocks
        up to the new frontier were taken. */
    method Ingest(latest: nat, fetch: nat -> Fetched) returns (ok: bool)
      modifies this`blocks, this`finals, this`classes, this`frontier
      ensures blocks == Ingested(old(blocks), fetch, Start(old(frontier), genesis), Start(frontier, genesis))
      ensures SameClasses(old(classes), classes, Start(old(frontier), genesis))
      ensures Start(old(frontier), genesis) <= Start(frontier, genesis) && Recorded(frontier) >= Recorded(old(frontier))
      ensures ok <==> forall n :: Start(old(frontier), genesis) < n <= latest ==> !fetch(n).Broken?
      ensures ok && latest > Start(old(frontier), genesis) ==> frontier == Some(latest)
    {
      ghost var start := Start(frontier, genesis);
      var cursor := Start(frontier, genesis);
      var span := if latest <= cursor + TAIL_SPAN then TAIL_BATCH else SCAN_SEGMENT;
      while cursor < latest
        invariant start <= cursor == Start(frontier, genesis) && (frontier == old(frontier) || frontier == Some(cursor))
        invariant cursor <= latest || cursor == start
        invariant cursor != start ==> frontier == Some(cursor)
        invariant blocks == Ingested(old(blocks), fetch, start, cursor) && SameClasses(old(classes), classes, start)
        invariant forall n :: start < n <= cursor ==> !fetch(n).Broken?
      {
        var end := if cursor + span <= latest then cursor + span else latest;
        ok := IngestBatch(cursor, end, fetch, old(blocks), old(classes), start);
        if !ok {
          return;
        }
        cursor := end;
      }
      ok := true;
    }

    /** Roll back to the fork, when there is one, and ingest up to the latest block. */
    method Move(reorg: Reorg, latest: nat, fetch: nat -> Fetched) returns (ok: bool)
      modifies this`blocks, this`finals, this`classes, this`frontier
      ensures blocks == Ingested(RolledBack(old(blocks), reorg), fetch, Start(FrontierAfter(old(frontier), reorg), genesis), Start(frontier, genesis))
      ensures SameClasses(old(classes), classes, Start(FrontierAfter(old(frontier), reorg), genesis))
      ensures Start(FrontierAfter(old(frontier), reorg), genesis) <= Start(frontier, genesis)
      ensures Recorded(frontier) >= Recorded(FrontierAfter(old(frontier), reorg))
      ensures ok <==> forall n :: Start(FrontierAfter(old(frontier), reorg), genesis) < n <= latest ==> !fetch(n).Broken?
      ensures ok && latest > Start(FrontierAfter(old(frontier), reorg), genesis) ==> frontier == Some(latest)
    {
      if reorg.Fork? {
        RollbackAbove(reorg.ancestor);
      }
      ok := Ingest(latest, fetch);
    }

    /** The cycle stops before it writes anything: the fetched header is not the announced one,
        the canonicity check failed, or the head it was given trails the frontier without a reorg. */
    predicate Refuses(reorg: Reorg, announced: Option<Header>, latest: Header)
      reads this
    {
      || Disagrees(announced, latest)
      || reorg.Unreachable? || (reorg.NoReorg? && frontier.Some? && latest.number < frontier.value)
    }

    /** The writes of a cycle that is not refused: finality, rollback, ingestion, and the head. */
    method Follow(reorg: Reorg, latest: Header, l1Answer: Header, fetch: nat -> Fetched) returns (ok: bool)
      requires Valid() && (reorg.Fork? ==> LastTo(rows) <= reorg.ancestor)
      modifies this`blocks, this`finals, this`classes, this`frontier, this`l1, this`head
      ensures Valid() && Recorded(l1) >= Recorded(old(l1)) && (old(l1).Some? ==> l1.Some?)
      ensures l1 == if L1Rejection(l1Answer, latest.number, old(l1), genesis).None? then Some(l1Answer.number) else old(l1)
      ensures var start := Start(FrontierAfter(old(frontier), reorg), genesis);
              && blocks == Ingested(RolledBack(old(blocks), reorg), fetch, start, Start(frontier, genesis))
              && (ok <==> forall n :: start < n <= latest.number ==> !fetch(n).Broken?)
              && (ok && latest.number > start ==> frontier == Some(latest.number))
              && (SameUpTo(old(blocks), old(classes), blocks, classes, LastTo(rows)) <==> NoneRepeated(old(blocks), fetch, start, Start(frontier, genesis), LastTo(rows)))
      ensures head == if ok then Some((latest.number, latest.hash)) else old(head)
    {
      PollL1(l1Answer, latest.number);
      ok := Move(reorg, latest.number, fetch);
      PublishedKept(old(blocks), old(classes), blocks, classes, reorg, fetch, Start(FrontierAfter(old(frontier), reorg), genesis), Start(frontier, genesis), LastTo(rows));
      if ok {
        head := Some((latest.number, latest.hash));
        if l1.Some? { finals := finals + set n | n in blocks && n <= l1.value; }
      }
    }

    /** One cycle: detect a reorg, poll finality, roll back, ingest. The stored blocks are those
        that survive the rollback, with every block up to the new frontier stored over them.
        Whatever the endpoints answer and wherever the cycle fails, the recorded L1 height does
        not fall. What lies at or below the end of the last published epoch is kept exactly when
        no block taken repeats the hash of a block stored there, and then every published epoch
        stays what the database would cut. */
    method RunCycle(latest: Header, l1Answer: Header, announced: Option<Header>, canonical: nat -> Answer, fetch: nat -> Fetched) returns (ok: bool)
      requires Valid()
      modifies this`blocks, this`finals, this`classes, this`frontier, this`l1, this`head
      ensures Valid() && Recorded(l1) >= Recorded(old(l1)) && (old(l1).Some? ==> l1.Some?)
      ensures old(UpToDate()) && SameUpTo(old(blocks), old(classes), blocks, classes, LastTo(rows)) ==> UpToDate()
      ensures var reorg := old(ReorgNow(canonical, Bound(announced, latest)));
              var start := Start(FrontierAfter(old(frontier), reorg), genesis);
              if old(Refuses(reorg, announced, latest)) then
                !ok && blocks == old(blocks) && classes == old(classes) && frontier == old(frontier) && l1 == old(l1) && head == old(head)
              else
                && l1 == (if L1Rejection(l1Answer, latest.number, old(l1), genesis).None? then Some(l1Answer.number) else old(l1))
                && blocks == Ingested(RolledBack(old(blocks), reorg), fetch, start, Start(frontier, genesis))
                && (ok <==> forall n :: start < n <= latest.number ==> !fetch(n).Broken?)
                && (ok && latest.number > start ==> frontier == Some(latest.number))
                && head == (if ok then Some((latest.number, latest.hash)) else old(head))
                && (SameUpTo(old(blocks), old(classes), blocks, classes, LastTo(rows)) <==> NoneRepeated(old(blocks), fetch, start, Start(frontier, genesis), LastTo(rows)))
    {
      ok := false;
      var reorg := DetectReorg(Bound(announced, latest), canonical);
      if Refuses(reorg, announced, latest) {
        if old(UpToDate()) {
          CurrentKept(build, old(blocks), old(classes), blocks, classes, size, first, rows);
        }
        return;
      }
      NeverBelowEpochs(blocks, finals, Recorded(l1), canonical, LastTo(rows), head, Bound(announced, latest));
      ok := Follow(reorg, latest, l1Answer, fetch);
      if old(UpToDate()) && SameUpTo(old(blocks), old(classes), blocks, classes, LastTo(rows)) {
        CurrentKept(build, old(blocks), old(classes), blocks, classes, size, first, rows);
      }
    }

    // ------------------------------------------------------------------ cuts

    /** Cut every epoch that ends at or below the recorded L1 height and the frontier, unless the
        completeness check refuses. */
    method CutReadyEpochs(complete: bool) returns (cut: nat)
      requires Valid()
      modifies this`rows, this`manifest
      ensures Valid() && old(rows) <= rows && |rows| == |old(rows)| + cut
      ensures forall i :: |old(rows)| <= i < |rows| ==> RowCurrent(build, blocks, classes, size, rows, i)
      ensures (old(UpToDate()) ==> UpToDate()) && (!complete ==> cut == 0)
      ensures complete ==> var next := first + |rows|; EpochTo(next, size) > Recorded(l1) || EpochTo(next, size) > Recorded(frontier)
      ensures l1.None? || frontier.None? ==> (cut > 0 <==> complete && old(rows) == [] && first == 0 && size == 1)
    {
      cut := 0;
      if l1.None? || frontier.None? { NoHeightNoEpoch(); }
      if !complete {
        return;
      }
      var next := first + |rows|;
      EndsAtZero(next, size);
      while EpochTo(next, size) <= Recorded(l1) && EpochTo(next, size) <= Recorded(frontier)
        invariant size > 0 && CutTo(build, blocks, classes, size, first, old(rows), rows) && next == first + |rows|
        invariant LastTo(rows) <= Recorded(l1) && LastTo(rows) <= Recorded(frontier) && |rows| == |old(rows)| + cut
        invariant cut > 0 ==> EpochTo(first + |old(rows)|, size) <= Recorded(l1) && EpochTo(first + |old(rows)|, size) <= Recorded(frontier)
        decreases Recorded(l1) + size - EpochFrom(next, size)
      {
        var hash := Rebuilt(build, blocks, classes, next, size, PrevHash(rows, |rows|));
        AppendRow(build, blocks, classes, size, first, old(rows), rows, hash);
        rows := rows + [EpochRow(next, EpochFrom(next, size), EpochTo(next, size), hash)];
        cut, next := cut + 1, next + 1;
      }
      manifest := rows;
    }

    /** `recut_epochs_from`. From any rows the database can list, also those of a run stopped
        between iterations, whatever L1 height and frontier are recorded: a re-cut that succeeds,
        or refuses because nothing differs, leaves every row with the hash of its epoch rebuilt
        from the database on the preceding row's hash; any refusal writes nothing; and re-cutting
        from the epoch a stale-below refusal names is accepted. */
    method RecutEpochsFrom(firstIdx: nat) returns (r: Recut)
      requires size > 0 && InOrder(rows)
      modifies this`rows, this`manifest, this`snapshots
      ensures InOrder(rows) && (old(Valid()) ==> Valid())
      ensures r.Rewritten? <==> old(RecutAccepted(build, blocks, classes, size, rows, firstIdx))
      ensures r.Rewritten? || r.NothingDiffers? ==> UpToDate()
      ensures if r.Rewritten? then manifest == rows else rows == old(rows) && manifest == old(manifest) && snapshots == old(snapshots)
      ensures r.NotCut? <==> forall i :: 0 <= i < |old(rows)| ==> old(rows)[i].idx != firstIdx
      ensures r.StaleBelow? ==> RecutAccepted(build, blocks, classes, size, rows, r.lowest) && r.lowest < firstIdx
      ensures r.Rewritten? ==> snapshots == Below(old(snapshots), firstIdx)
    {
      var pos := 0;
      while pos < |rows| && rows[pos].idx != firstIdx
        invariant pos <= |rows| && forall i :: 0 <= i < pos ==> rows[i].idx != firstIdx
      {
        pos := pos + 1;
      }
      if pos == |rows| {
        return NotCut;
      }
      var stale := FindStale(pos);
      if stale.Some? {
        AdviceAccepted(build, blocks, classes, size, rows, pos, stale.value);
        return StaleBelow(stale.value);
      }
      r := Rewrite(pos, firstIdx);
    }

    /** The lowest stale epoch below row `pos`, scanning all the way down. */
    method FindStale(pos: nat) returns (stale: Option<nat>)
      requires size > 0 && InOrder(rows) && pos < |rows|
      ensures stale.None? ==> forall i :: 0 <= i < pos ==> RowCurrent(build, blocks, classes, size, rows, i)
      ensures stale.Some? ==> LowestStale(build, blocks, classes, size, rows, pos, stale.value) && stale.value < rows[pos].idx
    {
      stale := None;
      ghost var at := pos;
      for below := pos downto 0
        invariant stale.None? ==> forall i :: below <= i < pos ==> RowCurrent(build, blocks, classes, size, rows, i)
        invariant stale.Some? ==> below <= at < pos && rows[at].idx == stale.value && !RowCurrent(build, blocks, classes, size, rows, at)
        invariant stale.Some? ==> forall i :: below <= i < at ==> RowCurrent(build, blocks, classes, size, rows, i)
      {
        if Rebuilt(build, blocks, classes, rows[below].idx, size, PrevHash(rows, below)) != rows[below].hash {
          stale, at := Some(rows[below].idx), below;
        }
      }
    }

    /** Rewrite from row `pos` up, once an epoch is found that differs. */
    method Rewrite(pos: nat, firstIdx: nat) returns (r: Recut)
      requires size > 0 && InOrder(rows) && pos < |rows| && rows[pos].idx == firstIdx
      requires forall i :: 0 <= i < pos ==> RowCurrent(build, blocks, classes, size, rows, i)
      modifies this`rows, this`manifest, this`snapshots
      ensures InOrder(rows) && UpToDate() && (old(Valid()) ==> Valid())
      ensures if old(UpToDate()) then r.NothingDiffers? else r.Rewritten?
      ensures r.NothingDiffers? ==> rows == old(rows) && manifest == old(manifest) && snapshots == old(snapshots)
      ensures r.Rewritten? ==> manifest == rows && snapshots == Below(old(snapshots), firstIdx)
    {
      ghost var was := rows;
      var diverged := false;
      for k := pos to |rows|
        invariant Rewriting(build, blocks, classes, size, was, rows, k, diverged)
        invariant manifest == if diverged then rows else old(manifest)
        invariant snapshots == if diverged then Below(old(snapshots), firstIdx) else old(snapshots)
      {
        var hash := Rebuilt(build, blocks, classes, rows[k].idx, size, PrevHash(rows, k));
        RewriteStep(build, blocks, classes, size, was, rows, k, diverged, hash);
        if diverged || hash != rows[k].hash {
          if !diverged {
            diverged := true;
            snapshots := Below(snapshots, firstIdx);
          }
          rows := rows[k := Again(rows[k], size, hash)];
          manifest := rows;
        }
      }
      RecutTiles(build, blocks, classes, size, first, was, rows);
      r := if diverged then Rewritten else NothingDiffers;
    }

    /** An operator's repair replaces stored content; published rows are left as they are. */
    method Repair(blocks': Blocks, classes': Classes)
      requires Valid()
      modifies this`blocks, this`classes
      ensures Valid() && blocks == blocks' && classes == classes'
    {
      blocks, classes := blocks', classes';
    }
  }

  /** An empty indexer with one-block epochs from block zero cuts an epoch before it has recorded
      any L1 height or ingested any block. */
  method CutBeforeFinality(build: Build) returns (early: Indexer, cut: nat)
    ensures fresh(early) && early.Valid() && early.l1.None? && early.frontier.None? && early.blocks == map[]
    ensures cut == 1 && |early.rows| == 1 && early.rows[0].from == early.rows[0].to == 0
  {
    early := new Indexer(1, 0, build);
    cut := early.CutReadyEpochs(true);
    early.NoHeightNoEpoch();
    EpochRange(0, 1);
  }

  /** Block `n` and no other, under this hash. */
  function OneBlock(n: nat, hash: Felt, data: nat): nat -> Fetched {
    m => if m == n then Active(Stored(hash, data), false, None) else Inactive
  }

  /** An indexer that ingested block 1 and published it as an epoch of its own. */
  method PublishOne(build: Build) returns (early: Indexer)
    ensures fresh(early) && early.Valid() && early.size == 1 && early.genesis == 1
    ensures early.blocks == map[1 := Stored(7, 0)] && early.frontier == Some(1) && early.l1 == Some(1) && early.head == Some((1, 7))
    ensures |early.rows| == 1 && early.rows[0].from == early.rows[0].to == 1
  {
    early := new Indexer(1, 1, build);
    var first := Header(1, 7, 6, None, Some(true));
    TakesOne(map[], 0, 7, 0);
    var ok := early.RunCycle(first, first, None, _ => NotFound, OneBlock(1, 7, 0));
    var cut := early.CutReadyEpochs(true);
    EpochRange(1 + |early.rows|, 1);
    EpochRange(|early.rows|, 1);
  }

  /** A published block can be erased: the next block is answered with a header that repeats its
      hash. */
  method RepeatedHashErases(build: Build) returns (early: Indexer)
    ensures fresh(early) && early.Valid() && |early.rows| == 1 && early.rows[0].from == early.rows[0].to == 1
    ensures 1 !in early.blocks && early.blocks == map[2 := Stored(7, 1)]
  {
    early := PublishOne(build);
    var second := Header(2, 8, 7, None, Some(false));
    TakesOne(map[1 := Stored(7, 0)], 1, 7, 1);
    assert Displaced(map[1 := Stored(7, 0)], 2, 7) == {1};
    var ok := early.RunCycle(second, second, None, _ => NotFound, OneBlock(2, 7, 1));
  }

  lemma TakesOne(was: Blocks, start: nat, hash: Felt, data: nat)
    ensures Ingested(was, OneBlock(start + 1, hash, data), start, start + 1) == Store(was, start + 1, Stored(hash, data))
  {
    assert Ingested(was, OneBlock(start + 1, hash, data), start, start) == was;
  }

  /** The snapshots of epochs below `first`. */
  function Below(snapshots: set<nat>, first: nat): set<nat> {
    set e | e in snapshots && e < first
  }

  /** Where ingestion starts: the frontier, or just below the genesis block. */
  function Start(frontier: Option<nat>, genesis: nat): nat {
    if frontier.Some? then frontier.value else if genesis == 0 then 0 else genesis - 1
  }

  /** The header fetched for the announced number is not the announced one. */
  predicate Disagrees(announced: Option<Header>, latest: Header) {
    && announced.Some? && announced.value.number == latest.number
    && (announced.value.hash, announced.value.parent, announced.value.root) != (latest.hash, latest.parent, latest.root)
  }

  /** The header a cycle checks canonicity with. */
  function Bound(announced: Option<Header>, latest: Header): Header {
    if announced.Some? then announced.value else latest
  }

  ghost predicate SameClasses(was: Classes, now: Classes, upto: nat) {
    forall n :: n <= upto ==> (n in was <==> n in now) && (n in was ==> was[n] == now[n])
  }

  /** A fork never lies below the last published epoch. */
  lemma NeverBelowEpochs(blocks: Blocks, finals: set<nat>, l1: nat, canonical: nat -> Answer, floor: nat, head: Option<(nat, Felt)>, announced: Header)
    ensures var r := ReorgOf(blocks, finals, l1, canonical, floor, head, announced); r.Fork? ==> r.ancestor >= floor
  {
    if head.Some? { WalkDownMeans(blocks, finals, l1, canonical, floor, head.value.0); }
  }

  /** A cycle that rolls back and ingests above `upto` keeps what lies at or below it exactly when
      no block it takes repeats a hash stored there. */
  lemma PublishedKept(was: Blocks, wasClasses: Classes, now: Blocks, classes: Classes, reorg: Reorg, fetch: nat -> Fetched, start: nat, end: nat, upto: nat)
    requires now == Ingested(RolledBack(was, reorg), fetch, start, end) && SameClasses(wasClasses, classes, start)
    requires upto <= start && (reorg.Fork? ==> upto <= reorg.ancestor)
    ensures SameUpTo(was, wasClasses, now, classes, upto) <==> NoneRepeated(was, fetch, start, end, upto)
  {
    var base := RolledBack(was, reorg);
    forall m: nat | m <= upto
      ensures (m in base <==> m in was) && (m in was ==> base[m] == was[m])
      ensures m in now <==> m in was && !Repeats(was, fetch, start, end, m)
      ensures m in now ==> now[m] == was[m]
    {
      LowBlock(base, fetch, start, end, m);
    }
  }

  /** `rows` extends `was` by rows built on their predecessors' hashes. */
  ghost predicate CutTo(build: Build, blocks: Blocks, classes: Classes, size: nat, first: nat, was: seq<EpochRow>, rows: seq<EpochRow>)
    requires size > 0
  {
    && Tile(rows, first, size) && was <= rows
    && (forall i :: |was| <= i < |rows| ==> RowCurrent(build, blocks, classes, size, rows, i))
    && (forall i :: 0 <= i < |was| ==> (RowCurrent(build, blocks, classes, size, rows, i) <==> RowCurrent(build, blocks, classes, size, was, i)))
  }

  /** One more row built on the last row's hash. */
  lemma AppendRow(build: Build, blocks: Blocks, classes: Classes, size: nat, first: nat, was: seq<EpochRow>, rows: seq<EpochRow>, hash: Digest)
    requires size > 0 && CutTo(build, blocks, classes, size, first, was, rows)
    requires hash == Rebuilt(build, blocks, classes, first + |rows|, size, PrevHash(rows, |rows|))
    ensures var next := first + |rows|; var out := rows + [EpochRow(next, EpochFrom(next, size), EpochTo(next, size), hash)];
            && CutTo(build, blocks, classes, size, first, was, out) && LastTo(out) == EpochTo(next, size)
            && EpochFrom(next + 1, size) == EpochFrom(next, size) + size
  {
    var next := first + |rows|;
    var out := rows + [EpochRow(next, EpochFrom(next, size), EpochTo(next, size), hash)];
    forall i | 0 <= i < |out| ensures PrevHash(out, i) == PrevHash(rows, i) {}
    forall i | 0 <= i < |rows| ensures RowCurrent(build, blocks, classes, size, out, i) <==> RowCurrent(build, blocks, classes, size, rows, i) {}
    assert RowCurrent(build, blocks, classes, size, out, |rows|);
  }
}
