/** `Db::storage_root_at` of `crates/indexerd/src/db.rs`: a storage root cached per connection
    and reused only while no storage write can have changed it.

    A `Db` is the shared database file with its revision triggers; a `Connection` holds its own
    cache. Transactions are single method calls. */
module RootCaches {
  import opened Felts
  import opened Mpt
  import opened MptRoot
  import opened CachedTries
  import opened MirrorLog
  import opened MemStores
  import opened Sorting

  // ------------------------------------------------------------- slot sets

  /** The complete slot set of the rows as of `bound`. */
  ghost function RowsSet(rows: Rows, bound: Block): map<Felt, Felt> {
    map slot: Felt | 0 <= slot < PRIME && LastRow(rows, slot, bound).0 != 0 :: LastRow(rows, slot, bound).0
  }

  /** `root` is the root recomputed from the full slot set at `bound`. */
  ghost predicate IsRootAt(h: Hasher, rows: Rows, bound: Block, root: Felt) {
    exists list :: ListsSet(list, RowsSet(rows, bound)) && root == StorageRoot(h, list)
  }

  /** No row was written above `lo`, up to `hi`. */
  ghost predicate NoWrites(rows: Rows, lo: Block, hi: Block) {
    forall key :: key in rows ==> !(lo < key.1 <= hi)
  }

  /** Heights with no write between them have the same slot set. */
  lemma SameSet(rows: Rows, a: Block, b: Block)
    requires NoWrites(rows, if a <= b then a else b, if a <= b then b else a)
    ensures RowsSet(rows, a) == RowsSet(rows, b)
  {
    var m, n := RowsSet(rows, a), RowsSet(rows, b);
    forall slot: Felt ensures LastRow(rows, slot, a) == LastRow(rows, slot, b) {
      assert WriteBlocks(rows, slot, a) == WriteBlocks(rows, slot, b);
    }
    assert forall slot :: slot in m <==> slot in n;
  }

  // ---------------------------------------------------------- the database

  class Db {
    var blocks: map<Block, Felt>
    var rows: Rows
    var revision: nat
    /** The rows at every revision a transaction ended with. */
    ghost var history: map<nat, Rows>

    /** The history ends with the rows, and every row references a stored block. */
    ghost predicate Valid()
      reads this
    {
      && revision in history && history[revision] == rows && (forall r :: r in history ==> r <= revision)
      && forall key :: key in rows ==> key.1 in blocks
    }

    constructor ()
      ensures Valid() && rows == map[] && revision == 0
    {
      blocks, rows, revision, history := map[], map[], 0, map[0 := map[]];
    }

    /** Delete the rows of `numbers`, one trigger per row. */
    method DropRows(numbers: set<Block>)
      modifies this`rows, this`revision
      ensures rows == map key | key in old(rows) && key.1 !in numbers :: old(rows)[key]
      ensures revision >= old(revision) && (revision == old(revision) ==> rows == old(rows))
    {
      var doomed := set key | key in rows && key.1 in numbers;
      revision := revision + |doomed|;
      if doomed != {} {
        rows := map key | key in rows && key.1 !in numbers :: rows[key];
      } else {
        assert forall key :: key in rows ==> key !in doomed;
        assert rows == map key | key in rows && key.1 !in numbers :: rows[key];
      }
    }

    /** `insert_block_data`: replacing a block, or one with the same hash, cascades to its rows;
        then each diff is upserted. */
    method InsertBlockData(number: Block, hash: Felt, diffs: seq<(Felt, Felt)>)
      requires Valid()
      modifies this
      ensures Valid() && Extends(old(history), history)
      ensures DiffsApplied(rows, map key | key in old(rows) && key.1 !in Displaced(old(blocks), number, hash) :: old(rows)[key], number, diffs)
    {
      var gone := Displaced(blocks, number, hash);
      blocks := (blocks - gone)[number := hash];
      DropRows(gone);
      ghost var base := rows;
      ghost var start := revision;
      for j := 0 to |diffs|
        invariant DiffsApplied(rows, base, number, diffs[..j])
        invariant revision >= start && (revision == start ==> rows == base)
        invariant blocks == (old(blocks) - gone)[number := hash] && history == old(history)
      {
        OneMoreDiff(rows, base, number, diffs, j);
        rows := rows[(diffs[j].0, number) := diffs[j].1];
        revision := revision + 1;
      }
      assert diffs[..|diffs|] == diffs;
      WritesReferenced(rows, base, number, diffs, blocks);
      history := history[revision := rows];
    }

    /** `rollback_above`: blocks above the ancestor and, by cascade, their rows. */
    method RollbackAbove(ancestor: Block)
      requires Valid()
      modifies this
      ensures Valid() && Extends(old(history), history)
      ensures rows == map key | key in old(rows) && key.1 !in BlocksAbove(old(blocks), ancestor) :: old(rows)[key]
      ensures blocks == old(blocks) - BlocksAbove(old(blocks), ancestor)
    {
      var gone := BlocksAbove(blocks, ancestor);
      blocks := blocks - gone;
      DropRows(gone);
      history := history[revision := rows];
    }

    /** The complete slot set at `bound`, each slot once. */
    method FullSlotSetAsOf(bound: Block) returns (list: seq<(Felt, Felt)>)
      ensures ListsSet(list, RowsSet(rows, bound))
    {
      ghost var all := RowsSet(rows, bound);
      ghost var m: map<Felt, Felt> := map[];
      list := [];
      var todo := set key | key in rows :: key.0;
      forall slot: Felt | slot !in todo ensures slot !in all {
        assert forall key :: key in rows ==> key.0 in todo;
        assert WriteBlocks(rows, slot, bound) == {};
      }
      while todo != {}
        invariant forall slot :: slot in m <==> slot in all && slot !in todo
        invariant forall slot :: slot in m ==> m[slot] == all[slot]
        invariant ListsSet(list, m)
      {
        var slot :| slot in todo;
        var value := LastRow(rows, slot, bound).0;
        if value != 0 {
          OneMoreListed(list, m, slot, value);
          list, m := list + [(slot, value)], m[slot := value];
        }
        todo := todo - {slot};
      }
      assert m == all;
    }
  }

  lemma WritesReferenced(rows: Rows, base: Rows, number: Block, diffs: seq<(Felt, Felt)>, blocks: map<Block, Felt>)
    requires DiffsApplied(rows, base, number, diffs) && number in blocks && forall key :: key in base ==> key.1 in blocks
    ensures forall key :: key in rows ==> key.1 in blocks
  {
    forall key | key in rows ensures key.1 in blocks {
      var (slot, b) := key;
      assert Row(rows, slot, b) == Newer(Row(base, slot, b), if b == number then LastDiff(diffs, slot) else None);
    }
  }

  /** The block numbers an upsert of `number` with `hash` replaces. */
  function Displaced(blocks: map<Block, Felt>, number: Block, hash: Felt): set<Block> {
    set n | n in blocks && (n == number || blocks[n] == hash)
  }

  function BlocksAbove(blocks: map<Block, Felt>, ancestor: Block): set<Block> {
    set n | n in blocks && n > ancestor
  }

  class Connection {
    const db: Db
    const trie: CachedTrie
    /** The height, revision and root of the last query. */
    var state: Option<(Block, nat, Felt)>

    /** What is cached was the recomputed root at its height and revision. */
    ghost predicate Valid()
      reads this, db, trie
    {
      && db.Valid() && trie.Valid()
      && (state.Some? ==> state.value.1 in db.history && IsRootAt(trie.h, db.history[state.value.1], state.value.0, state.value.2))
    }

    constructor (db: Db, h: Hasher)
      requires db.Valid()
      ensures Valid() && this.db == db && fresh(trie) && trie.h == h
    {
      this.db := db;
      trie := new CachedTrie(h);
      state := None;
    }

    /** The cached root, when it cannot have changed. */
    method Reusable(bound: Block) returns (root: Option<Felt>)
      requires Valid()
      ensures root.Some? ==> IsRootAt(trie.h, db.rows, bound, root.value)
    {
      root := None;
      if state.Some? {
        var (at, revision, cached) := state.value;
        var lo, hi := if at <= bound then at else bound, if at <= bound then bound else at;
        if revision == db.revision && !(exists key | key in db.rows :: lo < key.1 <= hi) {
          SameSet(db.rows, at, bound);
          root := Some(cached);
        }
      }
    }

    /** The root at `bound` is always the one recomputed from the full slot set, whether it was
        reused or not; a set that no trie can hold is refused. */
    method StorageRootAt(bound: Block) returns (r: UpdateResult)
      requires Valid()
      modifies this, trie
      ensures Valid()
      ensures r.Root? ==> IsRootAt(trie.h, db.rows, bound, r.root)
      ensures r.Rejected? ==> exists slot :: slot in RowsSet(db.rows, bound) && !IsTrieKey(slot)
    {
      var cached := Reusable(bound);
      if cached.Some? {
        state := Some((bound, db.revision, cached.value));
        return UpdateResult.Root(cached.value);
      }
      var list := db.FullSlotSetAsOf(bound);
      ListRefused(list, RowsSet(db.rows, bound));
      r := trie.Update(list);
      if r.Root? {
        state := Some((bound, db.revision, r.root));
      }
    }

    /** Whatever another connection does to the database, this cache stays right. */
    twostate lemma StaysValid()
      requires old(Valid()) && unchanged(this) && unchanged(trie)
      requires db.Valid() && Extends(old(db.history), db.history)
      ensures Valid()
    {
    }
  }

  /** The recomputed root does not depend on the order rows are listed in. */
  lemma RootAtUnique(h: Hasher, rows: Rows, bound: Block, a: Felt, b: Felt)
    requires IsRootAt(h, rows, bound, a) && IsRootAt(h, rows, bound, b) && TrieKeys(RowsSet(rows, bound))
    ensures a == b
  {
    var m := RowsSet(rows, bound);
    var x :| ListsSet(x, m) && a == StorageRoot(h, x);
    var y :| ListsSet(y, m) && b == StorageRoot(h, y);
    ListIsPathMap(x, m);
    ListIsPathMap(y, m);
  }
}
