/** The snapshot the cutter builds (`crates/indexerd/src/cutter.rs`, `db.rs`): the complete
    slot set of a database at an epoch's end with each slot's last write block, in key order. */
module SnapshotBuild {
  import opened Felts
  import opened Mpt
  import opened MirrorLog
  import opened MemStores
  import opened ColdStart
  import opened Sorting

  function SlotKey(s: SnapSlot): nat {
    s.k
  }

  /** The slots handled so far, each with its latest value and write block at the basis. */
  ghost predicate Listed(slots: seq<SnapSlot>, rows: Rows, basis: Block, todo: set<Felt>) {
    && AscendingBy(SlotKey, slots)
    && (forall s :: s in slots ==> s.k !in todo && s.v != 0 && LastRow(rows, s.k, basis) == (s.v, s.w))
    && (forall k :: k !in todo && LastRow(rows, k, basis).0 != 0 ==> SnapSlot(k, LastRow(rows, k, basis).0, LastRow(rows, k, basis).1) in slots)
  }

  lemma ListOne(slots: seq<SnapSlot>, rows: Rows, basis: Block, todo: set<Felt>, k: Felt)
    requires Listed(slots, rows, basis, todo) && k in todo && LastRow(rows, k, basis).0 != 0
    ensures Listed(Insert(SlotKey, slots, SnapSlot(k, LastRow(rows, k, basis).0, LastRow(rows, k, basis).1)), rows, basis, todo - {k})
  {
    var s := SnapSlot(k, LastRow(rows, k, basis).0, LastRow(rows, k, basis).1);
    var out := Insert(SlotKey, slots, s);
    forall i | 0 <= i < |slots| ensures slots[i].k != k { assert slots[i] in slots; }
    InsertAscends(SlotKey, slots, s);
    forall x ensures x in out <==> x in slots || x == s { InsertMembers(SlotKey, slots, s, x); }
  }

  /** The snapshot of a database's rows at `basis`. */
  ghost predicate SnapshotRows(slots: seq<SnapSlot>, rows: Rows, basis: Block) {
    Listed(slots, rows, basis, {})
  }

  /** Build the snapshot of the rows at `basis`. Encoded, it always passes the client's
      checks, and it is the snapshot cold start is proved against. */
  method BuildSnapshot(rows: Rows, basis: Block) returns (slots: seq<SnapSlot>)
    ensures SnapshotRows(slots, rows, basis) && WellFormed(slots, basis)
  {
    slots := [];
    var todo := set key | key in rows :: key.0;
    forall k: Felt | k !in todo ensures LastRow(rows, k, basis) == (0, 0) {
      assert forall key :: key in rows ==> key.0 in todo;
      assert WriteBlocks(rows, k, basis) == {};
    }
    while todo != {}
      invariant Listed(slots, rows, basis, todo)
    {
      var k :| k in todo;
      var last := LastRow(rows, k, basis);
      if last.0 != 0 {
        ListOne(slots, rows, basis, todo, k);
        slots := Insert(SlotKey, slots, SnapSlot(k, last.0, last.1));
      }
      todo := todo - {k};
    }
    forall i | 0 <= i < |slots| ensures slots[i].v != 0 && slots[i].w <= basis { assert slots[i] in slots; }
    forall i, j | 0 <= i < j < |slots| ensures slots[i].k < slots[j].k { assert SlotKey(slots[i]) < SlotKey(slots[j]); }
  }

  /** It is the snapshot of every log that reads like the rows at the basis. */
  lemma SnapshotOfLog(slots: seq<SnapSlot>, rows: Rows, db: seq<Op>, basis: Block)
    requires SnapshotRows(slots, rows, basis) && forall k: Felt :: LastRow(rows, k, basis) == Read(db, k, basis)
    ensures SnapshotOf(slots, db, basis)
  {
    forall i | 0 <= i < |slots| ensures slots[i].v != 0 && Read(db, slots[i].k, basis) == (slots[i].v, slots[i].w) { assert slots[i] in slots; }
    forall i, j | 0 <= i < j < |slots| ensures slots[i].k < slots[j].k { assert SlotKey(slots[i]) < SlotKey(slots[j]); }
  }
}
