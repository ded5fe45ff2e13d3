/** `attribute_to_blocks` of `crates/indexerd/src/trie_walk.rs`: turn missing slots into the
    blocks that wrote them, by bisecting storage reads once per block. The two endpoints,
    storage reads and state updates, are parameters; `None` is a transport error. */
module Attribution {
  import opened Felts
  import opened Mpt
  import opened Sorting

  type Reader = (Felt, nat) -> Option<Felt>

  /** One contract's storage entries in a state update, by key. */
  datatype ContractDiff = ContractDiff(address: Felt, keys: seq<Felt>)

  type Updates = nat -> Option<seq<ContractDiff>>

  datatype AttributionError = ReadFailed | UpdateFailed | Inconsistent(slot: Felt, block: nat)

  datatype Attributed = Failed(error: AttributionError) | Found(blocks: seq<nat>, calls: nat)

  function Pred(from: nat): nat {
    if from == 0 then 0 else from - 1
  }

  // ------------------------------------------------------------- the bisection

  function CeilLog2(n: nat): nat {
    if n <= 1 then 0 else 1 + CeilLog2((n + 1) / 2)
  }

  lemma {:induction false} CeilLog2Means(n: nat)
    ensures n <= Pow2(CeilLog2(n))
    ensures n > 1 ==> Pow2(CeilLog2(n) - 1) < n
  {
    if n > 1 { CeilLog2Means((n + 1) / 2); }
  }

  lemma {:induction false} CeilLog2Grows(m: nat, n: nat)
    requires m <= n
    ensures CeilLog2(m) <= CeilLog2(n)
  {
    if m > 1 { CeilLog2Grows((m + 1) / 2, (n + 1) / 2); }
  }

  /** The slot turns from zero to non-zero at `block`. */
  ghost predicate Turns(read: Reader, slot: Felt, block: nat) {
    block > 0 && read(slot, block - 1) == Some(0) && NonZero(read, slot, block)
  }

  ghost predicate NonZero(read: Reader, slot: Felt, block: nat) {
    read(slot, block).Some? && read(slot, block).value != 0
  }

  /** Bisect `lo`, `hi` for the block at which `slot` turns non-zero, and count the reads. */
  function Search(slot: Felt, lo: nat, hi: nat, read: Reader): (Option<nat>, nat)
    decreases hi - lo
  {
    if lo + 1 >= hi then (Some(hi), 0)
    else
      var mid := lo + (hi - lo) / 2;
      match read(slot, mid)
      case None => (None, 0)
      case Some(v) =>
        var (block, n) := if v == 0 then Search(slot, mid, hi, read) else Search(slot, lo, mid, read);
        (block, n + 1)
  }

  lemma {:induction false} SearchReads(slot: Felt, lo: nat, hi: nat, read: Reader)
    requires lo < hi
    ensures Search(slot, lo, hi, read).1 <= CeilLog2(hi - lo)
    decreases hi - lo
  {
    if lo + 1 < hi {
      var mid := lo + (hi - lo) / 2;
      CeilLog2Grows((hi - lo) / 2, (hi - lo + 1) / 2);
      SearchReads(slot, mid, hi, read);
      SearchReads(slot, lo, mid, read);
    }
  }

  lemma {:induction false} SearchTurns(slot: Felt, lo: nat, hi: nat, read: Reader)
    requires lo < hi && read(slot, lo) == Some(0) && NonZero(read, slot, hi)
    ensures var b := Search(slot, lo, hi, read).0; b.Some? ==> lo < b.value <= hi && Turns(read, slot, b.value)
    ensures Search(slot, lo, hi, read).0.None? ==> exists b :: lo < b < hi && read(slot, b).None?
    decreases hi - lo
  {
    if lo + 1 < hi {
      var mid := lo + (hi - lo) / 2;
      if read(slot, mid) == Some(0) { SearchTurns(slot, mid, hi, read); }
      else if read(slot, mid).Some? { SearchTurns(slot, lo, mid, read); }
    }
  }

  method Bisect(slot: Felt, from: nat, to: nat, read: Reader) returns (block: Option<nat>, calls: nat)
    ensures (block, calls) == Search(slot, Pred(from), to, read)
  {
    var lo, hi := Pred(from), to;
    calls := 0;
    while lo + 1 < hi
      invariant var (b, n) := Search(slot, lo, hi, read); (b, calls + n) == Search(slot, Pred(from), to, read)
    {
      var mid := lo + (hi - lo) / 2;
      var v := read(slot, mid);
      if v.None? {
        return None, calls;
      }
      calls := calls + 1;
      if v.value == 0 { lo := mid; } else { hi := mid; }
    }
    block := Some(hi);
  }

  // ------------------------------------------------------------ claimed slots

  /** The pool keys a state update names. */
  function PoolKeys(pool: Felt, diffs: seq<ContractDiff>): set<Felt> {
    set i, j | 0 <= i < |diffs| && diffs[i].address == pool && 0 <= j < |diffs[i].keys| :: diffs[i].keys[j]
  }

  ghost predicate NamedBy(pool: Felt, updates: Updates, block: nat, k: Felt) {
    updates(block).Some? && k in PoolKeys(pool, updates(block).value)
  }

  /** Remove from `pending` every pool key the update names, counting the removals. */
  method Claim(pool: Felt, diffs: seq<ContractDiff>, pending: set<Felt>) returns (rest: set<Felt>, claimed: nat)
    ensures rest == pending - PoolKeys(pool, diffs)
    ensures claimed == 0 <==> pending !! PoolKeys(pool, diffs)
  {
    rest, claimed := pending, 0;
    for i := 0 to |diffs|
      invariant rest == pending - PoolKeys(pool, diffs[..i])
      invariant claimed == 0 <==> rest == pending
    {
      ghost var before := rest;
      if diffs[i].address == pool {
        var keys := diffs[i].keys;
        for j := 0 to |keys|
          invariant forall k :: k in rest <==> k in before && k !in keys[..j]
          invariant claimed == 0 <==> rest == pending
        {
          if keys[j] in rest {
            rest, claimed := rest - {keys[j]}, claimed + 1;
          }
        }
      }
      NamedSoFar(pool, diffs, i);
      assert rest == pending - PoolKeys(pool, diffs[..i + 1]);
    }
    assert diffs[..|diffs|] == diffs;
  }

  lemma NamedSoFar(pool: Felt, diffs: seq<ContractDiff>, i: nat)
    requires i < |diffs|
    ensures forall k :: k in PoolKeys(pool, diffs[..i + 1]) <==> k in PoolKeys(pool, diffs[..i]) || (diffs[i].address == pool && k in diffs[i].keys)
  {
    var a, b := diffs[..i], diffs[..i + 1];
    assert forall x :: 0 <= x < i ==> a[x] == b[x] == diffs[x];
    assert b[i] == diffs[i];
  }

  // --------------------------------------------------------- sorted, no repeats

  function SortDedup(s: seq<nat>): seq<nat> {
    if s == [] then []
    else
      var init := SortDedup(s[..|s| - 1]);
      if s[|s| - 1] in init then init else Insert(Itself, init, s[|s| - 1])
  }

  lemma {:induction false} SortDedupMeans(s: seq<nat>)
    ensures AscendingBy(Itself, SortDedup(s))
    ensures forall y :: y in SortDedup(s) <==> y in s
    ensures DistinctBy(Itself, s) ==> |SortDedup(s)| == |s|
  {
    if s != [] {
      var init, x := s[..|s| - 1], s[|s| - 1];
      assert s == init + [x];
      SortDedupMeans(init);
      var front := SortDedup(init);
      if x !in front {
        InsertAscends(Itself, front, x);
        InsertMembers(Itself, front, x, x);
      } else {
        var i :| 0 <= i < |init| && init[i] == x;
        assert Itself(s[i]) == Itself(s[|init|]);
      }
      forall y ensures y in SortDedup(s) <==> y in s { InsertMembers(Itself, front, x, y); }
    }
  }

  // -------------------------------------------------------------- the operation

  /** The slots still to handle, with what is pending and found so far. */
  function Run(slots: seq<Felt>, pool: Felt, from: nat, to: nat, read: Reader, updates: Updates,
               pending: set<Felt>, blocks: seq<nat>, calls: nat): Attributed
  {
    if slots == [] then Found(SortDedup(blocks), calls)
    else if slots[0] !in pending then Run(slots[1..], pool, from, to, read, updates, pending, blocks, calls)
    else
      var (block, n) := Search(slots[0], Pred(from), to, read);
      if block.None? then Failed(ReadFailed)
      else if updates(block.value).None? then Failed(UpdateFailed)
      else
        var named := PoolKeys(pool, updates(block.value).value);
        if pending !! named then Failed(Inconsistent(slots[0], block.value))
        else Run(slots[1..], pool, from, to, read, updates, pending - named, blocks + [block.value], calls + n)
  }

  function Requested(slots: seq<Felt>): set<Felt> {
    set s | s in slots
  }

  function Attribute(slots: seq<Felt>, pool: Felt, from: nat, to: nat, read: Reader, updates: Updates): Attributed {
    Run(slots, pool, from, to, read, updates, Requested(slots), [], 0)
  }

  method AttributeToBlocks(slots: seq<Felt>, pool: Felt, from: nat, to: nat, read: Reader, updates: Updates) returns (r: Attributed)
    ensures r == Attribute(slots, pool, from, to, read, updates)
  {
    var pending := Requested(slots);
    var blocks: seq<nat> := [];
    var calls := 0;
    for i := 0 to |slots|
      invariant Run(slots[i..], pool, from, to, read, updates, pending, blocks, calls) == Attribute(slots, pool, from, to, read, updates)
    {
      assert slots[i..][0] == slots[i] && slots[i..][1..] == slots[i + 1..];
      if slots[i] in pending {
        var block, n := Bisect(slots[i], from, to, read);
        if block.None? {
          return Failed(ReadFailed);
        }
        var su := updates(block.value);
        if su.None? {
          return Failed(UpdateFailed);
        }
        var rest, claimed := Claim(pool, su.value, pending);
        if claimed == 0 {
          return Failed(Inconsistent(slots[i], block.value));
        }
        pending, blocks, calls := rest, blocks + [block.value], calls + n;
      }
    }
    r := Found(SortDedup(blocks), calls);
  }

  // -------------------------------------------------------------- what it means

  /** The cost of `n` bisections of `log` reads each. */
  function Bisections(n: nat, log: nat): nat {
    if n == 0 then 0 else Bisections(n - 1, log) + log
  }

  lemma {:induction false} BisectionsCost(n: nat, log: nat)
    ensures Bisections(n, log) == n * log
  {
    if n > 0 { BisectionsCost(n - 1, log); }
  }

  lemma {:induction false} BisectionsGrow(n: nat, a: nat, b: nat)
    requires a <= b
    ensures Bisections(n, a) <= Bisections(n, b)
  {
    if n > 0 { BisectionsGrow(n - 1, a, b); }
  }

  /** Every slot is zero just before the range and set at its end. */
  ghost predicate Asked(read: Reader, slots: seq<Felt>, from: nat, to: nat) {
    && Pred(from) < to
    && forall s :: s in slots ==> read(s, Pred(from)) == Some(0) && NonZero(read, s, to)
  }

  /** A block that turns a slot non-zero names it in its state update. */
  ghost predicate UpdatesMatchReads(read: Reader, pool: Felt, updates: Updates) {
    forall s, b: nat :: Turns(read, s, b) && updates(b).Some? ==> NamedBy(pool, updates, b, s)
  }

  /** The slot has a block among `blocks` that wrote it. */
  ghost predicate Written(pool: Felt, updates: Updates, blocks: seq<nat>, s: Felt) {
    exists b :: b in blocks && NamedBy(pool, updates, b, s)
  }

  ghost predicate TurnsSome(read: Reader, slots: seq<Felt>, b: nat) {
    exists s :: s in slots && Turns(read, s, b)
  }

  /** Between two slots: the blocks found are distinct, have claimed what they name, turned a
      requested slot each, and cost one bisection each. */
  ghost predicate Accounted(read: Reader, pool: Felt, updates: Updates, all: seq<Felt>, pending: set<Felt>, blocks: seq<nat>, calls: nat, log: nat) {
    && (forall i, j :: 0 <= i < j < |blocks| ==> blocks[i] != blocks[j])
    && (forall b, s :: b in blocks && s in pending ==> !NamedBy(pool, updates, b, s))
    && (forall b :: b in blocks ==> TurnsSome(read, all, b))
    && calls <= Bisections(|blocks|, log)
  }

  lemma AccountOne(read: Reader, pool: Felt, updates: Updates, all: seq<Felt>, pending: set<Felt>, blocks: seq<nat>, calls: nat, log: nat, slot: Felt, block: nat, n: nat)
    requires Accounted(read, pool, updates, all, pending, blocks, calls, log) && n <= log
    requires slot in all && Turns(read, slot, block) && updates(block).Some?
    requires !(pending !! PoolKeys(pool, updates(block).value))
    ensures Accounted(read, pool, updates, all, pending - PoolKeys(pool, updates(block).value), blocks + [block], calls + n, log)
  {
    var s :| s in pending && s in PoolKeys(pool, updates(block).value);
    assert NamedBy(pool, updates, block, s);
    assert block !in blocks;
  }

  /** Every slot is written by a block found, or pending and still to come. */
  ghost predicate Covered(pool: Felt, updates: Updates, all: seq<Felt>, left: seq<Felt>, pending: set<Felt>, blocks: seq<nat>) {
    forall s :: s in all ==> Written(pool, updates, blocks, s) || (s in pending && s in left)
  }

  lemma CoverOne(pool: Felt, updates: Updates, all: seq<Felt>, left: seq<Felt>, pending: set<Felt>, blocks: seq<nat>, block: nat)
    requires left != [] && Covered(pool, updates, all, left, pending, blocks) && NamedBy(pool, updates, block, left[0])
    ensures Covered(pool, updates, all, left[1..], pending - PoolKeys(pool, updates(block).value), blocks + [block])
  {
    var more := blocks + [block];
    forall s | s in all ensures Written(pool, updates, more, s) || (s in pending - PoolKeys(pool, updates(block).value) && s in left[1..]) {
      if Written(pool, updates, blocks, s) {
        var b :| b in blocks && NamedBy(pool, updates, b, s);
        assert b in more;
      } else if NamedBy(pool, updates, block, s) {
        assert block in more;
      } else {
        assert left == [left[0]] + left[1..];
      }
    }
  }

  /** What a run of attributions promises. */
  ghost predicate Right(read: Reader, pool: Felt, updates: Updates, all: seq<Felt>, log: nat, r: Attributed) {
    match r
    case Failed(e) => !e.Inconsistent?
    case Found(blocks, calls) =>
      && AscendingBy(Itself, blocks)
      && (forall b :: b in blocks ==> TurnsSome(read, all, b))
      && (forall s :: s in all ==> Written(pool, updates, blocks, s))
      && calls <= Bisections(|blocks|, log)
  }

  /** The invariant of a run: the caller's promise, and everything accounted for so far. */
  ghost predicate Ready(read: Reader, pool: Felt, updates: Updates, from: nat, to: nat, all: seq<Felt>,
                        left: seq<Felt>, pending: set<Felt>, blocks: seq<nat>, calls: nat)
  {
    && Asked(read, all, from, to) && UpdatesMatchReads(read, pool, updates)
    && (forall s :: s in left ==> s in all)
    && Accounted(read, pool, updates, all, pending, blocks, calls, CeilLog2(to - Pred(from)))
    && Covered(pool, updates, all, left, pending, blocks)
  }

  lemma RunOn(left: seq<Felt>, pool: Felt, from: nat, to: nat, read: Reader, updates: Updates,
              pending: set<Felt>, blocks: seq<nat>, calls: nat, block: nat, n: nat, named: set<Felt>)
    requires left != [] && left[0] in pending && Search(left[0], Pred(from), to, read) == (Some(block), n)
    requires updates(block).Some? && named == PoolKeys(pool, updates(block).value) && !(pending !! named)
    ensures Run(left, pool, from, to, read, updates, pending, blocks, calls)
            == Run(left[1..], pool, from, to, read, updates, pending - named, blocks + [block], calls + n)
  {
  }

  /** A successful bisection moves the run on; its block is never refused. */
  lemma FoundOne(read: Reader, pool: Felt, updates: Updates, from: nat, to: nat, all: seq<Felt>,
                 left: seq<Felt>, pending: set<Felt>, blocks: seq<nat>, calls: nat, block: nat, n: nat)
    requires Ready(read, pool, updates, from, to, all, left, pending, blocks, calls) && left != [] && left[0] in pending
    requires Search(left[0], Pred(from), to, read) == (Some(block), n) && updates(block).Some?
    ensures var named := PoolKeys(pool, updates(block).value);
            && Ready(read, pool, updates, from, to, all, left[1..], pending - named, blocks + [block], calls + n)
            && Run(left, pool, from, to, read, updates, pending, blocks, calls)
               == Run(left[1..], pool, from, to, read, updates, pending - named, blocks + [block], calls + n)
  {
    SearchReads(left[0], Pred(from), to, read);
    SearchTurns(left[0], Pred(from), to, read);
    TurnIsNamed(pool, read, updates, pending, left[0], block);
    AccountOne(read, pool, updates, all, pending, blocks, calls, CeilLog2(to - Pred(from)), left[0], block, n);
    CoverOne(pool, updates, all, left, pending, blocks, block);
    RunOn(left, pool, from, to, read, updates, pending, blocks, calls, block, n, PoolKeys(pool, updates(block).value));
  }

  lemma {:induction false} RunRight(left: seq<Felt>, pool: Felt, from: nat, to: nat, read: Reader, updates: Updates,
                                    pending: set<Felt>, blocks: seq<nat>, calls: nat, all: seq<Felt>)
    requires Ready(read, pool, updates, from, to, all, left, pending, blocks, calls)
    ensures Right(read, pool, updates, all, CeilLog2(to - Pred(from)), Run(left, pool, from, to, read, updates, pending, blocks, calls))
    decreases |left|
  {
    if left == [] {
      SortedRight(read, pool, updates, all, pending, blocks, calls, CeilLog2(to - Pred(from)));
    } else if left[0] !in pending {
      SkipOne(pool, updates, all, left, pending, blocks);
      RunRight(left[1..], pool, from, to, read, updates, pending, blocks, calls, all);
    } else {
      var (found, n) := Search(left[0], Pred(from), to, read);
      if found.Some? && updates(found.value).Some? {
        var named := PoolKeys(pool, updates(found.value).value);
        FoundOne(read, pool, updates, from, to, all, left, pending, blocks, calls, found.value, n);
        RunRight(left[1..], pool, from, to, read, updates, pending - named, blocks + [found.value], calls + n, all);
      }
    }
  }

  lemma TurnIsNamed(pool: Felt, read: Reader, updates: Updates, pending: set<Felt>, slot: Felt, block: nat)
    requires UpdatesMatchReads(read, pool, updates) && Turns(read, slot, block) && updates(block).Some? && slot in pending
    ensures NamedBy(pool, updates, block, slot) && !(pending !! PoolKeys(pool, updates(block).value))
  {
  }

  lemma SkipOne(pool: Felt, updates: Updates, all: seq<Felt>, left: seq<Felt>, pending: set<Felt>, blocks: seq<nat>)
    requires left != [] && left[0] !in pending && Covered(pool, updates, all, left, pending, blocks)
    ensures Covered(pool, updates, all, left[1..], pending, blocks)
  {
    assert left == [left[0]] + left[1..];
  }

  lemma SortedRight(read: Reader, pool: Felt, updates: Updates, all: seq<Felt>, pending: set<Felt>, blocks: seq<nat>, calls: nat, log: nat)
    requires Accounted(read, pool, updates, all, pending, blocks, calls, log) && Covered(pool, updates, all, [], pending, blocks)
    ensures Right(read, pool, updates, all, log, Found(SortDedup(blocks), calls))
  {
    SortDedupMeans(blocks);
    SortedCovers(pool, updates, all, blocks);
  }

  lemma SortedCovers(pool: Felt, updates: Updates, all: seq<Felt>, blocks: seq<nat>)
    requires forall s :: s in all ==> Written(pool, updates, blocks, s)
    ensures forall s :: s in all ==> Written(pool, updates, SortDedup(blocks), s)
  {
    SortDedupMeans(blocks);
    forall s | s in all ensures Written(pool, updates, SortDedup(blocks), s) {
      var b :| b in blocks && NamedBy(pool, updates, b, s);
      assert b in SortDedup(blocks);
    }
  }

  lemma ReadyAtFirst(slots: seq<Felt>, pool: Felt, from: nat, to: nat, read: Reader, updates: Updates)
    requires Asked(read, slots, from, to) && UpdatesMatchReads(read, pool, updates)
    ensures Ready(read, pool, updates, from, to, slots, slots, Requested(slots), [], 0)
  {
    assert Bisections(0, CeilLog2(to - Pred(from))) == 0;
    assert Accounted(read, pool, updates, slots, Requested(slots), [], 0, CeilLog2(to - Pred(from)));
    assert Covered(pool, updates, slots, slots, Requested(slots), []);
  }

  /** When reads and state updates agree and every slot is zero before the range and set at
      its end, every block found turned a requested slot non-zero, every requested slot is
      written by a block found, and the reads are at most one bisection per block. */
  lemma AttributionRight(slots: seq<Felt>, pool: Felt, from: nat, to: nat, read: Reader, updates: Updates)
    requires Asked(read, slots, from, to) && UpdatesMatchReads(read, pool, updates)
    ensures Right(read, pool, updates, slots, CeilLog2(to - from + 1), Attribute(slots, pool, from, to, read, updates))
  {
    var r := Attribute(slots, pool, from, to, read, updates);
    ReadyAtFirst(slots, pool, from, to, read, updates);
    RunRight(slots, pool, from, to, read, updates, Requested(slots), [], 0, slots);
    CeilLog2Grows(to - Pred(from), to - from + 1);
    RightGrows(read, pool, updates, slots, CeilLog2(to - Pred(from)), CeilLog2(to - from + 1), r);
  }

  lemma RightGrows(read: Reader, pool: Felt, updates: Updates, all: seq<Felt>, a: nat, b: nat, r: Attributed)
    requires a <= b && Right(read, pool, updates, all, a, r)
    ensures Right(read, pool, updates, all, b, r)
  {
    if r.Found? { BisectionsGrow(|r.blocks|, a, b); }
  }

  /** A run stops at a block that names no pending slot. */
  lemma RunStops(left: seq<Felt>, pool: Felt, from: nat, to: nat, read: Reader, updates: Updates,
                 pending: set<Felt>, blocks: seq<nat>, calls: nat, block: nat, n: nat)
    requires left != [] && left[0] in pending && Search(left[0], Pred(from), to, read) == (Some(block), n)
    requires updates(block).Some? && pending !! PoolKeys(pool, updates(block).value)
    ensures Run(left, pool, from, to, read, updates, pending, blocks, calls) == Failed(Inconsistent(left[0], block))
  {
  }

  lemma OneSlot(s: Felt)
    ensures [s][0] == s && [s][1..] == [] && Requested([s]) == {s}
  {
  }

  lemma OneAsked(s: Felt, b: nat, read: Reader)
    requires Turns(read, s, b)
    ensures Asked(read, [s], b, b) && Search(s, Pred(b), b, read) == (Some(b), 0)
  {
  }

  /** A run over one slot at the block that turns it: it claims the slot there or fails. */
  lemma RunOfOne(s: Felt, b: nat, read: Reader, pool: Felt, updates: Updates)
    requires Turns(read, s, b) && updates(b).Some?
    ensures Asked(read, [s], b, b)
    ensures Attribute([s], pool, b, b, read, updates) == if NamedBy(pool, updates, b, s) then Found([b], 0) else Failed(Inconsistent(s, b))
  {
    var named := PoolKeys(pool, updates(b).value);
    OneSlot(s);
    OneAsked(s, b, read);
    if s in named {
      RunOn([s], pool, b, b, read, updates, {s}, [], 0, b, 0, named);
      assert [] + [b] == [b];
      SortOne(b);
    } else {
      RunStops([s], pool, b, b, read, updates, {s}, [], 0, b, 0);
    }
  }

  lemma SortOne(b: nat)
    ensures SortDedup([b]) == [b]
  {
    assert [b][..0] == [] && SortDedup([]) == [];
  }

  ghost predicate AlwaysRight(read: Reader, pool: Felt, updates: Updates) {
    forall slots, from: nat, to: nat :: Asked(read, slots, from, to) ==>
      Right(read, pool, updates, slots, CeilLog2(to - from + 1), Attribute(slots, pool, from, to, read, updates))
  }

  /** That agreement is exactly what it takes for every request to be answered right. */
  lemma RightExactly(read: Reader, pool: Felt, updates: Updates)
    ensures AlwaysRight(read, pool, updates) <==> UpdatesMatchReads(read, pool, updates)
  {
    if UpdatesMatchReads(read, pool, updates) {
      forall slots, from: nat, to: nat | Asked(read, slots, from, to)
        ensures Right(read, pool, updates, slots, CeilLog2(to - from + 1), Attribute(slots, pool, from, to, read, updates))
      {
        AttributionRight(slots, pool, from, to, read, updates);
      }
    }
    if AlwaysRight(read, pool, updates) {
      forall s: Felt, b: nat | Turns(read, s, b) && updates(b).Some? ensures NamedBy(pool, updates, b, s) {
        RunOfOne(s, b, read, pool, updates);
        assert Right(read, pool, updates, [s], CeilLog2(b - b + 1), Attribute([s], pool, b, b, read, updates));
      }
    }
  }

  /** No request that is answered leaves a slot unwritten. */
  ghost predicate NeverDrops(read: Reader, pool: Felt, updates: Updates) {
    forall slots, from: nat, to: nat :: Asked(read, slots, from, to) ==> DropsNone(pool, updates, slots, Attribute(slots, pool, from, to, read, updates))
  }

  ghost predicate DropsNone(pool: Felt, updates: Updates, slots: seq<Felt>, r: Attributed) {
    r.Found? ==> forall s :: s in slots ==> Written(pool, updates, r.blocks, s)
  }

  /** The block a slot's bisection lands on names that slot whenever it names another one asked
      for with it. */
  ghost predicate NamesOwnSlot(read: Reader, pool: Felt, updates: Updates) {
    forall s, t, from: nat, to: nat :: Asked(read, [s, t], from, to) ==> Unmasked(s, t, pool, from, to, read, updates)
  }

  ghost predicate Unmasked(s: Felt, t: Felt, pool: Felt, from: nat, to: nat, read: Reader, updates: Updates) {
    var b := Search(s, Pred(from), to, read).0;
    b.Some? && NamedBy(pool, updates, b.value, t) ==> NamedBy(pool, updates, b.value, s)
  }

  lemma {:induction false} RunDropsNone(left: seq<Felt>, pool: Felt, from: nat, to: nat, read: Reader, updates: Updates,
                                        pending: set<Felt>, blocks: seq<nat>, calls: nat, all: seq<Felt>)
    requires NamesOwnSlot(read, pool, updates) && Asked(read, all, from, to) && Covered(pool, updates, all, left, pending, blocks)
    requires (forall s :: s in left ==> s in all) && (forall s :: s in pending ==> s in all)
    ensures DropsNone(pool, updates, all, Run(left, pool, from, to, read, updates, pending, blocks, calls))
    decreases |left|
  {
    if left == [] {
      SortedCovers(pool, updates, all, blocks);
    } else if left[0] !in pending {
      SkipOne(pool, updates, all, left, pending, blocks);
      RunDropsNone(left[1..], pool, from, to, read, updates, pending, blocks, calls, all);
    } else {
      var (found, n) := Search(left[0], Pred(from), to, read);
      if found.Some? && updates(found.value).Some? {
        var named := PoolKeys(pool, updates(found.value).value);
        if !(pending !! named) {
          var other :| other in pending && other in named;
          assert Asked(read, [left[0], other], from, to);
          assert Unmasked(left[0], other, pool, from, to, read, updates);
          CoverOne(pool, updates, all, left, pending, blocks, found.value);
          RunOn(left, pool, from, to, read, updates, pending, blocks, calls, found.value, n, named);
          RunDropsNone(left[1..], pool, from, to, read, updates, pending - named, blocks + [found.value], calls + n, all);
        }
      }
    }
  }

  /** A masked slot is dropped: its block claims the other slot and not its own. */
  lemma MaskedIsDropped(s: Felt, t: Felt, pool: Felt, from: nat, to: nat, read: Reader, updates: Updates)
    requires !Unmasked(s, t, pool, from, to, read, updates)
    ensures !DropsNone(pool, updates, [s, t], Attribute([s, t], pool, from, to, read, updates))
  {
    var (found, n) := Search(s, Pred(from), to, read);
    var slots, named := [s, t], PoolKeys(pool, updates(found.value).value);
    var pending := Requested(slots);
    assert slots[0] == s && slots[1] == t && slots[1..] == [t] && slots[1..][1..] == [] && s in pending && t in pending;
    RunOn(slots, pool, from, to, read, updates, pending, [], 0, found.value, n, named);
    assert [] + [found.value] == [found.value];
    SortOne(found.value);
    assert !Written(pool, updates, [found.value], s);
  }

  /** A slot is never dropped exactly when no block found names another requested slot without
      naming the bisected one. */
  lemma DropsExactly(read: Reader, pool: Felt, updates: Updates)
    ensures NeverDrops(read, pool, updates) <==> NamesOwnSlot(read, pool, updates)
  {
    if NamesOwnSlot(read, pool, updates) {
      forall slots, from: nat, to: nat | Asked(read, slots, from, to)
        ensures DropsNone(pool, updates, slots, Attribute(slots, pool, from, to, read, updates))
      {
        RunDropsNone(slots, pool, from, to, read, updates, Requested(slots), [], 0, slots);
      }
    }
    if NeverDrops(read, pool, updates) {
      forall s, t, from: nat, to: nat | Asked(read, [s, t], from, to) ensures Unmasked(s, t, pool, from, to, read, updates) {
        if !Unmasked(s, t, pool, from, to, read, updates) { MaskedIsDropped(s, t, pool, from, to, read, updates); }
      }
    }
  }

  // Reads that turn every slot non-zero at block 1, and updates that name slot 2 only.
  function TurnAtOne(slot: Felt, block: nat): Option<Felt> {
    Some(if block == 0 then 0 else 1)
  }

  function NameTwo(block: nat): Option<seq<ContractDiff>> {
    Some([ContractDiff(9, [2])])
  }

  lemma NameTwoKeys()
    ensures PoolKeys(9, NameTwo(1).value) == {2}
  {
    var diffs := NameTwo(1).value;
    assert diffs[0].keys[0] == 2;
  }

  lemma DroppedRun()
    ensures Attribute([1, 2], 9, 1, 1, TurnAtOne, NameTwo) == Found([1], 0)
  {
    var slots: seq<Felt> := [1, 2];
    var pending := Requested(slots);
    assert slots[0] == 1 && slots[1] == 2 && slots[1..] == [2] && slots[1..][1..] == [];
    assert pending == {1, 2} && pending - {2} == {1};
    NameTwoKeys();
    RunOn(slots, 9, 1, 1, TurnAtOne, NameTwo, pending, [], 0, 1, 0, {2});
    assert [] + [1] == [1];
    SortOne(1);
  }

  /** Without that agreement a slot can be dropped: the update at the bisected block names
      another requested slot, so the claim counter is not zero, and the bisected slot is
      never named by any block returned. */
  lemma DroppedSlot()
    ensures Asked(TurnAtOne, [1, 2], 1, 1)
    ensures Attribute([1, 2], 9, 1, 1, TurnAtOne, NameTwo) == Found([1], 0)
    ensures !Written(9, NameTwo, [1], 1)
  {
    DroppedRun();
    NameTwoKeys();
  }
}
