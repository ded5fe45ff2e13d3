/** The storage root from a sorted entry list (`subtree`, `entries_with_prefix`,
    `subtree_hash_at`, `bit_entries` and `storage_root` of `crates/feed/src/mpt.rs`),
    shown to compute the reference hash of the slot map the list stands for. */
module MptRoot {
  import opened Felts
  import opened Mpt

  datatype Entry = Entry(bits: Bits, value: Felt)

  // ------------------------------------------------- bit-lexicographic order

  /** `(from..to).find(|d| a[d] != b[d])`, or `to` when there is no such depth. */
  function FirstDiff(a: Bits, b: Bits, from: nat, to: nat): (d: nat)
    requires from <= to <= |a| && to <= |b|
    ensures from <= d <= to
    ensures forall i :: from <= i < d ==> a[i] == b[i]
    ensures d < to ==> a[d] != b[d]
    decreases |a| - from
  {
    if from == to || a[from] != b[from] then from else FirstDiff(a, b, from + 1, to)
  }

  /** Strict lexicographic order on bit strings of one length. */
  predicate Less(a: Bits, b: Bits) {
    |a| == |b| && var d := FirstDiff(a, b, 0, |a|); d < |a| && b[d]
  }

  lemma LessAt(a: Bits, b: Bits, d: nat)
    requires |a| == |b| && d < |a| && a[..d] == b[..d] && a[d] != b[d]
    ensures Less(a, b) <==> b[d]
  {
    assert forall i :: 0 <= i < d ==> a[i] == a[..d][i] == b[..d][i] == b[i];
    assert FirstDiff(a, b, 0, |a|) == d;
  }

  lemma LessTotal(a: Bits, b: Bits)
    requires |a| == |b|
    ensures a == b || Less(a, b) || Less(b, a)
    ensures !(Less(a, b) && Less(b, a)) && !Less(a, a)
  {
    var d := FirstDiff(a, b, 0, |a|);
    if d < |a| {
      assert a[..d] == b[..d];
      LessAt(a, b, d);
      LessAt(b, a, d);
    }
  }

  lemma LessTrans(a: Bits, b: Bits, c: Bits)
    requires Less(a, b) && Less(b, c)
    ensures Less(a, c)
  {
    var d, e := FirstDiff(a, b, 0, |a|), FirstDiff(b, c, 0, |a|);
    var f := if d < e then d else e;
    assert a[..f] == c[..f];
    LessAt(a, c, f);
  }

  ghost predicate FullKeys(es: seq<Entry>) {
    forall i :: 0 <= i < |es| ==> |es[i].bits| == HEIGHT
  }

  ghost predicate Ordered(es: seq<Entry>) {
    forall i, j :: 0 <= i < j < |es| ==> Less(es[i].bits, es[j].bits)
  }

  ghost predicate Sorted(es: seq<Entry>) {
    FullKeys(es) && Ordered(es)
  }

  /** The entries of `es` are exactly those of `m` whose key starts with `p`. */
  ghost predicate Covers(es: seq<Entry>, m: Slots, p: Bits) {
    && FullKeys(es)
    && (forall i :: 0 <= i < |es| ==> Under(p, es[i].bits) && es[i].bits in m && m[es[i].bits] == es[i].value)
    && (forall k :: k in m && Under(p, k) ==> exists i :: 0 <= i < |es| && es[i].bits == k)
  }

  /** `es` is the sorted list of the entries of `m` under `p`. */
  ghost predicate Lists(es: seq<Entry>, m: Slots, p: Bits) {
    Ordered(es) && Covers(es, m, p)
  }

  // ----------------------------------------------------------------- subtree

  ghost predicate ShareTop(es: seq<Entry>, depth: nat)
    requires FullKeys(es) && depth <= HEIGHT
  {
    forall i, j :: 0 <= i < |es| && 0 <= j < |es| ==> es[i].bits[..depth] == es[j].bits[..depth]
  }

  /** `partition_point(|(bits, _)| !bits[depth])` */
  function LeadingZeros(es: seq<Entry>, depth: nat): (n: nat)
    requires FullKeys(es) && depth < HEIGHT
    ensures n <= |es|
    ensures forall i :: 0 <= i < n ==> !es[i].bits[depth]
    ensures n < |es| ==> es[n].bits[depth]
  {
    if es == [] || es[0].bits[depth] then 0 else 1 + LeadingZeros(es[1..], depth)
  }

  function Split(es: seq<Entry>, depth: nat): (n: nat)
    requires Sorted(es) && depth < HEIGHT && ShareTop(es, depth)
    ensures n <= |es| && SplitsAt(es, depth, n)
  {
    var n := LeadingZeros(es, depth);
    assert SplitsAt(es, depth, n) by {
      forall i | n < i < |es| ensures es[i].bits[depth] { SplitStep(es, depth, n, i); }
    }
    n
  }

  /** The first `n` entries have a zero at `depth`, the rest a one. */
  ghost predicate SplitsAt(es: seq<Entry>, depth: nat, n: nat)
    requires FullKeys(es) && depth < HEIGHT
  {
    forall i :: 0 <= i < |es| ==> (i < n <==> !es[i].bits[depth])
  }

  lemma SplitStep(es: seq<Entry>, depth: nat, i: nat, j: nat)
    requires Sorted(es) && depth < HEIGHT && ShareTop(es, depth)
    requires i < j < |es| && es[i].bits[depth]
    ensures es[j].bits[depth]
  {
    var a, b := es[i].bits, es[j].bits;
    assert a[..depth] == b[..depth] && Less(a, b);
    if !b[depth] { LessAt(a, b, depth); }
  }

  /** `mpt::subtree` */
  function Subtree(h: Hasher, es: seq<Entry>, depth: nat): (r: Option<SubNode>)
    requires Sorted(es) && depth <= HEIGHT && ShareTop(es, depth)
    ensures r.Some? <==> es != []
    ensures r.Some? ==> |r.value.path| <= HEIGHT - depth
    decreases HEIGHT - depth
  {
    if |es| == 0 then None
    else if |es| == 1 then Some(SubNode(es[0].bits[depth..], es[0].value))
    else
      DistinctBelow(es, depth);
      var split := Split(es, depth);
      Halves(es, depth);
      Join(h, Subtree(h, es[..split], depth + 1), Subtree(h, es[split..], depth + 1))
  }

  /** Two entries agreeing on all 251 bits would be one key twice. */
  lemma DistinctBelow(es: seq<Entry>, depth: nat)
    requires Sorted(es) && depth <= HEIGHT && ShareTop(es, depth) && |es| > 1
    ensures depth < HEIGHT
  {
    var a, b := es[0].bits, es[1].bits;
    assert Less(a, b);
    assert forall i :: 0 <= i < depth ==> a[i] == a[..depth][i] == b[..depth][i] == b[i];
  }

  lemma SliceOrdered(es: seq<Entry>, lo: nat, hi: nat)
    requires lo <= hi <= |es| && Ordered(es)
    ensures Ordered(es[lo..hi])
  {
    var run := es[lo..hi];
    forall i, j | 0 <= i < j < |run| ensures Less(run[i].bits, run[j].bits) {
      assert run[i] == es[lo + i] && run[j] == es[lo + j];
    }
  }

  lemma HalfShareTop(es: seq<Entry>, lo: nat, hi: nat, depth: nat, b: bool)
    requires lo <= hi <= |es| && FullKeys(es) && depth < HEIGHT && ShareTop(es, depth)
    requires forall i :: lo <= i < hi ==> es[i].bits[depth] == b
    ensures FullKeys(es[lo..hi]) && ShareTop(es[lo..hi], depth + 1)
  {
    var run := es[lo..hi];
    forall i, j | 0 <= i < |run| && 0 <= j < |run|
      ensures run[i].bits[..depth + 1] == run[j].bits[..depth + 1]
    {
      var x, y := es[lo + i].bits, es[lo + j].bits;
      assert x[..depth + 1] == x[..depth] + [b] && y[..depth + 1] == y[..depth] + [b];
    }
  }

  lemma Halves(es: seq<Entry>, depth: nat)
    requires Sorted(es) && depth < HEIGHT && ShareTop(es, depth)
    ensures var n := Split(es, depth);
            && Sorted(es[..n]) && Sorted(es[n..])
            && ShareTop(es[..n], depth + 1) && ShareTop(es[n..], depth + 1)
  {
    var n := Split(es, depth);
    assert es[..n] == es[0..n] && es[n..] == es[n..|es|];
    SliceOrdered(es, 0, n);
    SliceOrdered(es, n, |es|);
    HalfShareTop(es, 0, n, depth, false);
    HalfShareTop(es, n, |es|, depth, true);
  }

  lemma CoversShareTop(es: seq<Entry>, m: Slots, p: Bits)
    requires |p| <= HEIGHT && Covers(es, m, p)
    ensures ShareTop(es, |p|)
  {
  }

  /** A run holding exactly the covered entries under a longer prefix covers that prefix. */
  lemma CoversRun(es: seq<Entry>, m: Slots, p: Bits, q: Bits, lo: nat, hi: nat)
    requires lo <= hi <= |es| && Covers(es, m, p) && Under(p, q)
    requires forall i :: 0 <= i < |es| ==> (lo <= i < hi <==> Under(q, es[i].bits))
    ensures Covers(es[lo..hi], m, q)
  {
    var run := es[lo..hi];
    forall k | k in m && Under(q, k) ensures exists i :: 0 <= i < |run| && run[i].bits == k {
      UnderTrans(p, q, k);
      var i :| 0 <= i < |es| && es[i].bits == k;
      assert run[i - lo].bits == k;
    }
  }

  lemma CoversHalves(es: seq<Entry>, m: Slots, p: Bits, n: nat)
    requires |p| < HEIGHT && Covers(es, m, p) && n <= |es| && SplitsAt(es, |p|, n)
    ensures Covers(es[..n], m, p + [false]) && Covers(es[n..], m, p + [true])
  {
    forall i | 0 <= i < |es| ensures (i < n <==> Under(p + [false], es[i].bits)) && (n <= i <==> Under(p + [true], es[i].bits)) {
      UnderStep(p, es[i].bits, false);
      UnderStep(p, es[i].bits, true);
    }
    assert es[..n] == es[0..n] && es[n..] == es[n..|es|];
    CoversRun(es, m, p, p + [false], 0, n);
    CoversRun(es, m, p, p + [true], n, |es|);
  }

  lemma LoneSide(m: Slots, p: Bits, k: Bits)
    requires WfSlots(m) && |p| < HEIGHT && k in m && Under(p, k)
    requires forall j :: j in m && Under(p, j) ==> j == k
    ensures !Any(m, p + [!k[|p|]]) && Under(p + [k[|p|]], k)
    ensures forall j :: j in m && Under(p + [k[|p|]], j) ==> j == k
  {
    forall j, b | j in m && Under(p + [b], j) ensures Under(p, j) && j[|p|] == b { UnderStep(p, j, b); }
    UnderStep(p, k, k[|p|]);
  }

  /** A lone key under `p` is one edge over all remaining bits. */
  lemma {:induction false} LoneLeaf(h: Hasher, m: Slots, p: Bits, k: Bits)
    requires WfSlots(m) && |p| <= HEIGHT && k in m && Under(p, k)
    requires forall j :: j in m && Under(p, j) ==> j == k
    ensures Summary(h, m, p) == Some(SubNode(k[|p|..], m[k]))
    decreases HEIGHT - |p|
  {
    if |p| == HEIGHT {
      assert k == p && k[|p|..] == [];
    } else {
      LoneSide(m, p, k);
      LoneLeaf(h, m, p + [k[|p|]], k);
      SummaryPrepend(h, m, p, k[|p|], SubNode(k[|p| + 1..], m[k]));
      assert k[|p|..] == [k[|p|]] + k[|p| + 1..];
    }
  }

  lemma SubtreeUnfolds(h: Hasher, es: seq<Entry>, depth: nat)
    requires Sorted(es) && depth < HEIGHT && ShareTop(es, depth) && |es| > 1
    ensures var n := Split(es, depth);
            && Sorted(es[..n]) && ShareTop(es[..n], depth + 1) && Sorted(es[n..]) && ShareTop(es[n..], depth + 1)
            && Subtree(h, es, depth) == Join(h, Subtree(h, es[..n], depth + 1), Subtree(h, es[n..], depth + 1))
  {
    DistinctBelow(es, depth);
    Halves(es, depth);
    var n := Split(es, depth);
    var left, right := Subtree(h, es[..n], depth + 1), Subtree(h, es[n..], depth + 1);
    assert Subtree(h, es, depth) == Join(h, left, right);
  }

  lemma SubtreeOne(h: Hasher, es: seq<Entry>, m: Slots, p: Bits)
    requires WfSlots(m) && |p| <= HEIGHT && Covers(es, m, p) && |es| == 1
    ensures Summary(h, m, p) == Some(SubNode(es[0].bits[|p|..], es[0].value))
  {
    LoneLeaf(h, m, p, es[0].bits);
  }

  lemma CoversAny(es: seq<Entry>, m: Slots, p: Bits)
    requires Covers(es, m, p)
    ensures Any(m, p) <==> es != []
  {
    if es != [] { assert es[0].bits in m && Under(p, es[0].bits); }
  }

  /** The list algorithm, shortcut included, computes the reference subtree. */
  lemma {:induction false} SubtreeIsSummary(h: Hasher, es: seq<Entry>, m: Slots, p: Bits)
    requires WfSlots(m) && |p| <= HEIGHT && Lists(es, m, p)
    ensures ShareTop(es, |p|) && Subtree(h, es, |p|) == Summary(h, m, p)
    decreases HEIGHT - |p|
  {
    CoversShareTop(es, m, p);
    CoversAny(es, m, p);
    if |es| == 1 {
      SubtreeOne(h, es, m, p);
    } else if |es| > 1 {
      DistinctBelow(es, |p|);
      var n := Split(es, |p|);
      CoversHalves(es, m, p, n);
      SubtreeUnfolds(h, es, |p|);
      SummaryUnfolds(h, m, p);
      SubtreeIsSummary(h, es[..n], m, p + [false]);
      SubtreeIsSummary(h, es[n..], m, p + [true]);
    }
  }

  // ------------------------------------------------------ entries_with_prefix

  /** `bits[..d] < *prefix` and `bits[..d] <= *prefix` */
  predicate TopLess(e: Entry, prefix: Bits) {
    |prefix| <= |e.bits| && Less(e.bits[..|prefix|], prefix)
  }

  predicate TopAtMost(e: Entry, prefix: Bits) {
    TopLess(e, prefix) || Under(prefix, e.bits)
  }

  function LowerBound(es: seq<Entry>, prefix: Bits): (n: nat)
    ensures n <= |es|
  {
    if es == [] || !TopLess(es[0], prefix) then 0 else 1 + LowerBound(es[1..], prefix)
  }

  function UpperBound(es: seq<Entry>, prefix: Bits): (n: nat)
    ensures n <= |es|
  {
    if es == [] || !TopAtMost(es[0], prefix) then 0 else 1 + UpperBound(es[1..], prefix)
  }

  lemma {:induction false} BoundsInOrder(es: seq<Entry>, prefix: Bits)
    ensures LowerBound(es, prefix) <= UpperBound(es, prefix)
  {
    if es != [] { BoundsInOrder(es[1..], prefix); }
  }

  /** `mpt::entries_with_prefix`: the run between the two partition points. */
  function EntriesWithPrefix(es: seq<Entry>, prefix: Bits): seq<Entry> {
    BoundsInOrder(es, prefix);
    es[LowerBound(es, prefix)..UpperBound(es, prefix)]
  }

  lemma TopMonotone(a: Entry, b: Entry, prefix: Bits)
    requires |a.bits| == |b.bits| && |prefix| <= |a.bits| && Less(a.bits, b.bits)
    ensures TopLess(b, prefix) ==> TopLess(a, prefix)
    ensures TopAtMost(b, prefix) ==> TopAtMost(a, prefix)
  {
    var d := |prefix|;
    var x, y := a.bits[..d], b.bits[..d];
    var e := FirstDiff(a.bits, b.bits, 0, |a.bits|);
    if e < d {
      assert x[..e] == y[..e];
      LessAt(x, y, e);
      if Less(y, prefix) { LessTrans(x, y, prefix); }
    } else {
      assert x == y;
    }
  }

  lemma {:induction false} LowerBoundCuts(es: seq<Entry>, prefix: Bits, i: nat)
    requires Sorted(es) && |prefix| <= HEIGHT && i < |es|
    ensures i < LowerBound(es, prefix) <==> TopLess(es[i], prefix)
  {
    if i > 0 {
      if TopLess(es[0], prefix) {
        LowerBoundCuts(es[1..], prefix, i - 1);
      } else {
        TopMonotone(es[0], es[i], prefix);
      }
    }
  }

  lemma {:induction false} UpperBoundCuts(es: seq<Entry>, prefix: Bits, i: nat)
    requires Sorted(es) && |prefix| <= HEIGHT && i < |es|
    ensures i < UpperBound(es, prefix) <==> TopAtMost(es[i], prefix)
  {
    if i > 0 {
      if TopAtMost(es[0], prefix) {
        UpperBoundCuts(es[1..], prefix, i - 1);
      } else {
        TopMonotone(es[0], es[i], prefix);
      }
    }
  }

  /** The slice is the contiguous run of exactly the entries under the prefix. */
  lemma PrefixRun(es: seq<Entry>, m: Slots, prefix: Bits)
    requires |prefix| <= HEIGHT && Lists(es, m, [])
    ensures Lists(EntriesWithPrefix(es, prefix), m, prefix)
  {
    LessTotal(prefix, prefix);
    BoundsInOrder(es, prefix);
    var lo, hi := LowerBound(es, prefix), UpperBound(es, prefix);
    forall i | 0 <= i < |es| ensures lo <= i < hi <==> Under(prefix, es[i].bits) {
      LowerBoundCuts(es, prefix, i);
      UpperBoundCuts(es, prefix, i);
    }
    SliceOrdered(es, lo, hi);
    CoversRun(es, m, [], prefix, lo, hi);
  }

  /** `mpt::subtree_hash_at` */
  function SubtreeHashAt(h: Hasher, es: seq<Entry>, prefix: Bits): Felt
    requires |prefix| <= HEIGHT
    requires Sorted(EntriesWithPrefix(es, prefix)) && ShareTop(EntriesWithPrefix(es, prefix), |prefix|)
  {
    match Subtree(h, EntriesWithPrefix(es, prefix), |prefix|)
    case None => 0
    case Some(n) => Resolve(h, n)
  }

  lemma SubtreeHashIsHashAt(h: Hasher, es: seq<Entry>, m: Slots, prefix: Bits)
    requires WfSlots(m) && |prefix| <= HEIGHT && Lists(es, m, [])
    ensures Lists(EntriesWithPrefix(es, prefix), m, prefix)
    ensures ShareTop(EntriesWithPrefix(es, prefix), |prefix|)
    ensures SubtreeHashAt(h, es, prefix) == HashAt(h, m, prefix)
  {
    PrefixRun(es, m, prefix);
    SubtreeIsSummary(h, EntriesWithPrefix(es, prefix), m, prefix);
  }

  // -------------------------------------------------------- edges by the ends

  /** `first` and `last` of a sorted run decide the edge: they agree exactly on it. */
  lemma EdgeByEnds(h: Hasher, es: seq<Entry>, m: Slots, p: Bits)
    requires WfSlots(m) && |p| < HEIGHT && es != [] && Lists(es, m, p)
    ensures Any(m, p)
    ensures var first := es[0].bits; var end := FirstDiff(first, es[|es| - 1].bits, |p|, HEIGHT);
            Summary(h, m, p).value.path == first[|p|..end] && first[..end] == p + first[|p|..end]
  {
    var first, last := es[0].bits, es[|es| - 1].bits;
    var end := FirstDiff(first, last, |p|, HEIGHT);
    CoversAny(es, m, p);
    assert first[..end] == p + first[|p|..end];
    var path := Summary(h, m, p).value.path;
    var q := p + path;
    EdgeTarget(h, m, p);
    assert Under(q, first) && Under(q, last);
    assert forall i :: |p| <= i < |q| ==> first[i] == first[..|q|][i] == last[..|q|][i] == last[i];
    assert end >= |q|;
    if |q| < HEIGHT { EndsFork(es, m, p, q); }
    assert end == |q|;
    assert first[|p|..end] == first[..|q|][|p|..] == path;
  }

  lemma OrderedBit(a: Bits, b: Bits, q: Bits)
    requires Less(a, b) && |q| < |a| && Under(q, a) && Under(q, b) && a[|q|]
    ensures b[|q|]
  {
    if !b[|q|] { LessAt(a, b, |q|); }
  }

  /** In a sorted run, the bit after a common prefix can only rise from first to last. */
  lemma EndsBracket(es: seq<Entry>, i: nat, q: Bits)
    requires Sorted(es) && i < |es| && |q| < HEIGHT
    requires Under(q, es[0].bits) && Under(q, es[i].bits) && Under(q, es[|es| - 1].bits)
    ensures es[0].bits[|q|] ==> es[i].bits[|q|]
    ensures es[i].bits[|q|] ==> es[|es| - 1].bits[|q|]
  {
    if i > 0 && es[0].bits[|q|] { OrderedBit(es[0].bits, es[i].bits, q); }
    if i < |es| - 1 && es[i].bits[|q|] { OrderedBit(es[i].bits, es[|es| - 1].bits, q); }
  }

  lemma FindUnder(es: seq<Entry>, m: Slots, p: Bits, q: Bits, b: bool) returns (i: nat)
    requires WfSlots(m) && Covers(es, m, p) && Under(p, q) && |q| < HEIGHT && Any(m, q + [b])
    ensures i < |es| && Under(q, es[i].bits) && es[i].bits[|q|] == b
  {
    var k :| k in m && Under(q + [b], k);
    UnderStep(q, k, b);
    UnderTrans(p, q, k);
    i :| 0 <= i < |es| && es[i].bits == k;
  }

  lemma EndsFork(es: seq<Entry>, m: Slots, p: Bits, q: Bits)
    requires WfSlots(m) && Lists(es, m, p) && Under(p, q) && |q| < HEIGHT && es != [] && Forks(m, q)
    requires Under(q, es[0].bits) && Under(q, es[|es| - 1].bits)
    ensures !es[0].bits[|q|] && es[|es| - 1].bits[|q|]
  {
    var i := FindUnder(es, m, p, q, false);
    var j := FindUnder(es, m, p, q, true);
    EndsBracket(es, i, q);
    EndsBracket(es, j, q);
  }

  // ---------------------------------------------- bit_entries, storage_root

  /** The slot map a `(key, value)` list stands for: zero values are dropped and the
      first of two entries for one key path wins. */
  function SlotMap(list: seq<(Felt, Felt)>): (m: Slots)
    ensures WfSlots(m)
  {
    if list == [] then map[]
    else
      var rest := SlotMap(list[1..]);
      if list[0].1 == 0 then rest else rest[KeyBits(list[0].0) := list[0].1]
  }

  /** Insert into a sorted list, replacing an entry for the same key. */
  function Insert(es: seq<Entry>, e: Entry): seq<Entry> {
    if es == [] || Less(e.bits, es[0].bits) then [e] + es
    else if es[0].bits == e.bits then [e] + es[1..]
    else [es[0]] + Insert(es[1..], e)
  }

  lemma {:induction false} InsertLists(es: seq<Entry>, m: Slots, e: Entry)
    requires Lists(es, m, []) && |e.bits| == HEIGHT
    ensures Lists(Insert(es, e), m[e.bits := e.value], [])
  {
    InsertSorted(es, e);
    var out, m' := Insert(es, e), m[e.bits := e.value];
    forall i | 0 <= i < |out| ensures out[i].bits in m' && m'[out[i].bits] == out[i].value {
      InsertMembers(es, e, out[i]);
    }
    forall k | k in m' ensures exists i :: 0 <= i < |out| && out[i].bits == k {
      if k == e.bits {
        InsertMembers(es, e, e);
        var i :| 0 <= i < |out| && out[i] == e;
      } else {
        assert Under([], k);
        var j :| 0 <= j < |es| && es[j].bits == k;
        InsertMembers(es, e, es[j]);
        var i :| 0 <= i < |out| && out[i] == es[j];
      }
    }
  }

  lemma {:induction false} InsertMembers(es: seq<Entry>, e: Entry, x: Entry)
    requires Sorted(es) && |e.bits| == HEIGHT
    ensures x in Insert(es, e) <==> x == e || (x in es && x.bits != e.bits)
  {
    if es == [] {
    } else if Less(e.bits, es[0].bits) {
      forall i | 0 <= i < |es| ensures es[i].bits != e.bits {
        LessTotal(e.bits, es[0].bits);
        if i > 0 && es[i].bits == e.bits { LessTotal(es[0].bits, es[i].bits); }
      }
    } else {
      assert es == [es[0]] + es[1..];
      if es[0].bits == e.bits {
        forall i | 0 < i < |es| ensures es[i].bits != e.bits { LessTotal(es[0].bits, es[i].bits); }
      } else {
        InsertMembers(es[1..], e, x);
      }
    }
  }

  lemma {:induction false} InsertSorted(es: seq<Entry>, e: Entry)
    requires Sorted(es) && |e.bits| == HEIGHT
    ensures Sorted(Insert(es, e))
  {
    if es == [] {
    } else if Less(e.bits, es[0].bits) {
      forall i | 0 < i < |es| ensures Less(e.bits, es[i].bits) { LessTrans(e.bits, es[0].bits, es[i].bits); }
    } else if es[0].bits == e.bits {
    } else {
      InsertSorted(es[1..], e);
      LessTotal(e.bits, es[0].bits);
      var rest := Insert(es[1..], e);
      forall i | 0 <= i < |rest| ensures Less(es[0].bits, rest[i].bits) {
        InsertMembers(es[1..], e, rest[i]);
        if rest[i] != e {
          var j :| 0 <= j < |es[1..]| && es[1..][j] == rest[i];
          assert es[j + 1] == rest[i];
        }
      }
    }
  }

  /** `mpt::bit_entries`: drop zeros, stable sort by key path, keep the first of equals. */
  function BitEntries(list: seq<(Felt, Felt)>): seq<Entry> {
    if list == [] then []
    else
      var rest := BitEntries(list[1..]);
      if list[0].1 == 0 then rest else Insert(rest, Entry(KeyBits(list[0].0), list[0].1))
  }

  lemma {:induction false} BitEntriesList(list: seq<(Felt, Felt)>)
    ensures Lists(BitEntries(list), SlotMap(list), [])
  {
    if list != [] {
      BitEntriesList(list[1..]);
      if list[0].1 != 0 {
        InsertLists(BitEntries(list[1..]), SlotMap(list[1..]), Entry(KeyBits(list[0].0), list[0].1));
      }
    }
  }

  /** `mpt::storage_root` */
  function StorageRoot(h: Hasher, list: seq<(Felt, Felt)>): (r: Felt)
    ensures r == HashAt(h, SlotMap(list), [])
  {
    BitEntriesList(list);
    SubtreeHashIsHashAt(h, BitEntries(list), SlotMap(list), []);
    SubtreeHashAt(h, BitEntries(list), [])
  }
}
