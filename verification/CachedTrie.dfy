/** The incremental Patricia tree of `crates/feed/src/trie.rs`.

    Nodes are immutable values that `Build` and `UpdateNode` return; the class `CachedTrie`
    changes its `root` and `values` in place. The tree is shown to be a function of the
    slot set it holds, whatever updates led there, and its root to be the storage root. */
module CachedTries {
  import opened Felts
  import opened Mpt
  import opened MptRoot

  datatype Node =
    | Leaf(key: Bits, value: Felt)
    | Branch(key: Bits, depth: nat, hash: Felt, left: Node, right: Node)

  /** The depth at which a node's own hash sits. */
  function Level(n: Node): nat {
    match n
    case Leaf(_, _) => HEIGHT
    case Branch(_, depth, _, _, _) => depth
  }

  function OwnHash(n: Node): Felt {
    match n
    case Leaf(_, value) => value
    case Branch(_, _, hash, _, _) => hash
  }

  /** `Node::hash_at`: the hash of the node seen from depth `start`. */
  function HashFrom(h: Hasher, n: Node, start: nat): Felt {
    if start < Level(n) <= HEIGHT && |n.key| == HEIGHT
    then EdgeHash(h, OwnHash(n), PathFelt(n.key[start..Level(n)]), Level(n) - start)
    else OwnHash(n)
  }

  /** `Node::branch` */
  function MakeBranch(h: Hasher, depth: nat, left: Node, right: Node): Node {
    Branch(left.key, depth, BinaryHash(h, HashFrom(h, left, depth + 1), HashFrom(h, right, depth + 1)), left, right)
  }

  /** The slot set a tree holds. */
  function Contents(n: Node): Slots {
    match n
    case Leaf(key, value) => map[key := value]
    case Branch(_, _, _, left, right) => Contents(left) + Contents(right)
  }

  /** Two subtrees meet at `depth`: they agree above it, zero goes left and one right. */
  ghost predicate Meets(depth: nat, left: Node, right: Node) {
    && |left.key| == |right.key| == HEIGHT
    && depth < Level(left) <= HEIGHT && depth < Level(right) <= HEIGHT
    && left.key[..depth] == right.key[..depth] && !left.key[depth] && right.key[depth]
  }

  ghost predicate Shape(n: Node) {
    match n
    case Leaf(key, value) => |key| == HEIGHT && value != 0
    case Branch(key, depth, _, left, right) => Shape(left) && Shape(right) && Meets(depth, left, right) && key == left.key
  }

  /** Every cached hash is the hash of the two children. */
  ghost predicate Hashed(h: Hasher, n: Node) {
    match n
    case Leaf(_, _) => true
    case Branch(_, depth, _, left, right) => Hashed(h, left) && Hashed(h, right) && n == MakeBranch(h, depth, left, right)
  }

  ghost predicate Wf(h: Hasher, n: Node) {
    Shape(n) && Hashed(h, n)
  }

  // --------------------------------------------------------------- the keys held

  lemma {:induction false} ShapeKey(n: Node)
    requires Shape(n)
    ensures |n.key| == HEIGHT && Level(n) <= HEIGHT && n.key in Contents(n)
  {
    if n.Branch? { ShapeKey(n.left); }
  }

  lemma {:induction false} ShapeSlots(n: Node)
    requires Shape(n)
    ensures WfSlots(Contents(n))
  {
    if n.Branch? {
      ShapeSlots(n.left);
      ShapeSlots(n.right);
    }
  }

  /** All keys of a tree agree with its representative key above its level. */
  lemma {:induction false} Shares(n: Node, k: Bits)
    requires Shape(n) && k in Contents(n)
    ensures |k| == HEIGHT == |n.key| && Level(n) <= HEIGHT && k[..Level(n)] == n.key[..Level(n)]
  {
    if n.Branch? {
      var child := if k in Contents(n.left) then n.left else n.right;
      Shares(child, k);
      assert k[..n.depth] == k[..Level(child)][..n.depth] == child.key[..Level(child)][..n.depth] == child.key[..n.depth];
    }
  }

  lemma ChildBit(child: Node, depth: nat, k: Bits)
    requires Shape(child) && k in Contents(child) && depth < Level(child)
    ensures |k| == HEIGHT == |child.key| && depth < HEIGHT && k[depth] == child.key[depth]
  {
    Shares(child, k);
    assert k[depth] == k[..Level(child)][depth] == child.key[..Level(child)][depth];
  }

  /** The bit at a branch's depth tells the side a key is on. */
  lemma SideOf(n: Node, k: Bits)
    requires Shape(n) && n.Branch?
    ensures k in Contents(n.left) ==> |k| == HEIGHT && !k[n.depth] && k !in Contents(n.right)
    ensures k in Contents(n.right) ==> |k| == HEIGHT && k[n.depth] && k !in Contents(n.left)
  {
    if k in Contents(n.left) { ChildBit(n.left, n.depth, k); }
    if k in Contents(n.right) { ChildBit(n.right, n.depth, k); }
  }

  /** What a branch holds, side by side. */
  lemma BranchHolds(n: Node, k: Bits)
    requires Shape(n) && n.Branch?
    ensures k in Contents(n) <==> k in Contents(n.left) || k in Contents(n.right)
    ensures k in Contents(n.left) ==> Contents(n)[k] == Contents(n.left)[k]
    ensures k in Contents(n.right) ==> Contents(n)[k] == Contents(n.right)[k]
  {
    SideOf(n, k);
  }

  /** Joining two subtrees that meet makes a well-formed tree of their union. */
  lemma JoinWf(h: Hasher, depth: nat, l: Node, r: Node, n: Node)
    requires Wf(h, l) && Wf(h, r) && Meets(depth, l, r) && n == MakeBranch(h, depth, l, r)
    ensures Wf(h, n) && n.Branch? && n.left == l && n.right == r && n.key == l.key && Level(n) == depth
    ensures Contents(n) == Contents(l) + Contents(r)
  {
  }

  // ----------------------------------------------------- the hash of a subtree

  lemma LeafHash(h: Hasher, n: Node)
    requires Shape(n) && n.Leaf?
    ensures WfSlots(Contents(n)) && Summary(h, Contents(n), n.key) == Some(SubNode([], n.value)) && Any(Contents(n), n.key)
  {
    assert Under(n.key, n.key);
  }

  lemma SideUnder(n: Node, k: Bits)
    requires Shape(n) && n.Branch? && k in Contents(n)
    ensures var p := n.key[..n.depth];
            && (k in Contents(n.left) <==> Under(p + [false], k))
            && (k in Contents(n.right) <==> Under(p + [true], k))
  {
    Shares(n, k);
    SideOf(n, k);
    UnderStep(n.key[..n.depth], k, false);
    UnderStep(n.key[..n.depth], k, true);
  }

  lemma SideFrame(n: Node, b: bool)
    requires Shape(n) && n.Branch?
    ensures var child := if b then n.right else n.left;
            SameUnder(Contents(n), Contents(child), n.key[..n.depth] + [b])
  {
    var p, child := n.key[..n.depth], if b then n.right else n.left;
    forall k | Under(p + [b], k)
      ensures (k in Contents(n) <==> k in Contents(child)) && (k in Contents(n) ==> Contents(n)[k] == Contents(child)[k])
    {
      BranchHolds(n, k);
      if k in Contents(n) { SideUnder(n, k); }
    }
  }

  lemma SideKey(n: Node, b: bool)
    requires Shape(n) && n.Branch?
    ensures var child := if b then n.right else n.left;
            && child.key[..n.depth + 1] == n.key[..n.depth] + [b]
            && Any(Contents(n), n.key[..n.depth] + [b])
  {
    var child := if b then n.right else n.left;
    ShapeKey(child);
    assert child.key[..n.depth + 1] == child.key[..n.depth] + [b];
    BranchHolds(n, child.key);
    assert child.key in Contents(n) && Under(n.key[..n.depth] + [b], child.key);
  }

  lemma SideHash(h: Hasher, n: Node, b: bool)
    requires Shape(n) && n.Branch?
    requires var child := if b then n.right else n.left;
             && WfSlots(Contents(child)) && WfSlots(Contents(n))
             && HashFrom(h, child, n.depth + 1) == HashAt(h, Contents(child), child.key[..n.depth + 1])
    ensures var child := if b then n.right else n.left;
            HashAt(h, Contents(n), n.key[..n.depth] + [b]) == HashFrom(h, child, n.depth + 1)
  {
    var child := if b then n.right else n.left;
    SideKey(n, b);
    SideFrame(n, b);
    SummaryFrame(h, Contents(n), Contents(child), n.key[..n.depth] + [b]);
  }

  lemma JoinHashes(h: Hasher, m: Slots, p: Bits, left: Felt, right: Felt)
    requires WfSlots(m) && |p| < HEIGHT && Any(m, p + [false]) && Any(m, p + [true])
    requires HashAt(h, m, p + [false]) == left && HashAt(h, m, p + [true]) == right
    ensures Summary(h, m, p) == Some(SubNode([], BinaryHash(h, left, right)))
  {
    AnySplits(m, p);
    SummaryUnfolds(h, m, p);
  }

  lemma ResolveSeen(h: Hasher, n: Node, start: nat)
    requires start <= Level(n) <= HEIGHT == |n.key|
    ensures HashFrom(h, n, start) == Resolve(h, SubNode(n.key[start..Level(n)], OwnHash(n)))
  {
  }

  lemma SeenFrom(h: Hasher, n: Node, start: nat)
    requires Shape(n) && start <= Level(n) <= HEIGHT == |n.key| && WfSlots(Contents(n))
    requires Summary(h, Contents(n), n.key[..Level(n)]) == Some(SubNode([], OwnHash(n)))
    ensures HashFrom(h, n, start) == HashAt(h, Contents(n), n.key[..start])
  {
    var p, path := n.key[..start], n.key[start..Level(n)];
    assert n.key[..Level(n)] == p + path && path + [] == path;
    forall k | k in Contents(n) ensures Under(p + path, k) { Shares(n, k); }
    LongEdge(h, Contents(n), p, path, SubNode([], OwnHash(n)));
    ResolveSeen(h, n, start);
  }

  lemma BranchSummary(h: Hasher, n: Node)
    requires Wf(h, n) && n.Branch? && WfSlots(Contents(n))
    requires WfSlots(Contents(n.left)) && WfSlots(Contents(n.right))
    requires Summary(h, Contents(n.left), n.left.key[..Level(n.left)]) == Some(SubNode([], OwnHash(n.left)))
    requires Summary(h, Contents(n.right), n.right.key[..Level(n.right)]) == Some(SubNode([], OwnHash(n.right)))
    ensures Summary(h, Contents(n), n.key[..n.depth]) == Some(SubNode([], n.hash))
  {
    SeenFrom(h, n.left, n.depth + 1);
    SeenFrom(h, n.right, n.depth + 1);
    SideHash(h, n, false);
    SideHash(h, n, true);
    SideKey(n, false);
    SideKey(n, true);
    JoinHashes(h, Contents(n), n.key[..n.depth], HashFrom(h, n.left, n.depth + 1), HashFrom(h, n.right, n.depth + 1));
  }

  lemma {:induction false} OwnSummary(h: Hasher, n: Node)
    requires Wf(h, n)
    ensures |n.key| == HEIGHT && Level(n) <= HEIGHT && WfSlots(Contents(n))
    ensures Summary(h, Contents(n), n.key[..Level(n)]) == Some(SubNode([], OwnHash(n)))
  {
    ShapeKey(n);
    ShapeSlots(n);
    if n.Branch? {
      OwnSummary(h, n.left);
      OwnSummary(h, n.right);
      BranchSummary(h, n);
    } else {
      assert n.key[..HEIGHT] == n.key;
      LeafHash(h, n);
    }
  }

  /** A tree's cached hash, seen from any depth above it, is the reference hash of its
      slot set at that depth. */
  lemma TreeHash(h: Hasher, n: Node, start: nat)
    requires Wf(h, n) && start <= Level(n)
    ensures |n.key| == HEIGHT && Level(n) <= HEIGHT && WfSlots(Contents(n))
    ensures HashFrom(h, n, start) == HashAt(h, Contents(n), n.key[..start])
  {
    OwnSummary(h, n);
    SeenFrom(h, n, start);
  }

  // -------------------------------------------------------------- one shape only

  lemma BranchIsBranch(a: Node, b: Node)
    requires Shape(a) && Shape(b) && Contents(a) == Contents(b) && a.Branch?
    ensures Level(b) <= a.depth && b.Branch?
  {
    ShapeKey(a.left);
    ShapeKey(a.right);
    var x, y := a.left.key, a.right.key;
    BranchHolds(a, x);
    BranchHolds(a, y);
    Shares(b, x);
    Shares(b, y);
    assert forall i :: 0 <= i < Level(b) ==> x[i] == x[..Level(b)][i] == y[..Level(b)][i] == y[i];
  }

  lemma SameSides(a: Node, b: Node)
    requires Shape(a) && Shape(b) && Contents(a) == Contents(b) && a.Branch? && b.Branch? && a.depth == b.depth
    ensures Contents(a.left) == Contents(b.left) && Contents(a.right) == Contents(b.right)
  {
    var l1, l2, r1, r2 := Contents(a.left), Contents(b.left), Contents(a.right), Contents(b.right);
    forall k ensures (k in l1 <==> k in l2) && (k in l1 ==> l1[k] == l2[k]) { SameSideAt(a, b, k); }
    forall k ensures (k in r1 <==> k in r2) && (k in r1 ==> r1[k] == r2[k]) { SameSideAt(a, b, k); }
    SameMaps(l1, l2);
    SameMaps(r1, r2);
  }

  lemma SameMaps(a: Slots, b: Slots)
    requires forall k :: (k in a <==> k in b) && (k in a ==> a[k] == b[k])
    ensures a == b
  {
  }

  lemma SameSideAt(a: Node, b: Node, k: Bits)
    requires Shape(a) && Shape(b) && Contents(a) == Contents(b) && a.Branch? && b.Branch? && a.depth == b.depth
    ensures (k in Contents(a.left) <==> k in Contents(b.left)) && (k in Contents(a.right) <==> k in Contents(b.right))
    ensures k in Contents(a.left) ==> Contents(a.left)[k] == Contents(b.left)[k]
    ensures k in Contents(a.right) ==> Contents(a.right)[k] == Contents(b.right)[k]
  {
    BranchHolds(a, k);
    BranchHolds(b, k);
    SideOf(a, k);
    SideOf(b, k);
  }

  /** A well-formed tree is determined by its slot set: history leaves no trace. */
  lemma {:induction false} OneShape(h: Hasher, a: Node, b: Node)
    requires Wf(h, a) && Wf(h, b) && Contents(a) == Contents(b)
    ensures a == b
  {
    if a.Branch? || b.Branch? {
      if a.Branch? { BranchIsBranch(a, b); }
      if b.Branch? { BranchIsBranch(b, a); }
      SameSides(a, b);
      OneShape(h, a.left, b.left);
      OneShape(h, a.right, b.right);
    } else {
      assert a.key in Contents(b);
    }
  }

  // ------------------------------------------------------------------- build

  /** What lies between two keys shares what they share. */
  lemma Between(a: Bits, x: Bits, b: Bits, d: nat)
    requires Less(a, x) && Less(x, b) && d <= |a| && a[..d] == b[..d]
    ensures x[..d] == a[..d]
  {
    var i, e := FirstDiff(a, x, 0, |a|), FirstDiff(x, b, 0, |a|);
    assert forall j :: 0 <= j < d ==> a[j] == a[..d][j] == b[..d][j] == b[j];
    assert i >= d;
  }

  /** What `build` is called with: sorted entries that agree above `start`. */
  ghost predicate Buildable(es: seq<Entry>, start: nat) {
    es != [] && start <= HEIGHT && Sorted(es) && ShareTop(es, start)
  }

  /** The first depth at which the first and the last entry differ. */
  function ForkDepth(es: seq<Entry>, start: nat): nat
    requires Buildable(es, start)
  {
    FirstDiff(es[0].bits, es[|es| - 1].bits, start, HEIGHT)
  }

  function ForkPoint(es: seq<Entry>, start: nat): nat
    requires Buildable(es, start) && ForkDepth(es, start) < HEIGHT
  {
    LeadingZeros(es, ForkDepth(es, start))
  }

  lemma ForksBelow(es: seq<Entry>, start: nat)
    requires Buildable(es, start) && |es| > 1
    ensures ForkDepth(es, start) < HEIGHT && ShareTop(es, ForkDepth(es, start))
    ensures !es[0].bits[ForkDepth(es, start)] && es[|es| - 1].bits[ForkDepth(es, start)]
  {
    var n := |es| - 1;
    var first, last := es[0].bits, es[n].bits;
    var depth := ForkDepth(es, start);
    assert Less(first, last) && first[..start] == last[..start];
    assert forall i :: 0 <= i < start ==> first[i] == first[..start][i] == last[..start][i] == last[i];
    assert first[..depth] == last[..depth];
    var d := FirstDiff(first, last, 0, HEIGHT);
    assert d < HEIGHT && depth <= d;
    forall i | 0 <= i < |es| ensures es[i].bits[..depth] == first[..depth] {
      if 0 < i < n { Between(first, es[i].bits, last, depth); }
    }
    LessAt(first, last, depth);
  }

  /** The first and last entries of a sorted run decide where it forks, and both halves
      can be built one level further down. */
  lemma BuildHalves(es: seq<Entry>, start: nat)
    requires Buildable(es, start) && |es| > 1
    ensures ForkDepth(es, start) < HEIGHT
    ensures var d := ForkDepth(es, start); var n := ForkPoint(es, start);
            && 0 < n < |es| && start <= d && ShareTop(es, d) && SplitsAt(es, d, n)
            && Buildable(es[..n], d + 1) && Buildable(es[n..], d + 1)
  {
    ForksBelow(es, start);
    var d := ForkDepth(es, start);
    assert Split(es, d) == ForkPoint(es, start);
    Halves(es, d);
  }

  /** `Node::build` over the sorted entries of a non-empty set. */
  function Build(h: Hasher, es: seq<Entry>, start: nat): (n: Node)
    requires Buildable(es, start)
    decreases |es|
  {
    if |es| == 1 then Leaf(es[0].bits, es[0].value)
    else
      BuildHalves(es, start);
      var d, n := ForkDepth(es, start), ForkPoint(es, start);
      MakeBranch(h, d, Build(h, es[..n], d + 1), Build(h, es[n..], d + 1))
  }

  ghost predicate HoldsEntries(n: Node, es: seq<Entry>) {
    && (forall i :: 0 <= i < |es| ==> es[i].bits in Contents(n) && Contents(n)[es[i].bits] == es[i].value)
    && (forall k :: k in Contents(n) ==> exists i :: 0 <= i < |es| && es[i].bits == k)
  }

  lemma JoinHolds(n: Node, es: seq<Entry>, l: seq<Entry>, r: seq<Entry>)
    requires Shape(n) && n.Branch? && es == l + r
    requires HoldsEntries(n.left, l) && HoldsEntries(n.right, r)
    ensures HoldsEntries(n, es)
  {
    forall i | 0 <= i < |es| ensures es[i].bits in Contents(n) && Contents(n)[es[i].bits] == es[i].value {
      BranchHolds(n, es[i].bits);
    }
    forall k | k in Contents(n) ensures exists i :: 0 <= i < |es| && es[i].bits == k {
      if k in Contents(n.left) {
        var i :| 0 <= i < |l| && l[i].bits == k;
        assert es[i].bits == k;
      } else {
        var i :| 0 <= i < |r| && r[i].bits == k;
        assert es[|l| + i].bits == k;
      }
    }
  }

  /** The built tree is well formed and holds exactly the listed entries. */
  ghost predicate Built(h: Hasher, n: Node, es: seq<Entry>, start: nat)
    requires es != []
  {
    Wf(h, n) && start <= Level(n) && n.key == es[0].bits && HoldsEntries(n, es)
  }

  lemma HalvesMeet(h: Hasher, es: seq<Entry>, depth: nat, split: nat, l: Node, r: Node)
    requires FullKeys(es) && 0 < split < |es| && depth < HEIGHT && ShareTop(es, depth) && SplitsAt(es, depth, split)
    requires Built(h, l, es[..split], depth + 1) && Built(h, r, es[split..], depth + 1)
    ensures Meets(depth, l, r) && l.key == es[0].bits
  {
    ShapeKey(l);
    ShapeKey(r);
    assert l.key == es[0].bits && r.key == es[split].bits;
  }

  lemma JoinBuilt(h: Hasher, es: seq<Entry>, start: nat, depth: nat, split: nat, l: Node, r: Node)
    requires FullKeys(es) && 0 < split < |es| && start <= depth < HEIGHT && ShareTop(es, depth) && SplitsAt(es, depth, split)
    requires Built(h, l, es[..split], depth + 1) && Built(h, r, es[split..], depth + 1)
    ensures Built(h, MakeBranch(h, depth, l, r), es, start)
  {
    var n := MakeBranch(h, depth, l, r);
    HalvesMeet(h, es, depth, split, l, r);
    JoinWf(h, depth, l, r, n);
    Halved(es, split);
    JoinHolds(n, es, es[..split], es[split..]);
  }

  lemma Halved(es: seq<Entry>, n: nat)
    requires 0 < n <= |es|
    ensures es == es[..n] + es[n..] && es[..n][0] == es[0]
  {
  }

  ghost predicate NoZeros(es: seq<Entry>) {
    forall i :: 0 <= i < |es| ==> es[i].value != 0
  }

  lemma NoZerosHalves(es: seq<Entry>, n: nat)
    requires NoZeros(es) && n <= |es|
    ensures NoZeros(es[..n]) && NoZeros(es[n..])
  {
  }

  lemma BuildOne(h: Hasher, es: seq<Entry>, start: nat)
    requires Buildable(es, start) && |es| == 1 && NoZeros(es)
    ensures Built(h, Build(h, es, start), es, start)
  {
  }

  lemma {:induction false} BuildMeans(h: Hasher, es: seq<Entry>, start: nat)
    requires Buildable(es, start) && NoZeros(es)
    ensures Built(h, Build(h, es, start), es, start)
    decreases |es|
  {
    if |es| == 1 {
      BuildOne(h, es, start);
    } else {
      BuildHalves(es, start);
      var d, n := ForkDepth(es, start), ForkPoint(es, start);
      NoZerosHalves(es, n);
      BuildMeans(h, es[..n], d + 1);
      BuildMeans(h, es[n..], d + 1);
      JoinBuilt(h, es, start, d, n, Build(h, es[..n], d + 1), Build(h, es[n..], d + 1));
    }
  }

  lemma SameEntries(n: Node, es: seq<Entry>, m: Slots)
    requires HoldsEntries(n, es) && Covers(es, m, [])
    ensures Contents(n) == m
  {
    forall k ensures (k in Contents(n) <==> k in m) && (k in m ==> Contents(n)[k] == m[k]) {
      if k in m {
        assert Under([], k);
        var i :| 0 <= i < |es| && es[i].bits == k;
      }
    }
  }

  /** Built from the sorted list of a set, the tree holds that set. */
  lemma BuildHolds(h: Hasher, es: seq<Entry>, m: Slots)
    requires WfSlots(m) && Lists(es, m, []) && es != []
    ensures Buildable(es, 0) && Wf(h, Build(h, es, 0)) && Contents(Build(h, es, 0)) == m
  {
    BuildMeans(h, es, 0);
    SameEntries(Build(h, es, 0), es, m);
  }

  // ------------------------------------------------------------------ update

  /** The tree lies on the key's path down to `start`. */
  ghost predicate Follows(n: Node, key: Bits, start: nat) {
    |n.key| == |key| == HEIGHT && start <= Level(n) <= HEIGHT && n.key[..start] == key[..start]
  }

  lemma DivergeAt(n: Node, key: Bits, start: nat)
    requires Follows(n, key, start)
    ensures var split := FirstDiff(n.key, key, start, Level(n));
            n.key[..split] == key[..split] && (split < Level(n) ==> n.key[split] == !key[split])
  {
    assert forall i :: 0 <= i < start ==> n.key[i] == n.key[..start][i] == key[..start][i] == key[i];
  }

  /** A key that agrees with a branch down to its depth lies on the path of the child its
      bit selects. */
  lemma DescendAt(n: Node, key: Bits)
    requires Shape(n) && n.Branch? && |key| == HEIGHT && n.key[..n.depth] == key[..n.depth]
    ensures Follows(if key[n.depth] then n.right else n.left, key, n.depth + 1)
  {
    var child := if key[n.depth] then n.right else n.left;
    assert child.key[..n.depth + 1] == child.key[..n.depth] + [child.key[n.depth]];
    assert key[..n.depth + 1] == key[..n.depth] + [key[n.depth]];
  }

  /** `Node::update`: write `value` at `key`, where a zero value deletes. */
  function UpdateNode(h: Hasher, n: Node, key: Bits, value: Felt, start: nat): Option<Node>
    requires Shape(n) && Follows(n, key, start)
    decreases n
  {
    var split := FirstDiff(n.key, key, start, Level(n));
    if split < Level(n) then
      if value == 0 then Some(n)
      else if key[split] then Some(MakeBranch(h, split, n, Leaf(key, value)))
      else Some(MakeBranch(h, split, Leaf(key, value), n))
    else match n
      case Leaf(_, _) => if value != 0 then Some(Leaf(key, value)) else None
      case Branch(_, depth, _, left, right) =>
        DivergeAt(n, key, start);
        DescendAt(n, key);
        if key[depth] then
          match UpdateNode(h, right, key, value, depth + 1)
          case Some(right') => Some(MakeBranch(h, depth, left, right'))
          case None => Some(left)
        else
          match UpdateNode(h, left, key, value, depth + 1)
          case Some(left') => Some(MakeBranch(h, depth, left', right))
          case None => Some(right)
  }

  /** A slot set after writing one key. */
  function Written(m: Slots, key: Bits, value: Felt): Slots {
    if value == 0 then m - {key} else m[key := value]
  }

  /** `r` is the tree for `m`, still on the key's path below `start`. */
  ghost predicate TreeFor(h: Hasher, r: Option<Node>, m: Slots, key: Bits, start: nat) {
    match r
    case None => m == map[]
    case Some(n) => Wf(h, n) && Contents(n) == m && Follows(n, key, start)
  }

  lemma DivergedIsAbsent(n: Node, key: Bits, start: nat)
    requires Shape(n) && Follows(n, key, start) && FirstDiff(n.key, key, start, Level(n)) < Level(n)
    ensures key !in Contents(n)
  {
    var split := FirstDiff(n.key, key, start, Level(n));
    assert key[..Level(n)][split] != n.key[..Level(n)][split];
    if key in Contents(n) { Shares(n, key); }
  }

  lemma GrowRight(h: Hasher, n: Node, key: Bits, value: Felt, start: nat, split: nat)
    requires Wf(h, n) && Follows(n, key, start) && start <= split < Level(n) && value != 0 && key !in Contents(n)
    requires n.key[..split] == key[..split] && !n.key[split] && key[split]
    ensures TreeFor(h, Some(MakeBranch(h, split, n, Leaf(key, value))), Contents(n)[key := value], key, start)
  {
    assert Meets(split, n, Leaf(key, value));
    JoinWf(h, split, n, Leaf(key, value), MakeBranch(h, split, n, Leaf(key, value)));
  }

  lemma GrowLeft(h: Hasher, n: Node, key: Bits, value: Felt, start: nat, split: nat)
    requires Wf(h, n) && Follows(n, key, start) && start <= split < Level(n) && value != 0 && key !in Contents(n)
    requires n.key[..split] == key[..split] && n.key[split] && !key[split]
    ensures TreeFor(h, Some(MakeBranch(h, split, Leaf(key, value), n)), Contents(n)[key := value], key, start)
  {
    assert Meets(split, Leaf(key, value), n);
    JoinWf(h, split, Leaf(key, value), n, MakeBranch(h, split, Leaf(key, value), n));
  }

  lemma StaysBelow(child: Node, key: Bits, depth: nat, start: nat)
    requires Follows(child, key, depth + 1) && start <= depth
    ensures child.key[..depth] == key[..depth] && child.key[depth] == key[depth] && child.key[..start] == key[..start]
  {
    var a, b := child.key[..depth + 1], key[..depth + 1];
    assert child.key[..depth] == a[..depth] && key[..depth] == b[..depth];
    assert child.key[depth] == a[depth] && key[depth] == b[depth];
    assert child.key[..start] == a[..start] && key[..start] == b[..start];
  }

  /** Writing below a branch writes the branch. */
  lemma WriteSide(n: Node, key: Bits, value: Felt)
    requires Shape(n) && n.Branch? && |key| == HEIGHT
    ensures key[n.depth] ==> Written(Contents(n), key, value) == Contents(n.left) + Written(Contents(n.right), key, value)
    ensures !key[n.depth] ==> Written(Contents(n), key, value) == Written(Contents(n.left), key, value) + Contents(n.right)
  {
    SideOf(n, key);
    forall k ensures k in Contents(n.left) ==> k !in Contents(n.right) { SideOf(n, k); }
    WriteOneSide(Contents(n.left), Contents(n.right), key, value);
  }

  lemma WriteOneSide(l: Slots, r: Slots, key: Bits, value: Felt)
    requires forall k :: k in l ==> k !in r
    ensures key !in l ==> Written(l + r, key, value) == l + Written(r, key, value)
    ensures key !in r ==> Written(l + r, key, value) == Written(l, key, value) + r
  {
  }

  lemma RejoinRight(h: Hasher, n: Node, key: Bits, start: nat, right: Node, m: Slots)
    requires Wf(h, n) && n.Branch? && Follows(n, key, start) && n.key[..n.depth] == key[..n.depth] && key[n.depth]
    requires TreeFor(h, Some(right), m, key, n.depth + 1)
    ensures TreeFor(h, Some(MakeBranch(h, n.depth, n.left, right)), Contents(n.left) + m, key, start)
  {
    StaysBelow(right, key, n.depth, start);
    assert Meets(n.depth, n.left, right);
    JoinWf(h, n.depth, n.left, right, MakeBranch(h, n.depth, n.left, right));
  }

  lemma RejoinLeft(h: Hasher, n: Node, key: Bits, start: nat, left: Node, m: Slots)
    requires Wf(h, n) && n.Branch? && Follows(n, key, start) && n.key[..n.depth] == key[..n.depth] && !key[n.depth]
    requires TreeFor(h, Some(left), m, key, n.depth + 1)
    ensures TreeFor(h, Some(MakeBranch(h, n.depth, left, n.right)), m + Contents(n.right), key, start)
  {
    StaysBelow(left, key, n.depth, start);
    assert Meets(n.depth, left, n.right);
    JoinWf(h, n.depth, left, n.right, MakeBranch(h, n.depth, left, n.right));
  }

  /** Deleting the last key on one side leaves the other side. */
  lemma Collapse(h: Hasher, n: Node, key: Bits, start: nat, m: Slots)
    requires Wf(h, n) && n.Branch? && Follows(n, key, start) && m == map[]
    ensures TreeFor(h, Some(n.left), Contents(n.left) + m, key, start)
    ensures TreeFor(h, Some(n.right), m + Contents(n.right), key, start)
  {
    assert n.right.key[..start] == n.right.key[..n.depth][..start] == n.key[..n.depth][..start] == n.key[..start];
    assert Contents(n.left) + m == Contents(n.left) && m + Contents(n.right) == Contents(n.right);
  }

  lemma UpdateDiverged(h: Hasher, n: Node, key: Bits, value: Felt, start: nat)
    requires Wf(h, n) && Follows(n, key, start) && FirstDiff(n.key, key, start, Level(n)) < Level(n)
    ensures TreeFor(h, UpdateNode(h, n, key, value, start), Written(Contents(n), key, value), key, start)
  {
    var split := FirstDiff(n.key, key, start, Level(n));
    DivergeAt(n, key, start);
    DivergedIsAbsent(n, key, start);
    if value == 0 {
      assert Contents(n) - {key} == Contents(n);
    } else if key[split] {
      GrowRight(h, n, key, value, start, split);
    } else {
      GrowLeft(h, n, key, value, start, split);
    }
  }

  lemma UpdateUnfolds(h: Hasher, n: Node, key: Bits, value: Felt, start: nat, sub: Option<Node>)
    requires Shape(n) && n.Branch? && Follows(n, key, start) && FirstDiff(n.key, key, start, n.depth) == n.depth
    requires var child := if key[n.depth] then n.right else n.left;
             Follows(child, key, n.depth + 1) && sub == UpdateNode(h, child, key, value, n.depth + 1)
    ensures UpdateNode(h, n, key, value, start) ==
            Some(if key[n.depth] then (if sub.Some? then MakeBranch(h, n.depth, n.left, sub.value) else n.left)
                 else (if sub.Some? then MakeBranch(h, n.depth, sub.value, n.right) else n.right))
  {
  }

  lemma UpdateBranch(h: Hasher, n: Node, key: Bits, start: nat, sub: Option<Node>, child: Slots, m: Slots, out: Option<Node>)
    requires Wf(h, n) && n.Branch? && Follows(n, key, start) && n.key[..n.depth] == key[..n.depth]
    requires TreeFor(h, sub, child, key, n.depth + 1)
    requires m == if key[n.depth] then Contents(n.left) + child else child + Contents(n.right)
    requires out == Some(if key[n.depth] then (if sub.Some? then MakeBranch(h, n.depth, n.left, sub.value) else n.left)
                         else (if sub.Some? then MakeBranch(h, n.depth, sub.value, n.right) else n.right))
    ensures TreeFor(h, out, m, key, start)
  {
    match sub
    case None => Collapse(h, n, key, start, child);
    case Some(t) => if key[n.depth] { RejoinRight(h, n, key, start, t, child); } else { RejoinLeft(h, n, key, start, t, child); }
  }

  /** One update makes the tree of the written set: nothing else changes. */
  lemma {:induction false} UpdateMeans(h: Hasher, n: Node, key: Bits, value: Felt, start: nat)
    requires Wf(h, n) && Follows(n, key, start)
    ensures TreeFor(h, UpdateNode(h, n, key, value, start), Written(Contents(n), key, value), key, start)
    decreases n
  {
    if FirstDiff(n.key, key, start, Level(n)) < Level(n) {
      UpdateDiverged(h, n, key, value, start);
    } else if n.Leaf? {
      UpdateLeaf(h, n, key, value, start);
    } else {
      DescendAt(n, key);
      var child := if key[n.depth] then n.right else n.left;
      UpdateMeans(h, child, key, value, n.depth + 1);
      UpdateBelow(h, n, key, value, start, child, UpdateNode(h, child, key, value, n.depth + 1));
    }
  }

  lemma UpdateLeaf(h: Hasher, n: Node, key: Bits, value: Felt, start: nat)
    requires Wf(h, n) && n.Leaf? && Follows(n, key, start) && FirstDiff(n.key, key, start, Level(n)) == Level(n)
    ensures TreeFor(h, UpdateNode(h, n, key, value, start), Written(Contents(n), key, value), key, start)
  {
    DivergeAt(n, key, start);
    assert n.key == n.key[..HEIGHT] == key[..HEIGHT] == key;
  }

  /** The child on the key's side is updated; the branch is rebuilt around it. */
  lemma UpdateBelow(h: Hasher, n: Node, key: Bits, value: Felt, start: nat, child: Node, sub: Option<Node>)
    requires Wf(h, n) && n.Branch? && Follows(n, key, start) && FirstDiff(n.key, key, start, n.depth) == n.depth
    requires child == (if key[n.depth] then n.right else n.left) && Follows(child, key, n.depth + 1)
    requires sub == UpdateNode(h, child, key, value, n.depth + 1) && TreeFor(h, sub, Written(Contents(child), key, value), key, n.depth + 1)
    ensures TreeFor(h, UpdateNode(h, n, key, value, start), Written(Contents(n), key, value), key, start)
  {
    DivergeAt(n, key, start);
    UpdateUnfolds(h, n, key, value, start, sub);
    WriteSide(n, key, value);
    UpdateBranch(h, n, key, start, sub, Written(Contents(child), key, value), Written(Contents(n), key, value), UpdateNode(h, n, key, value, start));
  }

  // --------------------------------------------------------------- the cache

  /** `root` is the tree of the slot set `m`; an empty set has no tree. */
  ghost predicate Represents(h: Hasher, root: Option<Node>, m: Slots) {
    match root
    case None => m == map[]
    case Some(n) => Wf(h, n) && Contents(n) == m
  }

  /** One write through the root; a missing tree grows its first leaf. */
  function WriteRoot(h: Hasher, root: Option<Node>, ghost m: Slots, key: Bits, value: Felt): (r: Option<Node>)
    requires Represents(h, root, m) && |key| == HEIGHT
    ensures Represents(h, r, Written(m, key, value))
  {
    match root
    case None =>
      assert m - {key} == map[];
      if value == 0 then None else Some(Leaf(key, value))
    case Some(n) =>
      assert Shape(n) && Follows(n, key, 0) by { ShapeKey(n); assert n.key[..0] == key[..0]; }
      UpdateMeans(h, n, key, value, 0);
      UpdateNode(h, n, key, value, 0)
  }

  /** `CachedTrie::root` */
  function RootHash(h: Hasher, root: Option<Node>): Felt {
    match root
    case None => 0
    case Some(n) => HashFrom(h, n, 0)
  }

  lemma RootHashMeans(h: Hasher, root: Option<Node>, m: Slots)
    requires Represents(h, root, m) && WfSlots(m)
    ensures RootHash(h, root) == HashAt(h, m, [])
  {
    match root
    case None => assert !Any(m, []);
    case Some(n) =>
      assert n.key[..0] == [];
      TreeHash(h, n, 0);
  }

  /** The tree `build` makes from scratch for a slot list. */
  function FromScratch(h: Hasher, list: seq<(Felt, Felt)>): (root: Option<Node>)
    ensures Represents(h, root, SlotMap(list))
  {
    BitEntriesList(list);
    var es := BitEntries(list);
    if es == [] then
      EmptyListing(SlotMap(list));
      None
    else
      BuildHolds(h, es, SlotMap(list));
      Some(Build(h, es, 0))
  }

  lemma EmptyListing(m: Slots)
    requires Lists([], m, [])
    ensures m == map[]
  {
    forall k | k in m ensures false { assert Under([], k); }
  }

  lemma RepresentsOnce(h: Hasher, a: Option<Node>, b: Option<Node>, m: Slots)
    requires Represents(h, a, m) && Represents(h, b, m)
    ensures a == b
  {
    match (a, b) {
      case (Some(x), Some(y)) => OneShape(h, x, y);
      case (Some(x), None) => ShapeKey(x);
      case (None, Some(y)) => ShapeKey(y);
      case (None, None) =>
    }
  }

  // ------------------------------------------------------- checking the input

  datatype TrieError = InvalidKey | DuplicateKey

  datatype Gather = Bad(error: TrieError) | Good(next: Slots)

  /** The entry map an update collects, or the reason it refuses the list. */
  function Collect(list: seq<(Felt, Felt)>): Gather {
    if list == [] then Good(map[])
    else
      var (key, value) := list[|list| - 1];
      match Collect(list[..|list| - 1])
      case Bad(e) => Bad(e)
      case Good(next) =>
        if !IsTrieKey(key) then Bad(InvalidKey)
        else if value != 0 && KeyBits(key) in next then Bad(DuplicateKey)
        else if value != 0 then Good(next[KeyBits(key) := value])
        else Good(next)
  }

  /** A slot map with one more entry at the end of its list; an earlier entry wins. */
  function Appended(m: Slots, e: (Felt, Felt)): Slots {
    if e.1 == 0 || KeyBits(e.0) in m then m else m[KeyBits(e.0) := e.1]
  }

  lemma {:induction false} SlotMapAppend(list: seq<(Felt, Felt)>, e: (Felt, Felt))
    ensures SlotMap(list + [e]) == Appended(SlotMap(list), e)
  {
    if list == [] {
      assert list + [e] == [e];
    } else {
      SlotMapAppend(list[1..], e);
      assert (list + [e])[1..] == list[1..] + [e];
    }
  }

  /** What is collected is the list's slot map. */
  lemma {:induction false} CollectMeans(list: seq<(Felt, Felt)>)
    ensures Collect(list).Good? ==> Collect(list).next == SlotMap(list)
  {
    if list != [] {
      var n := |list| - 1;
      CollectMeans(list[..n]);
      SlotMapLast(list, n);
    }
  }

  lemma SlotMapLast(list: seq<(Felt, Felt)>, n: nat)
    requires |list| == n + 1
    ensures SlotMap(list) == Appended(SlotMap(list[..n]), list[n])
  {
    SlotMapAppend(list[..n], list[n]);
    assert list == list[..n] + [list[n]];
  }

  ghost predicate NamesBadKey(list: seq<(Felt, Felt)>) {
    exists i :: 0 <= i < |list| && !IsTrieKey(list[i].0)
  }

  ghost predicate Names(list: seq<(Felt, Felt)>, key: Felt) {
    exists i :: 0 <= i < |list| && list[i].0 == key && list[i].1 != 0
  }

  ghost predicate NamesTwice(list: seq<(Felt, Felt)>) {
    exists i, j :: 0 <= i < j < |list| && list[i].0 == list[j].0 && list[i].1 != 0 && list[j].1 != 0
  }

  lemma NamesGrow(list: seq<(Felt, Felt)>)
    requires list != []
    ensures var n := |list| - 1;
            && (NamesBadKey(list) <==> NamesBadKey(list[..n]) || !IsTrieKey(list[n].0))
            && (NamesTwice(list) <==> NamesTwice(list[..n]) || (list[n].1 != 0 && Names(list[..n], list[n].0)))
  {
    var n := |list| - 1;
    var front := list[..n];
    assert forall i :: 0 <= i < n ==> front[i] == list[i];
    if i, j :| 0 <= i < j < |list| && list[i].0 == list[j].0 && list[i].1 != 0 && list[j].1 != 0 {
      assert front[i] == list[i];
      if j < n { assert front[j] == list[j]; }
    }
  }

  lemma KeyTaken(list: seq<(Felt, Felt)>, key: Felt)
    requires !NamesBadKey(list) && IsTrieKey(key)
    ensures KeyBits(key) in SlotMap(list) <==> Names(list, key)
  {
    SlotMapHas(list, KeyBits(key));
    forall i | 0 <= i < |list| && KeyBits(list[i].0) == KeyBits(key) ensures list[i].0 == key {
      KeyBitsRoundTrip(list[i].0);
      KeyBitsRoundTrip(key);
    }
  }

  /** A list is refused exactly for a key at or above 2^251 or a key given twice with
      non-zero values. */
  lemma {:induction false} CollectRefuses(list: seq<(Felt, Felt)>)
    ensures Collect(list).Bad? <==> NamesBadKey(list) || NamesTwice(list)
  {
    if list != [] {
      var n := |list| - 1;
      CollectRefuses(list[..n]);
      CollectMeans(list[..n]);
      NamesGrow(list);
      if Collect(list[..n]).Good? && IsTrieKey(list[n].0) { KeyTaken(list[..n], list[n].0); }
    }
  }

  lemma {:induction false} SlotMapHas(list: seq<(Felt, Felt)>, k: Bits)
    ensures k in SlotMap(list) <==> HasPath(list, k)
  {
    if list != [] {
      SlotMapHas(list[1..], k);
      HeadOrRest(list, k);
    }
  }

  /** Some entry of the list has the path `k` and a value. */
  ghost predicate HasPath(list: seq<(Felt, Felt)>, k: Bits) {
    exists i :: 0 <= i < |list| && list[i].1 != 0 && KeyBits(list[i].0) == k
  }

  lemma HeadOrRest(list: seq<(Felt, Felt)>, k: Bits)
    requires list != []
    ensures HasPath(list, k) <==> HasPath(list[1..], k) || (list[0].1 != 0 && KeyBits(list[0].0) == k)
  {
    var rest := list[1..];
    if HasPath(rest, k) {
      var i :| 0 <= i < |rest| && rest[i].1 != 0 && KeyBits(rest[i].0) == k;
      assert list[i + 1] == rest[i];
    }
    if HasPath(list, k) {
      var i :| 0 <= i < |list| && list[i].1 != 0 && KeyBits(list[i].0) == k;
      if i > 0 { assert rest[i - 1] == list[i]; }
    }
  }

  // ---------------------------------------------------------------- the class

  /** Where the write loop stands: keys outside `todo` have their new value. */
  function PartlyWritten(values: Slots, next: Slots, todo: set<Bits>): Slots {
    map k | k in values.Keys + (next.Keys - todo) :: if k in next && k !in todo then next[k] else values[k]
  }

  /** Where the delete loop stands: of the keys to drop, those in `todo` are still there. */
  function PartlyDeleted(values: Slots, next: Slots, todo: set<Bits>): Slots
    requires todo <= values.Keys
  {
    map k | k in next.Keys + todo :: if k in next then next[k] else values[k]
  }

  /** The keys whose value is new or changed. */
  function Changed(values: Slots, next: Slots): set<Bits> {
    set k | k in next && (k !in values || values[k] != next[k])
  }

  lemma WriteStep(values: Slots, next: Slots, todo: set<Bits>, k: Bits)
    requires WfSlots(next) && todo <= Changed(values, next) && k in todo
    ensures PartlyWritten(values, next, todo - {k}) == Written(PartlyWritten(values, next, todo), k, next[k])
  {
  }

  lemma DeleteStep(values: Slots, next: Slots, todo: set<Bits>, k: Bits)
    requires todo <= values.Keys - next.Keys && k in todo
    ensures PartlyDeleted(values, next, todo - {k}) == Written(PartlyDeleted(values, next, todo), k, 0)
  {
  }

  lemma WrittenThenDeleted(values: Slots, next: Slots)
    ensures PartlyWritten(values, next, Changed(values, next)) == values
    ensures PartlyWritten(values, next, {}) == PartlyDeleted(values, next, values.Keys - next.Keys)
    ensures PartlyDeleted(values, next, {}) == next
  {
  }

  datatype UpdateResult = Rejected(error: TrieError) | Root(root: Felt)

  class CachedTrie {
    const h: Hasher
    var root: Option<Node>
    var values: Slots

    ghost predicate Valid()
      reads this
    {
      WfSlots(values) && Represents(h, root, values)
    }

    constructor (h: Hasher)
      ensures Valid() && values == map[] && this.h == h
    {
      this.h := h;
      root := None;
      values := map[];
    }

    /** An independent copy. */
    constructor Clone(of: CachedTrie)
      requires of.Valid()
      ensures Valid() && h == of.h && root == of.root && values == of.values
    {
      h := of.h;
      root := of.root;
      values := of.values;
    }

    /** Compare complete slot sets and rewrite only the changed paths. */
    method Update(list: seq<(Felt, Felt)>) returns (r: UpdateResult)
      requires Valid()
      modifies this
      ensures Valid()
      ensures r.Rejected? <==> NamesBadKey(list) || NamesTwice(list)
      ensures r.Rejected? ==> root == old(root) && values == old(values)
      ensures r.Root? ==> values == SlotMap(list) && root == FromScratch(h, list)
      ensures r.Root? ==> r.root == StorageRoot(h, list)
    {
      CollectRefuses(list);
      CollectMeans(list);
      var gathered := CollectEntries(list);
      if gathered.Bad? {
        return Rejected(gathered.error);
      }
      var next := gathered.next;
      if root.None? {
        root := FromScratch(h, list);
      } else {
        WriteAll(next);
        DeleteAll(next);
      }
      values := next;
      RootHashMeans(h, root, values);
      RepresentsOnce(h, root, FromScratch(h, list), next);
      r := Root(RootHash(h, root));
    }

    method WriteAll(next: Slots)
      requires Valid() && WfSlots(next) && root.Some?
      modifies this`root
      ensures Represents(h, root, PartlyWritten(values, next, {}))
    {
      var todo := Changed(values, next);
      WrittenThenDeleted(values, next);
      while todo != {}
        invariant todo <= Changed(values, next)
        invariant Represents(h, root, PartlyWritten(values, next, todo))
        decreases |todo|
      {
        var k :| k in todo;
        WriteStep(values, next, todo, k);
        root := WriteRoot(h, root, PartlyWritten(values, next, todo), k, next[k]);
        todo := todo - {k};
      }
    }

    method DeleteAll(next: Slots)
      requires WfSlots(values) && WfSlots(next) && Represents(h, root, PartlyWritten(values, next, {}))
      modifies this`root
      ensures Represents(h, root, next)
    {
      var todo := values.Keys - next.Keys;
      WrittenThenDeleted(values, next);
      while todo != {}
        invariant todo <= values.Keys - next.Keys
        invariant Represents(h, root, PartlyDeleted(values, next, todo))
        decreases |todo|
      {
        var k :| k in todo;
        DeleteStep(values, next, todo, k);
        root := WriteRoot(h, root, PartlyDeleted(values, next, todo), k, 0);
        todo := todo - {k};
      }
    }
  }

  method CollectEntries(list: seq<(Felt, Felt)>) returns (g: Gather)
    ensures g == Collect(list)
  {
    var next: Slots := map[];
    for i := 0 to |list|
      invariant Collect(list[..i]) == Good(next)
    {
      assert list[..i + 1][..i] == list[..i];
      var (key, value) := list[i];
      if !IsTrieKey(key) {
        BadPrefix(list, i + 1);
        return Bad(InvalidKey);
      }
      if value != 0 {
        if KeyBits(key) in next {
          BadPrefix(list, i + 1);
          return Bad(DuplicateKey);
        }
        next := next[KeyBits(key) := value];
      }
    }
    assert list[..|list|] == list;
    g := Good(next);
  }

  lemma {:induction false} BadPrefix(list: seq<(Felt, Felt)>, n: nat)
    requires n <= |list| && Collect(list[..n]).Bad?
    ensures Collect(list) == Collect(list[..n])
    decreases |list| - n
  {
    if n == |list| {
      assert list[..n] == list;
    } else {
      assert list[..n + 1][..n] == list[..n];
      BadPrefix(list, n + 1);
    }
  }
}
