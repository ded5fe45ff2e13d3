/** The Starknet storage trie as `crates/feed/src/mpt.rs` hashes it: the hashing rules, the
    reference recursion over bit prefixes of a slot map (`Summary` and `HashAt`), and what
    equal hashes commit to. Hash functions are parameters, so every result holds for every
    choice of them. */
module Mpt {
  import opened Felts

  datatype Option<T> = None | Some(value: T)

  datatype Hasher = Hasher(pedersen: (Felt, Felt) -> Felt, poseidon: (Felt, Felt, Felt) -> Felt)

  /** A slot set: 251-bit key paths to values. */
  type Slots = map<Bits, Felt>

  ghost predicate WfSlots(m: Slots) {
    forall k :: k in m ==> |k| == HEIGHT && m[k] != 0
  }

  // ------------------------------------------------------------ hashing rules

  function BinaryHash(h: Hasher, left: Felt, right: Felt): Felt {
    h.pedersen(left, right)
  }

  /** `pedersen(child, path) + length` in the field. */
  function EdgeHash(h: Hasher, child: Felt, path: Felt, length: nat): Felt {
    (h.pedersen(child, path) + length) % PRIME
  }

  /** An edge's length is a 64-bit number. */
  type Length = n: nat | n <= 0xFFFF_FFFF_FFFF_FFFF

  datatype Body =
    | Binary(left: Felt, right: Felt)
    | Edge(path: Felt, length: Length, child: Felt)

  function BodyHash(h: Hasher, b: Body): Felt {
    match b
    case Binary(l, r) => BinaryHash(h, l, r)
    case Edge(path, length, child) => EdgeHash(h, child, path, length)
  }

  /** A body some trie can hold. Other bodies share hashes for free: an edge of length zero hashes
      like the binary node over the same two felts. */
  predicate Sane(b: Body) {
    b.Edge? ==> 0 < b.length <= HEIGHT && FitsInBits(ToBytes(b.path), b.length)
  }

  /** Two different nodes of the given set share a hash, or one of them hashes to zero,
      the hash of an empty subtree. Results below hold unless such a pair exists among
      nodes that the two parties really hold. */
  ghost predicate HasCollision(h: Hasher, nodes: iset<Body>) {
    || (exists a, b :: a in nodes && b in nodes && a != b && BodyHash(h, a) == BodyHash(h, b))
    || (exists a :: a in nodes && BodyHash(h, a) == 0)
  }

  // ------------------------------------------------------------- the reference

  /** A subtree as a possibly empty edge over a bottom hash. */
  datatype SubNode = SubNode(path: Bits, bottom: Felt)

  function Resolve(h: Hasher, n: SubNode): Felt
    requires |n.path| <= HEIGHT
  {
    if n.path == [] then n.bottom else EdgeHash(h, n.bottom, PathFelt(n.path), |n.path|)
  }

  /** Two children under one parent: a binary node, or a longer edge to the only child. */
  function Join(h: Hasher, left: Option<SubNode>, right: Option<SubNode>): (r: Option<SubNode>)
    requires left.Some? ==> |left.value.path| < HEIGHT
    requires right.Some? ==> |right.value.path| < HEIGHT
  {
    match (left, right)
    case (Some(l), Some(r)) => Some(SubNode([], BinaryHash(h, Resolve(h, l), Resolve(h, r))))
    case (Some(l), None) => Some(SubNode([false] + l.path, l.bottom))
    case (None, Some(r)) => Some(SubNode([true] + r.path, r.bottom))
    case (None, None) => None
  }

  /** `p` is a prefix of `k`. */
  predicate Under(p: Bits, k: Bits) {
    |p| <= |k| && k[..|p|] == p
  }

  /** Some key of the set starts with `p`. */
  ghost predicate Any(m: Slots, p: Bits) {
    exists k :: k in m && Under(p, k)
  }

  ghost function Summary(h: Hasher, m: Slots, p: Bits): (r: Option<SubNode>)
    requires WfSlots(m) && |p| <= HEIGHT
    ensures r.Some? <==> Any(m, p)
    ensures r.Some? ==> |p| + |r.value.path| <= HEIGHT
    decreases HEIGHT - |p|
  {
    if !Any(m, p) then None
    else if |p| == HEIGHT then
      AnyAtFullDepth(m, p);
      Some(SubNode([], m[p]))
    else
      AnySplits(m, p);
      Join(h, Summary(h, m, p + [false]), Summary(h, m, p + [true]))
  }

  /** The hash a parent stores for the child at prefix `p`; zero for an empty subtree. */
  ghost function HashAt(h: Hasher, m: Slots, p: Bits): Felt
    requires WfSlots(m) && |p| <= HEIGHT
  {
    match Summary(h, m, p)
    case None => 0
    case Some(n) => Resolve(h, n)
  }

  /** The trie node at a non-empty prefix above the leaves. */
  ghost function NodeAt(h: Hasher, m: Slots, p: Bits): Body
    requires WfSlots(m) && |p| < HEIGHT && Any(m, p)
  {
    var s := Summary(h, m, p).value;
    if s.path == [] then Binary(HashAt(h, m, p + [false]), HashAt(h, m, p + [true]))
    else Edge(PathFelt(s.path), |s.path|, s.bottom)
  }

  /** Every node of the tries of `m`, rooted at any prefix. */
  ghost function TrieNodes(h: Hasher, m: Slots): iset<Body>
    requires WfSlots(m)
  {
    iset p: Bits | |p| < HEIGHT && Any(m, p) :: NodeAt(h, m, p)
  }

  lemma AnyAtFullDepth(m: Slots, p: Bits)
    requires WfSlots(m) && |p| == HEIGHT && Any(m, p)
    ensures p in m
  {
    var k :| k in m && Under(p, k);
    assert k == p;
  }

  lemma UnderStep(p: Bits, k: Bits, b: bool)
    requires |p| < |k|
    ensures Under(p + [b], k) <==> Under(p, k) && k[|p|] == b
  {
    if Under(p, k) && k[|p|] == b { assert k[..|p| + 1] == k[..|p|] + [k[|p|]]; }
    if Under(p + [b], k) { assert k[..|p|] == k[..|p| + 1][..|p|] == p; }
  }

  lemma PathStep(p: Bits, path: Bits)
    requires path != []
    ensures p + path == p + [path[0]] + path[1..]
  {
  }

  lemma UnderTrans(p: Bits, q: Bits, k: Bits)
    requires Under(p, q) && Under(q, k)
    ensures Under(p, k)
  {
    assert k[..|p|] == k[..|q|][..|p|];
  }

  lemma AnySplits(m: Slots, p: Bits)
    requires WfSlots(m) && |p| < HEIGHT
    ensures Any(m, p) <==> Any(m, p + [false]) || Any(m, p + [true])
  {
    forall k | k in m ensures Under(p, k) <==> Under(p + [false], k) || Under(p + [true], k) {
      UnderStep(p, k, false);
      UnderStep(p, k, true);
    }
  }

  lemma NodeHash(h: Hasher, m: Slots, p: Bits)
    requires WfSlots(m) && |p| < HEIGHT && Any(m, p)
    ensures HashAt(h, m, p) == BodyHash(h, NodeAt(h, m, p))
    ensures NodeAt(h, m, p) in TrieNodes(h, m)
  {
  }

  lemma SummaryUnfolds(h: Hasher, m: Slots, p: Bits)
    requires WfSlots(m) && |p| < HEIGHT && Any(m, p)
    ensures Summary(h, m, p) == Join(h, Summary(h, m, p + [false]), Summary(h, m, p + [true]))
  {
  }

  lemma SummaryOneSide(h: Hasher, m: Slots, p: Bits, b: bool)
    requires WfSlots(m) && |p| < HEIGHT && Any(m, p + [b]) && !Any(m, p + [!b])
    ensures Any(m, p)
    ensures var s := Summary(h, m, p + [b]).value; Summary(h, m, p) == Some(SubNode([b] + s.path, s.bottom))
  {
    AnySplits(m, p);
    SummaryUnfolds(h, m, p);
  }

  /** Where one side is empty, the subtree is the other side's, one edge bit longer. */
  lemma SummaryStep(h: Hasher, m: Slots, p: Bits)
    requires WfSlots(m) && |p| < HEIGHT && Any(m, p) && Summary(h, m, p).value.path != []
    ensures var s := Summary(h, m, p).value; var b := s.path[0];
            && Any(m, p + [b]) && !Any(m, p + [!b])
            && Summary(h, m, p + [b]) == Some(SubNode(s.path[1..], s.bottom))
  {
    AnySplits(m, p);
  }

  lemma SummaryForks(h: Hasher, m: Slots, p: Bits)
    requires WfSlots(m) && |p| < HEIGHT && Any(m, p) && Summary(h, m, p).value.path == []
    ensures Any(m, p + [false]) && Any(m, p + [true])
  {
    AnySplits(m, p);
  }

  lemma NarrowStep(m: Slots, p: Bits, path: Bits)
    requires path != [] && Any(m, p + path) && forall k :: k in m && Under(p, k) ==> Under(p + path, k)
    ensures !Any(m, p + [!path[0]])
    ensures Any(m, p + [path[0]] + path[1..])
    ensures forall k :: k in m && Under(p + [path[0]], k) ==> Under(p + [path[0]] + path[1..], k)
  {
    var b := path[0];
    PathStep(p, path);
    forall k, c | k in m && Under(p + [c], k) ensures c == b && Under(p + path, k) {
      assert |p| < |k|;
      UnderStep(p, k, c);
      assert Under(p + path, k);
      assert k[|p|] == k[..|p + path|][|p|] == (p + path)[|p|] == b;
    }
  }

  lemma SummaryPrepend(h: Hasher, m: Slots, p: Bits, b: bool, s: SubNode)
    requires WfSlots(m) && |p| < HEIGHT && !Any(m, p + [!b]) && Summary(h, m, p + [b]) == Some(s)
    ensures Summary(h, m, p) == Some(SubNode([b] + s.path, s.bottom))
  {
    SummaryOneSide(h, m, p, b);
  }

  lemma PathAssoc(a: Bits, b: Bits)
    requires a != []
    ensures a + b == [a[0]] + (a[1..] + b)
  {
  }

  /** Where all keys under `p` continue along `path`, the subtree at `p` is the one at the
      end of `path` with that path in front. */
  lemma {:induction false} LongEdge(h: Hasher, m: Slots, p: Bits, path: Bits, s: SubNode)
    requires WfSlots(m) && |p| + |path| <= HEIGHT && Summary(h, m, p + path) == Some(s)
    requires forall k :: k in m && Under(p, k) ==> Under(p + path, k)
    ensures Summary(h, m, p) == Some(SubNode(path + s.path, s.bottom))
    decreases |path|
  {
    if path == [] {
      assert p + path == p && path + s.path == s.path;
    } else {
      NarrowStep(m, p, path);
      PathStep(p, path);
      LongEdge(h, m, p + [path[0]], path[1..], s);
      SummaryPrepend(h, m, p, path[0], SubNode(path[1..] + s.path, s.bottom));
      PathAssoc(path, s.path);
    }
  }

  /** An edge leads to a node that is no edge ... */
  lemma {:induction false} EdgeEnds(h: Hasher, m: Slots, p: Bits, s: SubNode)
    requires WfSlots(m) && |p| <= HEIGHT && Summary(h, m, p) == Some(s)
    ensures Summary(h, m, p + s.path) == Some(SubNode([], s.bottom))
    decreases HEIGHT - |p|
  {
    if s.path == [] {
      assert p + s.path == p;
    } else {
      SummaryStep(h, m, p);
      PathStep(p, s.path);
      EdgeEnds(h, m, p + [s.path[0]], SubNode(s.path[1..], s.bottom));
    }
  }

  /** ... and that covers every key the edge covers. */
  lemma {:induction false} EdgeCovers(h: Hasher, m: Slots, p: Bits, s: SubNode, k: Bits)
    requires WfSlots(m) && |p| <= HEIGHT && Summary(h, m, p) == Some(s)
    requires k in m && Under(p, k)
    ensures Under(p + s.path, k)
    decreases HEIGHT - |p|
  {
    if s.path == [] {
      assert p + s.path == p;
    } else {
      var b := s.path[0];
      SummaryStep(h, m, p);
      UnderStep(p, k, b);
      UnderStep(p, k, !b);
      assert !Under(p + [!b], k);
      PathStep(p, s.path);
      EdgeCovers(h, m, p + [b], SubNode(s.path[1..], s.bottom), k);
    }
  }

  lemma EdgeTarget(h: Hasher, m: Slots, p: Bits)
    requires WfSlots(m) && |p| <= HEIGHT && Any(m, p)
    ensures var s := Summary(h, m, p).value; var q := p + s.path;
            && Any(m, q)
            && Summary(h, m, q) == Some(SubNode([], s.bottom))
            && (forall k :: k in m && Under(p, k) ==> Under(q, k))
            && (|q| < HEIGHT ==> Any(m, q + [false]) && Any(m, q + [true]))
  {
    var s := Summary(h, m, p).value;
    var q := p + s.path;
    EdgeEnds(h, m, p, s);
    forall k | k in m && Under(p, k) ensures Under(q, k) { EdgeCovers(h, m, p, s, k); }
    if |q| < HEIGHT { SummaryForks(h, m, q); }
  }

  /** A binary node names the hashes of its two non-empty children. */
  lemma BinaryChildren(h: Hasher, m: Slots, p: Bits, b: bool)
    requires WfSlots(m) && |p| < HEIGHT && Any(m, p) && NodeAt(h, m, p).Binary?
    ensures Any(m, p + [b])
    ensures HashAt(h, m, p + [b]) == if b then NodeAt(h, m, p).right else NodeAt(h, m, p).left
  {
    SummaryForks(h, m, p);
  }

  /** An edge names the hash of its target and the target's distance. */
  lemma EdgeChild(h: Hasher, m: Slots, p: Bits, path: Bits)
    requires WfSlots(m) && |p| < HEIGHT && Any(m, p) && NodeAt(h, m, p).Edge?
    requires path == Summary(h, m, p).value.path
    ensures path != [] && |p| + |path| <= HEIGHT
    ensures NodeAt(h, m, p) == Edge(PathFelt(path), |path|, HashAt(h, m, p + path))
    ensures Any(m, p + path) && (|p| + |path| < HEIGHT ==> Forks(m, p + path))
    ensures forall k :: k in m && Under(p, k) ==> Under(p + path, k)
  {
    EdgeTarget(h, m, p);
  }

  /** Keys continue with both bits: a binary node sits here. */
  ghost predicate Forks(m: Slots, p: Bits) {
    Any(m, p + [false]) && Any(m, p + [true])
  }

  ghost predicate SameUnder(m1: Slots, m2: Slots, p: Bits) {
    forall k :: Under(p, k) ==> (k in m1 <==> k in m2) && (k in m1 ==> m1[k] == m2[k])
  }

  lemma CollisionGrows(h: Hasher, a: iset<Body>, b: iset<Body>)
    requires a <= b && HasCollision(h, a)
    ensures HasCollision(h, b)
  {
  }

  lemma NonEmptyIsNotZero(h: Hasher, m: Slots, p: Bits)
    requires WfSlots(m) && |p| <= HEIGHT && Any(m, p)
    ensures HashAt(h, m, p) != 0 || HasCollision(h, TrieNodes(h, m))
  {
    if |p| == HEIGHT { AnyAtFullDepth(m, p); } else { NodeHash(h, m, p); }
  }

  lemma SameHalves(m1: Slots, m2: Slots, p: Bits)
    requires WfSlots(m1) && WfSlots(m2) && |p| < HEIGHT
    requires SameUnder(m1, m2, p + [false]) && SameUnder(m1, m2, p + [true])
    ensures SameUnder(m1, m2, p)
  {
    forall k | Under(p, k) ensures (k in m1 <==> k in m2) && (k in m1 ==> m1[k] == m2[k]) {
      if |k| > |p| {
        UnderStep(p, k, false);
        UnderStep(p, k, true);
      }
    }
  }

  /** An edge's body names its target prefix: two tries with the same edge at `p` meet
      again at the same prefix below it. */
  lemma SameEdge(h: Hasher, m1: Slots, m2: Slots, p: Bits)
    requires WfSlots(m1) && WfSlots(m2) && |p| < HEIGHT && Any(m1, p) && Any(m2, p)
    requires NodeAt(h, m1, p) == NodeAt(h, m2, p) && NodeAt(h, m1, p).Edge?
    ensures var q := p + Summary(h, m1, p).value.path;
            && |p| < |q| <= HEIGHT && HashAt(h, m1, q) == HashAt(h, m2, q)
            && (SameUnder(m1, m2, q) ==> SameUnder(m1, m2, p))
  {
    var s1, s2 := Summary(h, m1, p).value, Summary(h, m2, p).value;
    ValueInjective(s1.path, s2.path);
    EdgeTarget(h, m1, p);
    EdgeTarget(h, m2, p);
  }

  /** Equal child hashes at one prefix commit to identical entries under it, unless two
      nodes of the two tries collide. */
  lemma {:induction false} EqualHashes(h: Hasher, m1: Slots, m2: Slots, p: Bits)
    requires WfSlots(m1) && WfSlots(m2) && |p| <= HEIGHT
    requires HashAt(h, m1, p) == HashAt(h, m2, p)
    ensures SameUnder(m1, m2, p) || HasCollision(h, TrieNodes(h, m1) + TrieNodes(h, m2))
    decreases HEIGHT - |p|
  {
    var all := TrieNodes(h, m1) + TrieNodes(h, m2);
    if HasCollision(h, all) {
    } else if !Any(m1, p) || !Any(m2, p) {
      if Any(m1, p) {
        NonEmptyIsNotZero(h, m1, p);
        if HasCollision(h, TrieNodes(h, m1)) { CollisionGrows(h, TrieNodes(h, m1), all); }
      }
      if Any(m2, p) {
        NonEmptyIsNotZero(h, m2, p);
        if HasCollision(h, TrieNodes(h, m2)) { CollisionGrows(h, TrieNodes(h, m2), all); }
      }
    } else if |p| == HEIGHT {
      AnyAtFullDepth(m1, p);
      AnyAtFullDepth(m2, p);
      assert forall k :: Under(p, k) && (k in m1 || k in m2) ==> k == p;
    } else {
      NodeHash(h, m1, p);
      NodeHash(h, m2, p);
      var n1, n2 := NodeAt(h, m1, p), NodeAt(h, m2, p);
      assert n1 in all && n2 in all;
      if n1.Binary? {
        EqualHashes(h, m1, m2, p + [false]);
        EqualHashes(h, m1, m2, p + [true]);
        SameHalves(m1, m2, p);
      } else {
        SameEdge(h, m1, m2, p);
        EqualHashes(h, m1, m2, p + Summary(h, m1, p).value.path);
      }
    }
  }

  /** Equal roots mean equal slot sets, or a collision. */
  lemma EqualRoots(h: Hasher, m1: Slots, m2: Slots)
    requires WfSlots(m1) && WfSlots(m2) && HashAt(h, m1, []) == HashAt(h, m2, [])
    ensures m1 == m2 || HasCollision(h, TrieNodes(h, m1) + TrieNodes(h, m2))
  {
    EqualHashes(h, m1, m2, []);
    if SameUnder(m1, m2, []) {
      assert forall k: Bits :: Under([], k);
      assert m1 == m2;
    }
  }

  /** A subtree depends only on the keys under its prefix. */
  lemma {:induction false} SummaryFrame(h: Hasher, m1: Slots, m2: Slots, p: Bits)
    requires WfSlots(m1) && WfSlots(m2) && |p| <= HEIGHT && SameUnder(m1, m2, p)
    ensures Summary(h, m1, p) == Summary(h, m2, p)
    decreases HEIGHT - |p|
  {
    assert Any(m1, p) <==> Any(m2, p);
    if Any(m1, p) {
      if |p| == HEIGHT {
        AnyAtFullDepth(m1, p);
      } else {
        forall k, b | Under(p + [b], k) ensures Under(p, k) {
          assert Under(p, p + [b]);
          UnderTrans(p, p + [b], k);
        }
        SummaryFrame(h, m1, m2, p + [false]);
        SummaryFrame(h, m1, m2, p + [true]);
      }
    }
  }
}
