/** The byte format of the cached tree (`Node::encode`, `CachedTrie::encode` and
    `CachedTrie::decode` of `crates/feed/src/trie.rs`). */
module TrieCodec {
  import opened Felts
  import opened Mpt
  import opened CachedTries

  type Byte = x: nat | x < 256

  /** 32 big-endian bytes of a felt. */
  function FeltBytes(f: Felt): (b: seq<Byte>)
    ensures |b| == 32
  {
    ToBytes(f)
  }

  function ReadFelt(b: seq<Byte>): Felt
    requires |b| == 32
  {
    FromBytes(b)
  }

  lemma ReadBack(f: Felt)
    ensures ReadFelt(FeltBytes(f)) == f
  {
    FromToBytes(f);
  }

  // ----------------------------------------------------------------- records

  const LEAF_SIZE := 65
  const BRANCH_SIZE := 35

  /** Tag 0, key, value. */
  function LeafRecord(key: Bits, value: Felt): (b: seq<Byte>)
    requires |key| == HEIGHT
    ensures |b| == LEAF_SIZE && b[0] == 0
  {
    [0] + FeltBytes(PathFelt(key)) + FeltBytes(value)
  }

  /** Tag 1, depth as two bytes, hash. */
  function BranchRecord(depth: nat, hash: Felt): (b: seq<Byte>)
    ensures |b| == BRANCH_SIZE && b[0] == 1
  {
    [1, depth % 65536 / 256, depth % 256] + FeltBytes(hash)
  }

  function BranchDepth(record: seq<Byte>): nat
    requires |record| == BRANCH_SIZE
  {
    var hi: nat, lo: nat := record[1], record[2];
    hi * 256 + lo
  }

  lemma BranchRecordBack(depth: nat, hash: Felt)
    requires depth < HEIGHT
    ensures BranchDepth(BranchRecord(depth, hash)) == depth && ReadFelt(BranchRecord(depth, hash)[3..]) == hash
  {
    ReadBack(hash);
    assert BranchRecord(depth, hash)[3..] == FeltBytes(hash);
  }

  lemma LeafRecordBack(key: Bits, value: Felt)
    requires |key| == HEIGHT
    ensures var r := LeafRecord(key, value);
            && ReadFelt(r[1..33]) == PathFelt(key) && ReadFelt(r[33..]) == value
            && IsTrieKey(PathFelt(key)) && KeyBits(PathFelt(key)) == key
  {
    var r := LeafRecord(key, value);
    ReadBack(PathFelt(key));
    ReadBack(value);
    assert r[1..33] == FeltBytes(PathFelt(key)) && r[33..] == FeltBytes(value);
    PathFeltRoundTrip(key);
  }

  /** `Node::encode` */
  function EncodeNode(n: Node): (out: seq<Byte>)
    requires Shape(n)
    ensures out != []
  {
    match n
    case Leaf(key, value) => LeafRecord(key, value)
    case Branch(_, depth, hash, left, right) => BranchRecord(depth, hash) + (EncodeNode(left) + EncodeNode(right))
  }

  /** `CachedTrie::encode` */
  function Encode(root: Option<Node>): seq<Byte>
    requires root.Some? ==> Shape(root.value)
  {
    match root
    case None => []
    case Some(n) => EncodeNode(n)
  }

  // ------------------------------------------------------------------ reader

  datatype Decoded = Corrupt | Done(node: Node, rest: seq<Byte>, values: Slots)

  /** The recursive reader inside `decode`: node, remaining input, values gathered. */
  function DecodeNode(input: seq<Byte>, minDepth: nat, values: Slots): (d: Decoded)
    ensures d.Done? ==> |d.rest| < |input|
    decreases |input|
  {
    if |input| >= LEAF_SIZE && input[0] == 0 then
      match ReadLeaf(input[..LEAF_SIZE], values)
      case None => Corrupt
      case Some(leaf) => Done(leaf, input[LEAF_SIZE..], values[leaf.key := OwnHash(leaf)])
    else if |input| >= BRANCH_SIZE && input[0] == 1 then
      var depth, hash := BranchDepth(input[..BRANCH_SIZE]), ReadFelt(input[..BRANCH_SIZE][3..]);
      if depth < minDepth || depth >= HEIGHT then Corrupt
      else
        match DecodeNode(input[BRANCH_SIZE..], depth + 1, values)
        case Corrupt => Corrupt
        case Done(left, rest, values1) =>
          match DecodeNode(rest, depth + 1, values1)
          case Corrupt => Corrupt
          case Done(right, rest2, values2) => Done(Branch(left.key, depth, hash, left, right), rest2, values2)
    else Corrupt
  }

  /** A leaf is refused for a zero value, a key at or above 2^251 or a key seen before. */
  function ReadLeaf(record: seq<Byte>, values: Slots): Option<Node>
    requires |record| == LEAF_SIZE
  {
    var key, value := ReadFelt(record[1..33]), ReadFelt(record[33..]);
    if value == 0 || !IsTrieKey(key) || KeyBits(key) in values then None
    else Some(Leaf(KeyBits(key), value))
  }

  datatype Restored = Refused | Trie(root: Option<Node>, values: Slots)

  /** `CachedTrie::decode` */
  function Decode(bytes: seq<Byte>): Restored {
    if bytes == [] then Trie(None, map[])
    else match DecodeNode(bytes, 0, map[])
      case Corrupt => Refused
      case Done(n, rest, values) => if rest == [] then Trie(Some(n), values) else Refused
  }

  // -------------------------------------------------------------- round trip

  lemma DecodeLeaf(n: Node, rest: seq<Byte>, minDepth: nat, values: Slots)
    requires Shape(n) && n.Leaf? && n.key !in values
    ensures DecodeNode(LeafRecord(n.key, n.value) + rest, minDepth, values) == Done(n, rest, values[n.key := n.value])
  {
    var r := LeafRecord(n.key, n.value);
    var input := r + rest;
    LeafRecordBack(n.key, n.value);
    assert input[..LEAF_SIZE] == r && input[LEAF_SIZE..] == rest && input[0] == r[0];
    assert ReadLeaf(r, values) == Some(n);
  }

  lemma DecodeUnfolds(input: seq<Byte>, minDepth: nat, values: Slots, depth: nat, hash: Felt, left: Decoded, right: Decoded)
    requires |input| >= BRANCH_SIZE && input[0] == 1 && minDepth <= depth < HEIGHT
    requires depth == BranchDepth(input[..BRANCH_SIZE]) && hash == ReadFelt(input[..BRANCH_SIZE][3..])
    requires left == DecodeNode(input[BRANCH_SIZE..], depth + 1, values) && left.Done?
    requires right == DecodeNode(left.rest, depth + 1, left.values) && right.Done?
    ensures DecodeNode(input, minDepth, values) ==
            Done(Branch(left.node.key, depth, hash, left.node, right.node), right.rest, right.values)
  {
  }

  lemma RecordThen(r: seq<Byte>, tail: seq<Byte>)
    requires r != []
    ensures (r + tail)[..|r|] == r && (r + tail)[|r|..] == tail && (r + tail)[0] == r[0]
  {
  }

  lemma DecodeBranch(depth: nat, hash: Felt, tail: seq<Byte>, minDepth: nat, values: Slots, left: Decoded, right: Decoded)
    requires minDepth <= depth < HEIGHT
    requires left == DecodeNode(tail, depth + 1, values) && left.Done?
    requires right == DecodeNode(left.rest, depth + 1, left.values) && right.Done?
    ensures DecodeNode(BranchRecord(depth, hash) + tail, minDepth, values) ==
            Done(Branch(left.node.key, depth, hash, left.node, right.node), right.rest, right.values)
  {
    BranchRecordBack(depth, hash);
    RecordThen(BranchRecord(depth, hash), tail);
    DecodeUnfolds(BranchRecord(depth, hash) + tail, minDepth, values, depth, hash, left, right);
  }

  lemma DisjointSides(n: Node, values: Slots)
    requires Shape(n) && n.Branch? && Contents(n).Keys !! values.Keys
    ensures Contents(n.left).Keys !! values.Keys
    ensures Contents(n.right).Keys !! (values + Contents(n.left)).Keys
    ensures values + Contents(n.left) + Contents(n.right) == values + Contents(n)
  {
    forall k ensures k in Contents(n.left) ==> k !in Contents(n.right) { SideOf(n, k); }
    ThreeParts(Contents(n.left), Contents(n.right), values);
  }

  lemma ThreeParts(l: Slots, r: Slots, values: Slots)
    requires (forall k :: k in l ==> k !in r) && (l + r).Keys !! values.Keys
    ensures l.Keys !! values.Keys && r.Keys !! (values + l).Keys && values + l + r == values + (l + r)
  {
    forall k | k in l || k in r ensures k !in values { assert k in (l + r).Keys; }
  }

  lemma AppendAssoc(a: seq<Byte>, b: seq<Byte>, c: seq<Byte>, d: seq<Byte>)
    ensures (a + (b + c)) + d == a + (b + (c + d))
  {
  }

  /** Reading an encoded tree returns the tree, the bytes after it, and its slot set. */
  lemma {:induction false} DecodeEncoded(n: Node, rest: seq<Byte>, minDepth: nat, values: Slots)
    requires Shape(n) && minDepth <= Level(n) && Contents(n).Keys !! values.Keys
    ensures DecodeNode(EncodeNode(n) + rest, minDepth, values) == Done(n, rest, values + Contents(n))
    decreases n
  {
    match n
    case Leaf(key, value) =>
      assert key in Contents(n);
      DecodeLeaf(n, rest, minDepth, values);
      assert values[key := value] == values + Contents(n);
    case Branch(_, depth, hash, left, right) =>
      var after := EncodeNode(right) + rest;
      DisjointSides(n, values);
      DecodeEncoded(left, after, depth + 1, values);
      DecodeEncoded(right, rest, depth + 1, values + Contents(left));
      DecodeBranch(depth, hash, EncodeNode(left) + after, minDepth, values,
                   Done(left, after, values + Contents(left)), Done(right, rest, values + Contents(n)));
      AppendAssoc(BranchRecord(depth, hash), EncodeNode(left), EncodeNode(right), rest);
  }

  lemma DecodeWhole(bytes: seq<Byte>, n: Node, values: Slots)
    requires bytes != [] && DecodeNode(bytes, 0, map[]) == Done(n, [], values)
    ensures Decode(bytes) == Trie(Some(n), values)
  {
  }

  lemma UnitsVanish(b: seq<Byte>, m: Slots)
    ensures b + [] == b && map[] + m == m
  {
  }

  /** A restored cache is the cache that was saved: same tree, same slot set. */
  lemma RoundTrip(h: Hasher, root: Option<Node>, values: Slots)
    requires Represents(h, root, values)
    ensures Decode(Encode(root)) == Trie(root, values)
  {
    if root.Some? {
      DecodeEncoded(root.value, [], 0, map[]);
      UnitsVanish(EncodeNode(root.value), values);
      DecodeWhole(EncodeNode(root.value), root.value, values);
    }
  }
}
