/** Proof verification (`verify_storage_proof` of `crates/feed/src/mpt.rs`): the verifier's
    loop, and its soundness and completeness against the reference trie. */
module MptProof {
  import opened Felts
  import opened Mpt
  import opened MptRoot

  /** A served node with the hash it claims; hexadecimal fields are already parsed. */
  datatype ProofNode = ProofNode(hash: Felt, body: Body)

  datatype Outcome = Member(value: Felt) | NonMember

  datatype ProofError =
    | KeyTooLarge
    | ListedTwice
    | Incomplete(depth: nat)
    | BinaryMismatch(depth: nat)
    | ZeroLengthEdge(depth: nat)
    | EdgeOverrun(depth: nat)
    | EdgePathBits(depth: nat)
    | EdgeMismatch(depth: nat)

  datatype Verdict = Ok(outcome: Outcome) | Err(error: ProofError)

  // --------------------------------------------------------------- verifier

  /** The nodes by claimed hash, unless one hash is listed twice. */
  function Table(nodes: seq<ProofNode>): Option<map<Felt, Body>> {
    if nodes == [] then Some(map[])
    else
      var last := nodes[|nodes| - 1];
      match Table(nodes[..|nodes| - 1])
      case None => None
      case Some(t) => if last.hash in t then None else Some(t[last.hash := last.body])
  }

  /** What one node answers at `depth`: an error, an outcome, or the next hash and depth. */
  datatype Step = Stop(verdict: Verdict) | Go(cur: Felt, depth: nat)

  function Visit(h: Hasher, table: map<Felt, Body>, key: Bits, cur: Felt, depth: nat): (s: Step)
    requires |key| == HEIGHT && depth < HEIGHT
    ensures s.Go? ==> depth < s.depth <= HEIGHT
  {
    if cur == 0 then Stop(Ok(NonMember))
    else if cur !in table then Stop(Err(Incomplete(depth)))
    else match table[cur]
      case Binary(l, r) =>
        if BinaryHash(h, l, r) != cur then Stop(Err(BinaryMismatch(depth)))
        else Go(if key[depth] then r else l, depth + 1)
      case Edge(path, length, child) =>
        if length == 0 then Stop(Err(ZeroLengthEdge(depth)))
        else if length > HEIGHT - depth then Stop(Err(EdgeOverrun(depth)))
        else if !FitsInBits(ToBytes(path), length) then Stop(Err(EdgePathBits(depth)))
        else if EdgeHash(h, child, path, length) != cur then Stop(Err(EdgeMismatch(depth)))
        else if EdgeBits(path, length) != key[depth..depth + length] then Stop(Ok(NonMember))
        else Go(child, depth + length)
  }

  function Walk(h: Hasher, table: map<Felt, Body>, key: Bits, cur: Felt, depth: nat): Verdict
    requires |key| == HEIGHT && depth <= HEIGHT
    decreases HEIGHT - depth
  {
    if depth == HEIGHT then Ok(Member(cur))
    else match Visit(h, table, key, cur, depth)
      case Stop(v) => v
      case Go(next, d) => Walk(h, table, key, next, d)
  }

  function Verify(h: Hasher, root: Felt, nodes: seq<ProofNode>, key: Felt): Verdict {
    if !IsTrieKey(key) then Err(KeyTooLarge)
    else match Table(nodes)
      case None => Err(ListedTwice)
      case Some(t) => Walk(h, t, KeyBits(key), root, 0)
  }

  method IndexNodes(nodes: seq<ProofNode>) returns (t: Option<map<Felt, Body>>)
    ensures t == Table(nodes)
  {
    var byHash: map<Felt, Body> := map[];
    for i := 0 to |nodes|
      invariant Table(nodes[..i]) == Some(byHash)
    {
      assert nodes[..i + 1][..i] == nodes[..i];
      if nodes[i].hash in byHash {
        TablePrefix(nodes, i + 1);
        return None;
      }
      byHash := byHash[nodes[i].hash := nodes[i].body];
    }
    assert nodes[..|nodes|] == nodes;
    t := Some(byHash);
  }

  /** One iteration of the verifier's loop. */
  method VisitNode(h: Hasher, byHash: map<Felt, Body>, bits: Bits, cur: Felt, depth: nat) returns (s: Step)
    requires |bits| == HEIGHT && depth < HEIGHT
    ensures s == Visit(h, byHash, bits, cur, depth)
  {
    if cur == 0 {
      return Stop(Ok(NonMember));
    }
    if cur !in byHash {
      return Stop(Err(Incomplete(depth)));
    }
    match byHash[cur] {
      case Binary(l, r) =>
        if BinaryHash(h, l, r) != cur {
          return Stop(Err(BinaryMismatch(depth)));
        }
        s := Go(if bits[depth] then r else l, depth + 1);
      case Edge(path, length, child) =>
        if length == 0 {
          return Stop(Err(ZeroLengthEdge(depth)));
        }
        if length > HEIGHT - depth {
          return Stop(Err(EdgeOverrun(depth)));
        }
        if !FitsInBits(ToBytes(path), length) {
          return Stop(Err(EdgePathBits(depth)));
        }
        if EdgeHash(h, child, path, length) != cur {
          return Stop(Err(EdgeMismatch(depth)));
        }
        var diverged := EdgeDiverges(path, length, bits, depth);
        if diverged {
          return Stop(Ok(NonMember));
        }
        s := Go(child, depth + length);
    }
  }

  /** `verify_storage_proof`: terminates on every input. */
  method VerifyStorageProof(h: Hasher, root: Felt, nodes: seq<ProofNode>, key: Felt) returns (v: Verdict)
    ensures v == Verify(h, root, nodes, key)
  {
    if !IsTrieKey(key) {
      return Err(KeyTooLarge);
    }
    var byHash := IndexNodes(nodes);
    if byHash.None? {
      return Err(ListedTwice);
    }
    var bits := KeyBits(key);
    var cur, depth := root, 0;
    while depth < HEIGHT
      invariant depth <= HEIGHT
      invariant Walk(h, byHash.value, bits, cur, depth) == Walk(h, byHash.value, bits, root, 0)
      decreases HEIGHT - depth
    {
      var s := VisitNode(h, byHash.value, bits, cur, depth);
      match s {
        case Stop(verdict) => return verdict;
        case Go(next, d) => cur, depth := next, d;
      }
    }
    v := Ok(Member(cur));
  }

  /** The bit-by-bit comparison of an edge path with the key. */
  method EdgeDiverges(path: Felt, length: nat, key: Bits, depth: nat) returns (diverged: bool)
    requires |key| == HEIGHT && depth + length <= HEIGHT
    ensures diverged <==> EdgeBits(path, length) != key[depth..depth + length]
  {
    ghost var edge, part := EdgeBits(path, length), key[depth..depth + length];
    for i := 0 to length
      invariant forall j :: 0 <= j < i ==> edge[j] == part[j]
    {
      EdgeBitAt(path, length, i);
      var pathBit := ByteBit(ToBytes(path), length - 1 - i);
      if pathBit != key[depth + i] {
        assert edge[i] != part[i];
        return true;
      }
      assert edge[i] == part[i];
    }
    diverged := false;
  }

  lemma {:induction false} TablePrefix(nodes: seq<ProofNode>, n: nat)
    requires n <= |nodes| && Table(nodes[..n]) == None
    ensures Table(nodes) == None
    decreases |nodes| - n
  {
    if n == |nodes| {
      assert nodes[..n] == nodes;
    } else {
      assert nodes[..n + 1][..n] == nodes[..n];
      TablePrefix(nodes, n + 1);
    }
  }

  lemma {:induction false} TableMeans(nodes: seq<ProofNode>, x: Felt)
    requires Table(nodes).Some?
    ensures x in Table(nodes).value <==> exists i :: 0 <= i < |nodes| && nodes[i].hash == x
    ensures forall i :: 0 <= i < |nodes| && nodes[i].hash == x ==> Table(nodes).value[x] == nodes[i].body
  {
    if nodes != [] {
      var n := |nodes| - 1;
      var front := nodes[..n];
      TableMeans(front, x);
      assert forall i :: 0 <= i < n ==> front[i] == nodes[i];
    }
  }

  /** The well-formed bodies of a served list, and of a table of it. The verifier refuses every
      other one it meets, so no other one can stand for a collision. */
  ghost function Bodies(nodes: seq<ProofNode>): iset<Body> {
    iset i | 0 <= i < |nodes| && Sane(nodes[i].body) :: nodes[i].body
  }

  ghost function TableBodies(t: map<Felt, Body>): iset<Body> {
    iset x | x in t && Sane(t[x]) :: t[x]
  }

  /** A node that no trie can hold adds nothing to the bodies a collision may be among. */
  lemma JunkIsNoEscape(nodes: seq<ProofNode>, junk: ProofNode)
    requires !Sane(junk.body)
    ensures Bodies(nodes + [junk]) == Bodies(nodes)
  {
    var more := nodes + [junk];
    forall b ensures b in Bodies(more) <==> b in Bodies(nodes) {
      if b in Bodies(nodes) {
        var i :| 0 <= i < |nodes| && Sane(nodes[i].body) && nodes[i].body == b;
        assert more[i] == nodes[i];
      }
    }
  }

  // ---------------------------------------------------- nodes along a key's path

  /** Prefixes where the canonical trie has a node: the root, forks, and fork children. */
  ghost predicate IsNode(m: Slots, p: Bits) {
    |p| < HEIGHT && Any(m, p) && (p == [] || Forks(m, p) || Forks(m, p[..|p| - 1]))
  }

  /** `cur` is the hash of the subtree at `p`, where the trie has a node or a leaf. */
  ghost predicate At(h: Hasher, m: Slots, p: Bits, cur: Felt)
    requires WfSlots(m) && |p| <= HEIGHT
  {
    Any(m, p) && cur == HashAt(h, m, p) && (|p| < HEIGHT ==> IsNode(m, p))
  }

  lemma RootAt(h: Hasher, m: Slots)
    requires WfSlots(m) && Any(m, [])
    ensures At(h, m, [], HashAt(h, m, []))
  {
  }

  lemma ForkChildIsNode(m: Slots, p: Bits, b: bool)
    requires |p| + 1 < HEIGHT && Forks(m, p) && Any(m, p + [b])
    ensures IsNode(m, p + [b])
  {
    assert (p + [b])[..|p|] == p;
  }

  lemma BinaryChildAt(h: Hasher, m: Slots, p: Bits, b: bool)
    requires WfSlots(m) && |p| < HEIGHT && Any(m, p) && NodeAt(h, m, p).Binary?
    ensures At(h, m, p + [b], if b then NodeAt(h, m, p).right else NodeAt(h, m, p).left)
  {
    SummaryForks(h, m, p);
    BinaryChildren(h, m, p, b);
    if |p| + 1 < HEIGHT { ForkChildIsNode(m, p, b); }
  }

  lemma EdgeChildAt(h: Hasher, m: Slots, p: Bits, path: Bits)
    requires WfSlots(m) && |p| < HEIGHT && Any(m, p) && NodeAt(h, m, p).Edge?
    requires path == Summary(h, m, p).value.path
    ensures 0 < |path| <= HEIGHT - |p| && At(h, m, p + path, NodeAt(h, m, p).child)
    ensures NodeAt(h, m, p).length == |path| && NodeAt(h, m, p).path == PathFelt(path)
    ensures forall k :: k in m && Under(p, k) ==> Under(p + path, k)
  {
    EdgeChild(h, m, p, path);
  }

  lemma TakeStep(key: Bits, depth: nat)
    requires depth < |key|
    ensures key[..depth + 1] == key[..depth] + [key[depth]]
  {
  }

  lemma FollowsPath(p: Bits, path: Bits, key: Bits)
    requires Under(p, key) && |p| + |path| <= |key|
    ensures Under(p + path, key) <==> key[|p|..|p| + |path|] == path
    ensures key[|p|..|p| + |path|] == path ==> key[..|p| + |path|] == p + path
  {
    var d := |p| + |path|;
    assert key[..d] == p + key[|p|..d];
    if Under(p + path, key) { assert key[..d][|p|..] == (p + path)[|p|..] == path; }
  }

  /** A walk step is right: it goes on to the trie's next node towards the key, or stops
      because the key is absent. */
  ghost predicate Leads(h: Hasher, m: Slots, key: Bits, s: Step)
    requires WfSlots(m) && |key| == HEIGHT
  {
    match s
    case Stop(v) => v == Ok(NonMember) && key !in m
    case Go(next, d) => d <= HEIGHT && At(h, m, key[..d], next)
  }

  lemma BinaryLeads(h: Hasher, m: Slots, key: Bits, p: Bits, n: Body)
    requires WfSlots(m) && |key| == HEIGHT && |p| < HEIGHT && Under(p, key) && Any(m, p)
    requires n == NodeAt(h, m, p) && n.Binary?
    ensures Leads(h, m, key, Go(if key[|p|] then n.right else n.left, |p| + 1))
  {
    TakeStep(key, |p|);
    BinaryChildAt(h, m, p, key[|p|]);
  }

  /** At an edge the key either follows the edge to its end or is absent. */
  lemma EdgeLeads(h: Hasher, m: Slots, key: Bits, p: Bits, e: Body)
    requires WfSlots(m) && |key| == HEIGHT && |p| < HEIGHT && Under(p, key) && Any(m, p)
    requires e == NodeAt(h, m, p) && e.Edge?
    ensures 0 < e.length <= HEIGHT - |p| && FitsInBits(ToBytes(e.path), e.length)
    ensures EdgeBits(e.path, e.length) == key[|p|..|p| + e.length] ==> Leads(h, m, key, Go(e.child, |p| + e.length))
    ensures EdgeBits(e.path, e.length) != key[|p|..|p| + e.length] ==> key !in m
  {
    var path := Summary(h, m, p).value.path;
    EdgeChildAt(h, m, p, path);
    EdgeBitsRoundTrip(path);
    FitsInBitsMeans(PathFelt(path), |path|);
    FollowsPath(p, path, key);
  }

  // -------------------------------------------------------------- soundness

  /** A body carrying the trie's own hash at a prefix is the trie's own node there. */
  lemma HonestBody(h: Hasher, m: Slots, p: Bits, body: Body, nodes: iset<Body>)
    requires WfSlots(m) && |p| < HEIGHT && Any(m, p)
    requires body in nodes && BodyHash(h, body) == HashAt(h, m, p)
    requires !HasCollision(h, TrieNodes(h, m) + nodes)
    ensures body == NodeAt(h, m, p)
  {
    NodeHash(h, m, p);
    var all := TrieNodes(h, m) + nodes;
    assert body in all && NodeAt(h, m, p) in all;
  }

  /** A well-formed node is filed under its own hash `cur`. */
  ghost predicate Hashes(h: Hasher, table: map<Felt, Body>, cur: Felt) {
    cur in table && Sane(table[cur]) && BodyHash(h, table[cur]) == cur
  }

  /** Without a collision, a non-empty prefix has a non-zero hash and only the trie's own
      node can answer for it. */
  ghost predicate OwnNode(h: Hasher, m: Slots, table: map<Felt, Body>, p: Bits, cur: Felt)
    requires WfSlots(m) && |p| < HEIGHT && Any(m, p)
  {
    cur != 0 && (Hashes(h, table, cur) ==> table[cur] == NodeAt(h, m, p))
  }

  lemma OnlyOwnNode(h: Hasher, m: Slots, table: map<Felt, Body>, p: Bits)
    requires WfSlots(m) && |p| < HEIGHT && Any(m, p)
    requires !HasCollision(h, TrieNodes(h, m) + TableBodies(table))
    ensures OwnNode(h, m, table, p, HashAt(h, m, p))
  {
    var cur := HashAt(h, m, p);
    NonEmptyIsNotZero(h, m, p);
    if HasCollision(h, TrieNodes(h, m)) { CollisionGrows(h, TrieNodes(h, m), TrieNodes(h, m) + TableBodies(table)); }
    if Hashes(h, table, cur) {
      HonestBody(h, m, p, table[cur], TableBodies(table));
    }
  }

  /** An accepted node is the trie's own, so the step it takes is right; a node that is
      there and hashes correctly is accepted. */
  lemma VisitOwn(h: Hasher, m: Slots, table: map<Felt, Body>, key: Bits, depth: nat, cur: Felt)
    requires WfSlots(m) && |key| == HEIGHT && depth < HEIGHT && Any(m, key[..depth])
    requires OwnNode(h, m, table, key[..depth], cur)
    ensures var s := Visit(h, table, key, cur, depth);
            || Leads(h, m, key, s)
            || (s.Stop? && s.verdict.Err? && !Hashes(h, table, cur))
  {
    var p := key[..depth];
    if Hashes(h, table, cur) {
      var n := table[cur];
      assert n == NodeAt(h, m, p) && Under(p, key) && |p| == depth;
      if n.Binary? { BinaryLeads(h, m, key, p, n); } else { EdgeLeads(h, m, key, p, n); }
    }
  }

  /** What a verdict claims about one key of a slot set. */
  ghost predicate Right(m: Slots, key: Bits, v: Verdict) {
    && (v.Ok? && v.outcome.Member? ==> key in m && m[key] == v.outcome.value)
    && (v.Ok? && v.outcome.NonMember? ==> key !in m)
  }

  lemma {:induction false} WalkSound(h: Hasher, m: Slots, table: map<Felt, Body>, key: Bits, depth: nat, cur: Felt)
    requires WfSlots(m) && |key| == HEIGHT && depth <= HEIGHT && At(h, m, key[..depth], cur)
    requires !HasCollision(h, TrieNodes(h, m) + TableBodies(table))
    ensures Right(m, key, Walk(h, table, key, cur, depth))
    decreases HEIGHT - depth
  {
    if depth == HEIGHT {
      assert key[..depth] == key;
      AnyAtFullDepth(m, key);
    } else {
      OnlyOwnNode(h, m, table, key[..depth]);
      VisitOwn(h, m, table, key, depth, cur);
      match Visit(h, table, key, cur, depth)
      case Stop(_) =>
      case Go(next, d) => WalkSound(h, m, table, key, d, next);
    }
  }

  /** Soundness for any node list: against the root of a slot set, `Member(v)` means the
      set maps the key to `v` and `NonMember` that it lacks the key, unless two different
      well-formed nodes among the set's trie and the served list share a hash. */
  lemma ProofSound(h: Hasher, m: Slots, nodes: seq<ProofNode>, key: Felt)
    requires WfSlots(m)
    ensures Right(m, KeyBits(key), Verify(h, HashAt(h, m, []), nodes, key))
            || HasCollision(h, TrieNodes(h, m) + Bodies(nodes))
  {
    var bits := KeyBits(key);
    if IsTrieKey(key) && Table(nodes).Some? {
      var t := Table(nodes).value;
      forall x | x in t && Sane(t[x]) ensures t[x] in Bodies(nodes) { TableMeans(nodes, x); }
      var small, big := TrieNodes(h, m) + TableBodies(t), TrieNodes(h, m) + Bodies(nodes);
      if HasCollision(h, small) {
        CollisionGrows(h, small, big);
      } else {
        assert bits[..0] == [] && Under([], bits);
        if Any(m, []) {
          RootAt(h, m);
          WalkSound(h, m, t, bits, 0, HashAt(h, m, []));
        }
      }
    }
  }

  // ------------------------------------------------------------ completeness

  ghost predicate HasNode(h: Hasher, m: Slots, t: map<Felt, Body>, p: Bits)
    requires WfSlots(m) && IsNode(m, p)
  {
    HashAt(h, m, p) in t && t[HashAt(h, m, p)] == NodeAt(h, m, p)
  }

  /** The table holds every node on the path from the root towards `key`. */
  ghost predicate Serves(h: Hasher, m: Slots, t: map<Felt, Body>, key: Bits)
    requires WfSlots(m) && |key| == HEIGHT
  {
    forall d :: 0 <= d < HEIGHT && IsNode(m, key[..d]) ==> HasNode(h, m, t, key[..d])
  }

  lemma OwnNodeSane(h: Hasher, m: Slots, p: Bits)
    requires WfSlots(m) && |p| < HEIGHT && Any(m, p)
    ensures Sane(NodeAt(h, m, p))
  {
    if NodeAt(h, m, p).Edge? {
      var path := Summary(h, m, p).value.path;
      EdgeChildAt(h, m, p, path);
      EdgeBitsRoundTrip(path);
      FitsInBitsMeans(PathFelt(path), |path|);
    }
  }

  lemma HasOwnNode(h: Hasher, m: Slots, t: map<Felt, Body>, p: Bits)
    requires WfSlots(m) && IsNode(m, p) && HasNode(h, m, t, p) && !HasCollision(h, TrieNodes(h, m))
    ensures var cur := HashAt(h, m, p);
            OwnNode(h, m, t, p, cur) && Hashes(h, t, cur)
  {
    NonEmptyIsNotZero(h, m, p);
    NodeHash(h, m, p);
    OwnNodeSane(h, m, p);
  }

  lemma {:induction false} WalkAnswers(h: Hasher, m: Slots, t: map<Felt, Body>, key: Bits, depth: nat, cur: Felt)
    requires WfSlots(m) && |key| == HEIGHT && depth <= HEIGHT && Serves(h, m, t, key)
    requires At(h, m, key[..depth], cur) && !HasCollision(h, TrieNodes(h, m))
    ensures Walk(h, t, key, cur, depth).Ok?
    decreases HEIGHT - depth
  {
    if depth < HEIGHT {
      HasOwnNode(h, m, t, key[..depth]);
      VisitOwn(h, m, t, key, depth, cur);
      match Visit(h, t, key, cur, depth)
      case Stop(_) =>
      case Go(next, d) => WalkAnswers(h, m, t, key, d, next);
    }
  }

  /** Honest nodes in order of hash, as a served proof lists them. */
  ghost predicate HonestList(h: Hasher, m: Slots, nodes: seq<ProofNode>)
    requires WfSlots(m)
  {
    && (forall i, j :: 0 <= i < j < |nodes| ==> nodes[i].hash < nodes[j].hash)
    && (forall i :: 0 <= i < |nodes| ==> nodes[i].body in TrieNodes(h, m) && nodes[i].hash == BodyHash(h, nodes[i].body))
  }

  lemma {:induction false} DistinctTable(nodes: seq<ProofNode>)
    requires forall i, j :: 0 <= i < j < |nodes| ==> nodes[i].hash < nodes[j].hash
    ensures Table(nodes).Some?
  {
    if nodes != [] {
      var n := |nodes| - 1;
      DistinctTable(nodes[..n]);
      TableMeans(nodes[..n], nodes[n].hash);
    }
  }

  /** The list answers for `key`: every node on the key's path is in it. */
  ghost predicate Answers(h: Hasher, m: Slots, nodes: seq<ProofNode>, key: Bits)
    requires WfSlots(m) && |key| == HEIGHT
  {
    forall d :: 0 <= d < HEIGHT && IsNode(m, key[..d]) ==>
      ProofNode(HashAt(h, m, key[..d]), NodeAt(h, m, key[..d])) in nodes
  }

  lemma AnswersServes(h: Hasher, m: Slots, nodes: seq<ProofNode>, key: Bits)
    requires WfSlots(m) && |key| == HEIGHT && HonestList(h, m, nodes) && Answers(h, m, nodes, key)
    ensures Table(nodes).Some? && Serves(h, m, Table(nodes).value, key)
  {
    DistinctTable(nodes);
    forall d | 0 <= d < HEIGHT && IsNode(m, key[..d]) ensures HasNode(h, m, Table(nodes).value, key[..d]) {
      TableMeans(nodes, HashAt(h, m, key[..d]));
    }
  }

  lemma RootAnswers(h: Hasher, m: Slots, t: map<Felt, Body>, key: Bits)
    requires WfSlots(m) && |key| == HEIGHT && Serves(h, m, t, key) && !HasCollision(h, TrieNodes(h, m))
    ensures Walk(h, t, key, HashAt(h, m, []), 0).Ok?
  {
    assert key[..0] == [];
    if Any(m, []) {
      RootAt(h, m);
      WalkAnswers(h, m, t, key, 0, HashAt(h, m, []));
    }
  }

  lemma VerifyAnswers(h: Hasher, m: Slots, nodes: seq<ProofNode>, key: Felt)
    requires WfSlots(m) && IsTrieKey(key) && !HasCollision(h, TrieNodes(h, m))
    requires HonestList(h, m, nodes) && Answers(h, m, nodes, KeyBits(key))
    ensures Verify(h, HashAt(h, m, []), nodes, key).Ok?
  {
    AnswersServes(h, m, nodes, KeyBits(key));
    RootAnswers(h, m, Table(nodes).value, KeyBits(key));
  }

  lemma HonestBodies(h: Hasher, m: Slots, nodes: seq<ProofNode>)
    requires WfSlots(m) && HonestList(h, m, nodes)
    ensures TrieNodes(h, m) + Bodies(nodes) == TrieNodes(h, m)
  {
  }

  lemma RightAndOk(m: Slots, k: Bits, v: Verdict)
    requires Right(m, k, v) && v.Ok?
    ensures v == Ok(if k in m then Member(m[k]) else NonMember)
  {
  }

  /** Completeness: honest nodes along the key's path make the verifier return the slot's
      value for a member and `NonMember` for an absent key. */
  lemma ProofComplete(h: Hasher, m: Slots, nodes: seq<ProofNode>, key: Felt)
    requires WfSlots(m) && IsTrieKey(key)
    requires HonestList(h, m, nodes) && Answers(h, m, nodes, KeyBits(key))
    ensures var k := KeyBits(key);
            || Verify(h, HashAt(h, m, []), nodes, key) == Ok(if k in m then Member(m[k]) else NonMember)
            || HasCollision(h, TrieNodes(h, m))
  {
    if !HasCollision(h, TrieNodes(h, m)) {
      HonestBodies(h, m, nodes);
      ProofSound(h, m, nodes, key);
      VerifyAnswers(h, m, nodes, key);
      RightAndOk(m, KeyBits(key), Verify(h, HashAt(h, m, []), nodes, key));
    }
  }
}
