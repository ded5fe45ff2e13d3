/** The proof generator `nodes_for` of `crates/e2e-tests/src/storage_proof.rs`, and the
    round trip: what it generates, the verifier accepts. */
module ProofGen {
  import opened Felts
  import opened Mpt
  import opened MptRoot
  import opened MptProof
  import opened Sorting

  /** No prefix strictly inside an edge forks. */
  lemma NoForkInside(m: Slots, p: Bits, q: Bits, r: Bits)
    requires WfSlots(m) && Under(p, r) && |r| < |q| && Under(r, q)
    requires forall k :: k in m && Under(p, k) ==> Under(q, k)
    ensures !Forks(m, r)
  {
    forall k | k in m && Under(p, k) ensures k[|r|] == q[|r|] { assert k[..|q|][|r|] == q[|r|]; }
    if Forks(m, r) {
      var zero :| zero in m && Under(r + [false], zero);
      var one :| one in m && Under(r + [true], one);
      UnderStep(r, zero, false);
      UnderStep(r, one, true);
      UnderTrans(p, r, zero);
      UnderTrans(p, r, one);
    }
  }

  /** Below the start of an edge, the next node on a key's path is the edge's target. */
  lemma EdgeSkips(m: Slots, p: Bits, q: Bits, key: Bits, d: nat)
    requires WfSlots(m) && |p| < |q| && Under(p, q) && Under(p, key) && |key| == HEIGHT
    requires forall k :: k in m && Under(p, k) ==> Under(q, k)
    requires |p| < d < HEIGHT && IsNode(m, key[..d])
    ensures |q| <= d && Under(q, key)
  {
    var r := key[..d];
    var k :| k in m && Under(r, k);
    assert Under(p, r);
    UnderTrans(p, r, k);
    assert Under(q, k);
    assert key[..d] == k[..d];
    if d < |q| {
      assert r == k[..|q|][..d] == q[..d];
      InsideIsNoNode(m, p, q, r);
    } else {
      assert key[..|q|] == k[..d][..|q|] == k[..|q|];
    }
  }

  lemma InsideIsNoNode(m: Slots, p: Bits, q: Bits, r: Bits)
    requires WfSlots(m) && |p| < |r| < |q| && Under(p, r) && Under(r, q)
    requires forall k :: k in m && Under(p, k) ==> Under(q, k)
    ensures !IsNode(m, r)
  {
    var up := r[..|r| - 1];
    assert Under(p, up) by { assert up[..|p|] == r[..|p|]; }
    assert Under(up, q) by { assert q[..|up|] == q[..|r|][..|up|]; }
    NoForkInside(m, p, q, r);
    NoForkInside(m, p, q, up);
  }

  /** Everything gathered is a node of the trie, filed under its hash. */
  ghost predicate Gathered(h: Hasher, m: Slots, out: map<Felt, Body>)
    requires WfSlots(m)
  {
    forall x :: x in out ==> out[x] in TrieNodes(h, m) && BodyHash(h, out[x]) == x
  }

  /** The nodes on the key's path above depth `upto` are gathered. */
  ghost predicate ServesAbove(h: Hasher, m: Slots, t: map<Felt, Body>, key: Bits, upto: nat)
    requires WfSlots(m) && |key| == HEIGHT
  {
    forall d :: 0 <= d < upto && d < HEIGHT && IsNode(m, key[..d]) ==> HasNode(h, m, t, key[..d])
  }

  /** Adding a trie node keeps what was gathered, unless it collides with it. */
  lemma GatherOne(h: Hasher, m: Slots, out: map<Felt, Body>, p: Bits)
    requires WfSlots(m) && |p| < HEIGHT && Any(m, p) && Gathered(h, m, out)
    ensures var out' := out[HashAt(h, m, p) := NodeAt(h, m, p)];
            && Gathered(h, m, out')
            && (HasCollision(h, TrieNodes(h, m)) || Extends(out, out'))
  {
    NodeHash(h, m, p);
    FileOne(h, TrieNodes(h, m), out, HashAt(h, m, p), NodeAt(h, m, p));
  }

  /** Filing a node under its own hash keeps what is filed, or two nodes share a hash. */
  lemma FileOne(h: Hasher, nodes: iset<Body>, out: map<Felt, Body>, x: Felt, n: Body)
    requires n in nodes && BodyHash(h, n) == x && forall y :: y in out ==> out[y] in nodes && BodyHash(h, out[y]) == y
    ensures HasCollision(h, nodes) || Extends(out, out[x := n])
  {
  }

  lemma ServesMore(h: Hasher, m: Slots, t: map<Felt, Body>, t': map<Felt, Body>, key: Bits, upto: nat)
    requires WfSlots(m) && |key| == HEIGHT && ServesAbove(h, m, t, key, upto) && Extends(t, t')
    ensures ServesAbove(h, m, t', key, upto)
  {
    forall d | 0 <= d < upto && d < HEIGHT && IsNode(m, key[..d]) ensures HasNode(h, m, t', key[..d]) {
      assert HasNode(h, m, t, key[..d]);
    }
  }

  /** One more node served, and no further node before depth `next`. */
  lemma ServesNext(h: Hasher, m: Slots, t: map<Felt, Body>, key: Bits, p: Bits, next: nat)
    requires WfSlots(m) && |key| == HEIGHT && |p| < HEIGHT && Under(p, key) && IsNode(m, p)
    requires ServesAbove(h, m, t, key, |p|) && HasNode(h, m, t, p)
    requires forall d :: |p| < d < HEIGHT && IsNode(m, key[..d]) ==> next <= d
    ensures ServesAbove(h, m, t, key, next)
  {
    forall d | 0 <= d < next && d < HEIGHT && IsNode(m, key[..d]) ensures HasNode(h, m, t, key[..d]) {
      if d == |p| { assert key[..d] == p; }
    }
  }

  lemma NothingBelowEmpty(m: Slots, key: Bits, p: Bits, d: nat)
    requires |key| == HEIGHT && Under(p, key) && !Any(m, p) && |p| <= d < HEIGHT
    ensures !IsNode(m, key[..d])
  {
    if Any(m, key[..d]) {
      var k :| k in m && Under(key[..d], k);
      assert key[..d][..|p|] == p;
      UnderTrans(p, key[..d], k);
    }
  }

  /** The node the generator emits at `p` from the ends of the run is the trie's node. */
  lemma EmittedEdge(h: Hasher, es: seq<Entry>, m: Slots, p: Bits, end: nat)
    requires WfSlots(m) && |p| < HEIGHT && es != [] && Lists(es, m, p)
    requires end == FirstDiff(es[0].bits, es[|es| - 1].bits, |p|, HEIGHT) && end > |p|
    ensures var edge := es[0].bits[|p|..end]; var q := es[0].bits[..end];
            && q == p + edge && Any(m, p)
            && NodeAt(h, m, p) == Edge(PathFelt(edge), |edge|, HashAt(h, m, q))
            && At(h, m, q, HashAt(h, m, q))
            && (forall k :: k in m && Under(p, k) ==> Under(q, k))
  {
    EdgeByEnds(h, es, m, p);
    EdgeChildAt(h, m, p, es[0].bits[|p|..end]);
  }

  lemma EmittedBinary(h: Hasher, es: seq<Entry>, m: Slots, p: Bits)
    requires WfSlots(m) && |p| < HEIGHT && es != [] && Lists(es, m, p)
    requires FirstDiff(es[0].bits, es[|es| - 1].bits, |p|, HEIGHT) == |p|
    ensures Any(m, p) && NodeAt(h, m, p) == Binary(HashAt(h, m, p + [false]), HashAt(h, m, p + [true]))
  {
    EdgeByEnds(h, es, m, p);
  }

  method FirstDiffLoop(first: Bits, last: Bits, from: nat) returns (end: nat)
    requires |first| == |last| == HEIGHT && from <= HEIGHT
    ensures end == FirstDiff(first, last, from, HEIGHT)
  {
    end := from;
    while end < HEIGHT && first[end] == last[end]
      invariant from <= end <= HEIGHT
      invariant FirstDiff(first, last, from, HEIGHT) == FirstDiff(first, last, end, HEIGHT)
    {
      end := end + 1;
    }
  }

  /** The next prefix on the way to `path` that can hold a node, if any. */
  ghost predicate NextNode(m: Slots, path: Bits, p: Bits, next: Option<Bits>)
    requires |path| == HEIGHT
  {
    match next
    case None => forall d :: |p| < d < HEIGHT ==> !IsNode(m, path[..d])
    case Some(q) =>
      && |p| < |q| <= HEIGHT && Under(q, path) && (|q| < HEIGHT ==> IsNode(m, q))
      && forall d :: |p| < d < HEIGHT && IsNode(m, path[..d]) ==> |q| <= d
  }

  lemma NextAfterEdge(h: Hasher, m: Slots, path: Bits, p: Bits, edge: Bits)
    requires WfSlots(m) && |path| == HEIGHT && edge != [] && |p| + |edge| <= HEIGHT && Under(p, path)
    requires At(h, m, p + edge, HashAt(h, m, p + edge))
    requires forall k :: k in m && Under(p, k) ==> Under(p + edge, k)
    ensures NextNode(m, path, p, if path[|p|..|p| + |edge|] == edge then Some(p + edge) else None)
  {
    var q := p + edge;
    assert Under(p, q);
    FollowsPath(p, edge, path);
    forall d | |p| < d < HEIGHT && IsNode(m, path[..d]) ensures |q| <= d && Under(q, path) { EdgeSkips(m, p, q, path, d); }
  }

  lemma NextAfterBinary(h: Hasher, m: Slots, path: Bits, p: Bits)
    requires WfSlots(m) && |path| == HEIGHT && |p| < HEIGHT && Under(p, path) && Any(m, p)
    requires NodeAt(h, m, p).Binary?
    ensures NextNode(m, path, p, Some(p + [path[|p|]]))
  {
    BinaryChildAt(h, m, p, path[|p|]);
    TakeStep(path, |p|);
  }

  lemma EdgeEmission(h: Hasher, run: seq<Entry>, m: Slots, path: Bits, p: Bits, end: nat)
    requires WfSlots(m) && |path| == HEIGHT && |p| < HEIGHT && Under(p, path) && run != [] && Lists(run, m, p)
    requires end == FirstDiff(run[0].bits, run[|run| - 1].bits, |p|, HEIGHT) && end > |p|
    ensures var edge := run[0].bits[|p|..end]; var q := run[0].bits[..end];
            && Any(m, p) && NodeAt(h, m, p) == Edge(PathFelt(edge), |edge|, HashAt(h, m, q))
            && NextNode(m, path, p, if path[|p|..end] != edge then None else Some(q))
  {
    EmittedEdge(h, run, m, p, end);
    NextAfterEdge(h, m, path, p, run[0].bits[|p|..end]);
  }

  /** One iteration of the generator: the node at `prefix` and where the key goes next. */
  method EmitNode(h: Hasher, sorted: seq<Entry>, ghost m: Slots, path: Bits, prefix: Bits, run: seq<Entry>)
    returns (body: Body, next: Option<Bits>)
    requires WfSlots(m) && Lists(sorted, m, []) && |path| == HEIGHT && |prefix| < HEIGHT && Under(prefix, path)
    requires run != [] && Lists(run, m, prefix)
    ensures Any(m, prefix) && body == NodeAt(h, m, prefix) && NextNode(m, path, prefix, next)
  {
    var first, last := run[0].bits, run[|run| - 1].bits;
    var end := FirstDiffLoop(first, last, |prefix|);
    if end > |prefix| {
      var edge := first[|prefix|..end];
      EdgeEmission(h, run, m, path, prefix, end);
      SubtreeHashIsHashAt(h, sorted, m, first[..end]);
      var packed := BitsToFelt(edge);
      body := Edge(packed, |edge|, SubtreeHashAt(h, sorted, first[..end]));
      next := if path[|prefix|..end] != edge then None else Some(first[..end]);
    } else {
      EmittedBinary(h, run, m, prefix);
      SubtreeHashIsHashAt(h, sorted, m, prefix + [false]);
      SubtreeHashIsHashAt(h, sorted, m, prefix + [true]);
      body := Binary(SubtreeHashAt(h, sorted, prefix + [false]), SubtreeHashAt(h, sorted, prefix + [true]));
      NextAfterBinary(h, m, path, prefix);
      next := Some(prefix + [path[|prefix|]]);
    }
  }

  /** The generator's loop invariant on the way to `path`. */
  ghost predicate Underway(h: Hasher, m: Slots, start: map<Felt, Body>, out: map<Felt, Body>, path: Bits, p: Bits)
    requires WfSlots(m) && |path| == HEIGHT
  {
    && |p| <= HEIGHT && Under(p, path) && (|p| < HEIGHT && Any(m, p) ==> IsNode(m, p))
    && Gathered(h, m, out)
    && (HasCollision(h, TrieNodes(h, m)) || (Extends(start, out) && ServesAbove(h, m, out, path, |p|)))
  }

  ghost predicate Arrived(h: Hasher, m: Slots, start: map<Felt, Body>, out: map<Felt, Body>, path: Bits)
    requires WfSlots(m) && |path| == HEIGHT
  {
    && Gathered(h, m, out)
    && (HasCollision(h, TrieNodes(h, m)) || (Extends(start, out) && ServesAbove(h, m, out, path, HEIGHT)))
  }

  lemma Advance(h: Hasher, m: Slots, t: map<Felt, Body>, path: Bits, p: Bits, next: Option<Bits>)
    requires WfSlots(m) && |path| == HEIGHT && Under(p, path) && IsNode(m, p) && NextNode(m, path, p, next)
    requires var t' := t[HashAt(h, m, p) := NodeAt(h, m, p)]; Extends(t, t') && ServesAbove(h, m, t, path, |p|)
    ensures var t' := t[HashAt(h, m, p) := NodeAt(h, m, p)];
            ServesAbove(h, m, t', path, if next.Some? then |next.value| else HEIGHT)
  {
    var t' := t[HashAt(h, m, p) := NodeAt(h, m, p)];
    ServesMore(h, m, t, t', path, |p|);
    ServesNext(h, m, t', path, p, if next.Some? then |next.value| else HEIGHT);
  }

  lemma UnderwayNext(h: Hasher, m: Slots, start: map<Felt, Body>, out: map<Felt, Body>, path: Bits, p: Bits, next: Option<Bits>)
    requires WfSlots(m) && |path| == HEIGHT && Underway(h, m, start, out, path, p)
    requires |p| < HEIGHT && Any(m, p) && NextNode(m, path, p, next)
    ensures var out' := out[HashAt(h, m, p) := NodeAt(h, m, p)];
            if next.Some? then Underway(h, m, start, out', path, next.value) else Arrived(h, m, start, out', path)
  {
    GatherOne(h, m, out, p);
    if !HasCollision(h, TrieNodes(h, m)) { Advance(h, m, out, path, p, next); }
  }

  lemma UnderwayEnds(h: Hasher, m: Slots, start: map<Felt, Body>, out: map<Felt, Body>, path: Bits, p: Bits)
    requires WfSlots(m) && |path| == HEIGHT && Underway(h, m, start, out, path, p)
    requires |p| == HEIGHT || !Any(m, p)
    ensures Arrived(h, m, start, out, path)
  {
    if |p| < HEIGHT {
      forall d | |p| <= d < HEIGHT ensures !IsNode(m, path[..d]) { NothingBelowEmpty(m, path, p, d); }
    }
  }

  /** The walk from the root towards one key, emitting every node on the way. */
  method NodesTowards(h: Hasher, sorted: seq<Entry>, ghost m: Slots, path: Bits, start: map<Felt, Body>)
    returns (out: map<Felt, Body>)
    requires WfSlots(m) && Lists(sorted, m, []) && |path| == HEIGHT && Gathered(h, m, start)
    ensures Arrived(h, m, start, out, path)
  {
    out := start;
    var prefix: Bits := [];
    while true
      invariant Underway(h, m, start, out, path, prefix)
      decreases HEIGHT - |prefix|
    {
      SubtreeHashIsHashAt(h, sorted, m, prefix);
      var run := EntriesWithPrefix(sorted, prefix);
      CoversAny(run, m, prefix);
      if run == [] || |prefix| == HEIGHT {
        UnderwayEnds(h, m, start, out, path, prefix);
        return;
      }
      var nodeHash := SubtreeHashAt(h, sorted, prefix);
      var body, next := EmitNode(h, sorted, m, path, prefix, run);
      UnderwayNext(h, m, start, out, path, prefix, next);
      out := out[nodeHash := body];
      if next.None? {
        return;
      }
      prefix := next.value;
    }
  }

  lemma {:induction false} HasLeast(s: set<Felt>) returns (x: Felt)
    requires s != {}
    ensures x in s && forall y :: y in s ==> x <= y
  {
    var a :| a in s;
    var rest := s - {a};
    x := a;
    if rest != {} {
      var b := HasLeast(rest);
      if b < a { x := b; }
      forall y | y in s ensures x <= y { assert y == a || y in rest; }
    } else {
      assert forall y :: y in s ==> y == a by { forall y | y in s ensures y == a { assert y !in rest; } }
    }
  }

  ghost predicate Ascending(nodes: seq<ProofNode>) {
    forall i, j :: 0 <= i < j < |nodes| ==> nodes[i].hash < nodes[j].hash
  }

  /** `nodes` lists `out` outside `rest`. */
  ghost predicate ListsMap(nodes: seq<ProofNode>, out: map<Felt, Body>, rest: set<Felt>) {
    && (forall i :: 0 <= i < |nodes| ==> nodes[i].hash in out && out[nodes[i].hash] == nodes[i].body)
    && (forall x :: x in out && x !in rest ==> ProofNode(x, out[x]) in nodes)
  }

  ghost predicate Drained(nodes: seq<ProofNode>, out: map<Felt, Body>, rest: set<Felt>) {
    && rest <= out.Keys && Ascending(nodes) && ListsMap(nodes, out, rest)
    && forall i, y :: 0 <= i < |nodes| && y in rest ==> nodes[i].hash < y
  }

  lemma AppendLeast(nodes: seq<ProofNode>, out: map<Felt, Body>, rest: set<Felt>, x: Felt)
    requires Drained(nodes, out, rest) && x in rest && forall y :: y in rest ==> x <= y
    ensures x in out && Drained(nodes + [ProofNode(x, out[x])], out, rest - {x})
  {
    assert forall i :: 0 <= i < |nodes| ==> nodes[i].hash < x;
    var more := nodes + [ProofNode(x, out[x])];
    assert more[|nodes|] == ProofNode(x, out[x]);
    forall y | y in out && y !in rest - {x} ensures ProofNode(y, out[y]) in more {
      if y != x { assert ProofNode(y, out[y]) in nodes; }
    }
  }

  /** A map's nodes in ascending hash order. */
  method InHashOrder(out: map<Felt, Body>) returns (nodes: seq<ProofNode>)
    ensures Ascending(nodes) && ListsMap(nodes, out, {})
  {
    nodes := [];
    var rest := out.Keys;
    while rest != {}
      invariant Drained(nodes, out, rest)
      decreases |rest|
    {
      ghost var least := HasLeast(rest);
      assert least in rest && forall y :: y in rest ==> least <= y;
      var x :| x in rest && forall y :: y in rest ==> x <= y;
      AppendLeast(nodes, out, rest, x);
      nodes := nodes + [ProofNode(x, out[x])];
      rest := rest - {x};
    }
  }

  /** The first `n` keys' paths are gathered. */
  ghost predicate Collected(h: Hasher, m: Slots, out: map<Felt, Body>, keys: seq<Felt>, n: nat)
    requires WfSlots(m) && n <= |keys|
  {
    && Gathered(h, m, out)
    && (HasCollision(h, TrieNodes(h, m)) || forall j :: 0 <= j < n ==> ServesAbove(h, m, out, KeyBits(keys[j]), HEIGHT))
  }

  lemma CollectOne(h: Hasher, m: Slots, out: map<Felt, Body>, more: map<Felt, Body>, keys: seq<Felt>, n: nat)
    requires WfSlots(m) && n < |keys| && Collected(h, m, out, keys, n) && Arrived(h, m, out, more, KeyBits(keys[n]))
    ensures Collected(h, m, more, keys, n + 1)
  {
    if HasCollision(h, TrieNodes(h, m)) {
    } else {
      AllServed(h, m, out, more, keys, n);
    }
  }

  lemma AllServed(h: Hasher, m: Slots, out: map<Felt, Body>, more: map<Felt, Body>, keys: seq<Felt>, n: nat)
    requires WfSlots(m) && n < |keys| && Extends(out, more) && ServesAbove(h, m, more, KeyBits(keys[n]), HEIGHT)
    requires forall j :: 0 <= j < n ==> ServesAbove(h, m, out, KeyBits(keys[j]), HEIGHT)
    ensures forall j :: 0 <= j < n + 1 ==> ServesAbove(h, m, more, KeyBits(keys[j]), HEIGHT)
  {
    forall j | 0 <= j < n ensures ServesAbove(h, m, more, KeyBits(keys[j]), HEIGHT) { ServesMore(h, m, out, more, KeyBits(keys[j]), HEIGHT); }
  }

  lemma ListedAnswers(h: Hasher, m: Slots, nodes: seq<ProofNode>, out: map<Felt, Body>, key: Bits)
    requires WfSlots(m) && |key| == HEIGHT && ListsMap(nodes, out, {}) && ServesAbove(h, m, out, key, HEIGHT)
    ensures Answers(h, m, nodes, key)
  {
    forall d | 0 <= d < HEIGHT && IsNode(m, key[..d])
      ensures ProofNode(HashAt(h, m, key[..d]), NodeAt(h, m, key[..d])) in nodes
    {
      assert HasNode(h, m, out, key[..d]);
    }
  }

  /** The list proves every one of the keys. */
  ghost predicate ProvesAll(h: Hasher, m: Slots, nodes: seq<ProofNode>, keys: seq<Felt>)
    requires WfSlots(m)
  {
    && HonestList(h, m, nodes)
    && (HasCollision(h, TrieNodes(h, m)) || forall i :: 0 <= i < |keys| ==> Answers(h, m, nodes, KeyBits(keys[i])))
  }

  lemma CollectedProves(h: Hasher, m: Slots, out: map<Felt, Body>, nodes: seq<ProofNode>, keys: seq<Felt>)
    requires WfSlots(m) && Collected(h, m, out, keys, |keys|) && Ascending(nodes) && ListsMap(nodes, out, {})
    ensures ProvesAll(h, m, nodes, keys)
  {
    if !HasCollision(h, TrieNodes(h, m)) {
      forall i | 0 <= i < |keys| ensures Answers(h, m, nodes, KeyBits(keys[i])) {
        ListedAnswers(h, m, nodes, out, KeyBits(keys[i]));
      }
    }
  }

  /** `nodes_for`: every node on the root-to-key path of each key, in order of hash. */
  method NodesFor(h: Hasher, list: seq<(Felt, Felt)>, keys: seq<Felt>) returns (nodes: seq<ProofNode>)
    ensures ProvesAll(h, SlotMap(list), nodes, keys)
  {
    ghost var m := SlotMap(list);
    BitEntriesList(list);
    var sorted := BitEntries(list);
    var out: map<Felt, Body> := map[];
    for i := 0 to |keys|
      invariant Collected(h, m, out, keys, i)
    {
      var more := NodesTowards(h, sorted, m, KeyBits(keys[i]), out);
      CollectOne(h, m, out, more, keys, i);
      out := more;
    }
    nodes := InHashOrder(out);
    CollectedProves(h, m, out, nodes, keys);
  }

  /** Generate a proof for a batch of keys, then verify one of them against the root: the
      answer is the slot's value, or absence, for every slot set and every batch. */
  method ProveAndVerify(h: Hasher, list: seq<(Felt, Felt)>, keys: seq<Felt>, i: nat) returns (v: Verdict)
    requires i < |keys|
    ensures var m := SlotMap(list); var key := keys[i]; var k := KeyBits(key);
            || HasCollision(h, TrieNodes(h, m))
            || v == (if !IsTrieKey(key) then Err(KeyTooLarge) else Ok(if k in m then Member(m[k]) else NonMember))
  {
    var nodes := NodesFor(h, list, keys);
    v := VerifyStorageProof(h, StorageRoot(h, list), nodes, keys[i]);
    if IsTrieKey(keys[i]) && !HasCollision(h, TrieNodes(h, SlotMap(list))) {
      ProofComplete(h, SlotMap(list), nodes, keys[i]);
    }
  }
}
