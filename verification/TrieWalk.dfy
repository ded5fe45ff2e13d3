/** The structural walk of `crates/indexerd/src/trie_walk.rs`: compare the chain's pool
    trie with the mirror by child hashes and list the differences.

    The endpoint is a parameter: it maps the number of a call and the asked keys to an
    answer, or to a transport error. Answers are honest when every node carries its own
    hash and no edge has length zero. */
module TrieWalk {
  import opened Felts
  import opened Mpt
  import opened MptRoot
  import opened MptProof
  import opened Sorting

  const KEYS_PER_REQUEST: nat := 64
  const MAX_ROUNDS: nat := 300

  type Endpoint = (nat, seq<Felt>) -> Option<seq<ProofNode>>

  /** A subtree still to explain: its prefix and the chain's hash for it. */
  datatype Item = Item(prefix: Bits, hash: Felt)

  /** One reported slot with the mirror's and the chain's value; zero means absent. */
  datatype Row = Row(slot: Felt, ours: Felt, theirs: Felt)

  datatype WalkError = Transport | TooManyRounds | Stalled | EdgeOverruns

  /** What a walk has produced so far. */
  datatype State = State(
    queue: seq<Item>, unexplained: seq<Item>,
    missing: seq<Row>, divergent: seq<Row>, extra: seq<Row>, leaves: nat)

  // ---------------------------------------------------------- honest answers

  ghost predicate HonestNode(h: Hasher, n: ProofNode) {
    n.hash == BodyHash(h, n.body) && (n.body.Edge? ==> n.body.length > 0)
  }

  ghost predicate HonestNodes(h: Hasher, nodes: seq<ProofNode>) {
    forall i :: 0 <= i < |nodes| ==> HonestNode(h, nodes[i])
  }

  ghost predicate HonestEndpoint(h: Hasher, ask: Endpoint) {
    forall i, keys :: ask(i, keys).Some? ==> HonestNodes(h, ask(i, keys).value)
  }

  ghost function ServedBodies(nodes: seq<ProofNode>): iset<Body> {
    iset i | 0 <= i < |nodes| :: nodes[i].body
  }

  ghost function AnswerBodies(answer: Option<seq<ProofNode>>): iset<Body> {
    if answer.Some? then ServedBodies(answer.value) else iset{}
  }

  /** Every node body received so far: in the seed proof, and in the answers to the requests
      `asked`, which are the calls after the one that brought the seed. */
  ghost function Received(seed: seq<ProofNode>, ask: Endpoint, asked: seq<seq<Felt>>): iset<Body> {
    if asked == [] then ServedBodies(seed)
    else
      var n := |asked| - 1;
      Received(seed, ask, asked[..n]) + AnswerBodies(ask(n + 1, asked[n]))
  }

  /** The walk's node table: honest bodies, filed under their hash. */
  ghost predicate HonestTable(h: Hasher, nodes: map<Felt, Body>, served: iset<Body>) {
    forall x :: x in nodes ==> nodes[x] in served && HonestNode(h, ProofNode(x, nodes[x]))
  }

  // ----------------------------------------------------------- open subtrees

  ghost predicate CoveredBy(items: seq<Item>, k: Bits) {
    exists i :: 0 <= i < |items| && Under(items[i].prefix, k)
  }

  /** Some pending subtree still covers `k`. */
  ghost predicate Open(st: State, k: Bits) {
    CoveredBy(st.queue, k) || CoveredBy(st.unexplained, k)
  }

  /** No key lies under both prefixes. */
  ghost predicate Apart(p: Bits, q: Bits) {
    !Under(p, q) && !Under(q, p)
  }

  ghost predicate AllApart(items: seq<Item>) {
    forall i, j :: 0 <= i < j < |items| ==> Apart(items[i].prefix, items[j].prefix)
  }

  ghost predicate BothApart(a: seq<Item>, b: seq<Item>) {
    forall i, j :: 0 <= i < |a| && 0 <= j < |b| ==> Apart(a[i].prefix, b[j].prefix)
  }

  /** An item names the chain's own hash, at a node, a leaf or an empty subtree; only the root
      of an empty chain is empty. */
  ghost predicate ItemOk(h: Hasher, chain: Slots, it: Item)
    requires WfSlots(chain)
  {
    && |it.prefix| <= HEIGHT && it.hash == HashAt(h, chain, it.prefix)
    && (|it.prefix| < HEIGHT && Any(chain, it.prefix) ==> IsNode(chain, it.prefix))
    && (chain != map[] ==> Any(chain, it.prefix))
  }

  ghost predicate ItemsOk(h: Hasher, chain: Slots, items: seq<Item>)
    requires WfSlots(chain)
  {
    forall i :: 0 <= i < |items| ==> ItemOk(h, chain, items[i])
  }

  ghost predicate ItemsFit(items: seq<Item>) {
    forall i :: 0 <= i < |items| ==> |items[i].prefix| <= HEIGHT
  }

  // ------------------------------------------------------------- the results

  function Val(m: Slots, k: Bits): Felt {
    if k in m then m[k] else 0
  }

  function KeyFelt(k: Bits): Felt {
    if |k| <= HEIGHT then PathFelt(k) else 0
  }

  function RowOf(chain: Slots, local: Slots, k: Bits): Row {
    Row(KeyFelt(k), Val(local, k), Val(chain, k))
  }

  function SlotKey(row: Row): nat {
    row.slot
  }

  /** `rows` reports exactly the keys of `keys`, each once. */
  ghost predicate Reported(rows: seq<Row>, keys: set<Bits>, chain: Slots, local: Slots) {
    && DistinctBy(SlotKey, rows)
    && (forall k :: k in keys ==> |k| == HEIGHT && RowOf(chain, local, k) in rows)
    && (forall i :: 0 <= i < |rows| ==> exists k :: k in keys && rows[i] == RowOf(chain, local, k))
  }

  /** The chain's keys no pending subtree covers. */
  ghost function Done(chain: Slots, st: State): set<Bits> {
    set k | k in chain && !Open(st, k)
  }

  ghost function MissingOf(keys: set<Bits>, local: Slots): set<Bits> {
    set k | k in keys && k !in local
  }

  ghost function DivergentOf(keys: set<Bits>, chain: Slots, local: Slots): set<Bits>
    requires keys <= chain.Keys
  {
    set k | k in keys && k in local && chain[k] != local[k]
  }

  /** The mirror's keys reported as extra so far: a walk only sees them under an empty chain. */
  ghost function ExtraDone(chain: Slots, local: Slots, st: State): set<Bits> {
    set k | k in local && chain == map[] && !Open(st, k)
  }

  ghost predicate ExtraOk(st: State, chain: Slots, local: Slots) {
    Reported(st.extra, ExtraDone(chain, local, st), chain, local)
  }

  ghost predicate Exact(chain: Slots, local: Slots, st: State, done: set<Bits>) {
    && done <= chain.Keys
    && st.leaves == |done|
    && Reported(st.missing, MissingOf(done, local), chain, local)
    && Reported(st.divergent, DivergentOf(done, chain, local), chain, local)
  }

  /** The pending subtrees are the chain's own and do not overlap. */
  ghost predicate Pending(h: Hasher, chain: Slots, queue: seq<Item>, unexplained: seq<Item>)
    requires WfSlots(chain)
  {
    && ItemsOk(h, chain, queue) && ItemsOk(h, chain, unexplained)
    && AllApart(queue) && AllApart(unexplained) && BothApart(queue, unexplained)
  }

  /** The walk's invariant: outside the pending subtrees the report is exact. */
  ghost predicate Walking(h: Hasher, chain: Slots, local: Slots, st: State)
    requires WfSlots(chain)
  {
    && Pending(h, chain, st.queue, st.unexplained)
    && Exact(chain, local, st, Done(chain, st))
    && ExtraOk(st, chain, local)
  }

  // ----------------------------------------------------- moving items around

  lemma CoveredAppend(a: seq<Item>, b: seq<Item>, k: Bits)
    ensures CoveredBy(a + b, k) <==> CoveredBy(a, k) || CoveredBy(b, k)
  {
    if CoveredBy(a, k) {
      var i :| 0 <= i < |a| && Under(a[i].prefix, k);
      assert (a + b)[i] == a[i];
    }
    if CoveredBy(b, k) {
      var i :| 0 <= i < |b| && Under(b[i].prefix, k);
      assert (a + b)[|a| + i] == b[i];
    }
  }

  lemma CoveredOne(it: Item, k: Bits)
    ensures CoveredBy([it], k) <==> Under(it.prefix, k)
  {
    assert [it][0] == it;
  }

  lemma Comparable(p: Bits, q: Bits, k: Bits)
    requires Under(p, k) && Under(q, k)
    ensures Under(p, q) || Under(q, p)
  {
    if |p| <= |q| { assert q[..|p|] == k[..|q|][..|p|] == k[..|p|]; } else { assert p[..|q|] == k[..|p|][..|q|] == k[..|q|]; }
  }

  lemma ApartBelow(p: Bits, q: Bits, kid: Bits)
    requires Apart(p, q) && Under(p, kid)
    ensures Apart(kid, q) && Apart(q, kid)
  {
    if Under(kid, q) { UnderTrans(p, kid, q); }
    if Under(q, kid) { Comparable(p, q, kid); }
  }

  /** Items below one popped item replace it. */
  ghost predicate KidsOf(h: Hasher, chain: Slots, it: Item, kids: seq<Item>)
    requires WfSlots(chain)
  {
    && ItemsOk(h, chain, kids) && AllApart(kids)
    && forall i :: 0 <= i < |kids| ==> Under(it.prefix, kids[i].prefix)
  }

  lemma PushKids(h: Hasher, chain: Slots, rest: seq<Item>, u: seq<Item>, it: Item, kids: seq<Item>)
    requires WfSlots(chain) && Pending(h, chain, rest + [it], u) && KidsOf(h, chain, it, kids)
    ensures Pending(h, chain, rest + kids, u)
  {
    var q := rest + [it];
    assert q[|rest|] == it && forall i :: 0 <= i < |rest| ==> q[i] == rest[i];
    var out := rest + kids;
    forall i, j | 0 <= i < j < |out| ensures Apart(out[i].prefix, out[j].prefix) {
      if i < |rest| <= j {
        assert Apart(q[i].prefix, q[|rest|].prefix);
        ApartBelow(it.prefix, rest[i].prefix, kids[j - |rest|].prefix);
      } else if j < |rest| {
        assert Apart(q[i].prefix, q[j].prefix);
      }
    }
    forall i, j | 0 <= i < |out| && 0 <= j < |u| ensures Apart(out[i].prefix, u[j].prefix) {
      if i < |rest| {
        assert Apart(q[i].prefix, u[j].prefix);
      } else {
        assert Apart(q[|rest|].prefix, u[j].prefix);
        ApartBelow(it.prefix, u[j].prefix, kids[i - |rest|].prefix);
      }
    }
  }

  lemma MoveBack(h: Hasher, chain: Slots, rest: seq<Item>, u: seq<Item>, it: Item)
    requires WfSlots(chain) && Pending(h, chain, rest + [it], u)
    ensures Pending(h, chain, rest, u + [it])
  {
    var q := rest + [it];
    assert q[|rest|] == it && forall i :: 0 <= i < |rest| ==> q[i] == rest[i];
    forall i, j | 0 <= i < j < |u + [it]| ensures Apart((u + [it])[i].prefix, (u + [it])[j].prefix) {
      if j == |u| { assert Apart(q[|rest|].prefix, u[i].prefix); }
    }
    forall i, j | 0 <= i < |rest| && 0 <= j < |u + [it]| ensures Apart(rest[i].prefix, (u + [it])[j].prefix) {
      if j == |u| { assert Apart(q[i].prefix, q[|rest|].prefix); } else { assert Apart(q[i].prefix, u[j].prefix); }
    }
  }

  /** A key under the popped item is under no other pending one. */
  lemma OnlyUnderPopped(h: Hasher, chain: Slots, rest: seq<Item>, u: seq<Item>, it: Item, k: Bits)
    requires WfSlots(chain) && Pending(h, chain, rest + [it], u) && Under(it.prefix, k)
    ensures !CoveredBy(rest, k) && !CoveredBy(u, k)
  {
    var q := rest + [it];
    assert q[|rest|] == it;
    if CoveredBy(rest, k) {
      var i :| 0 <= i < |rest| && Under(rest[i].prefix, k);
      assert Apart(q[i].prefix, q[|rest|].prefix);
      Comparable(rest[i].prefix, it.prefix, k);
    }
    if CoveredBy(u, k) {
      var i :| 0 <= i < |u| && Under(u[i].prefix, k);
      assert Apart(q[|rest|].prefix, u[i].prefix);
      Comparable(u[i].prefix, it.prefix, k);
    }
  }

  // ------------------------------------------------------------- walk steps

  ghost function KeysUnder(m: Slots, p: Bits): set<Bits> {
    set k | k in m && Under(p, k)
  }

  /** `st'` pops `it` and changes no other pending item. */
  ghost predicate Pops(st: State, it: Item, st': State) {
    st.queue == st'.queue + [it] && st'.unexplained == st.unexplained
  }

  lemma OpenAfterPop(st: State, it: Item, st': State, k: Bits)
    requires Pops(st, it, st')
    ensures Open(st, k) <==> Open(st', k) || Under(it.prefix, k)
  {
    CoveredAppend(st'.queue, [it], k);
    CoveredOne(it, k);
  }

  /** Popping an item settles exactly the chain's keys under it. */
  lemma DoneAfterPop(h: Hasher, chain: Slots, st: State, it: Item, st': State)
    requires WfSlots(chain) && Pending(h, chain, st.queue, st.unexplained) && Pops(st, it, st')
    ensures Pending(h, chain, st'.queue, st'.unexplained)
    ensures Done(chain, st') == Done(chain, st) + KeysUnder(chain, it.prefix)
    ensures Done(chain, st) !! KeysUnder(chain, it.prefix)
  {
    PushKids(h, chain, st'.queue, st.unexplained, it, []);
    assert st'.queue + [] == st'.queue;
    forall k ensures k in Done(chain, st') <==> k in Done(chain, st) || k in KeysUnder(chain, it.prefix) {
      OpenAfterPop(st, it, st', k);
      if Under(it.prefix, k) { OnlyUnderPopped(h, chain, st'.queue, st.unexplained, it, k); }
    }
    forall k | k in KeysUnder(chain, it.prefix) ensures k !in Done(chain, st) { OpenAfterPop(st, it, st', k); }
  }

  lemma SlotsDiffer(j: Bits, k: Bits)
    requires |j| == |k| == HEIGHT && j != k
    ensures KeyFelt(j) != KeyFelt(k)
  {
    if KeyFelt(j) == KeyFelt(k) { ValueInjective(j, k); }
  }

  lemma ReportOne(rows: seq<Row>, keys: set<Bits>, chain: Slots, local: Slots, k: Bits)
    requires Reported(rows, keys, chain, local) && k !in keys && |k| == HEIGHT
    ensures Reported(rows + [RowOf(chain, local, k)], keys + {k}, chain, local)
  {
    var out := rows + [RowOf(chain, local, k)];
    assert out[|rows|] == RowOf(chain, local, k);
    forall j | j in keys + {k} ensures RowOf(chain, local, j) in out {
      if j != k { assert RowOf(chain, local, j) in rows; }
    }
    forall i | 0 <= i < |rows| ensures out[i].slot != KeyFelt(k) && exists j :: j in keys + {k} && out[i] == RowOf(chain, local, j) {
      var j :| j in keys && rows[i] == RowOf(chain, local, j);
      assert j in keys + {k};
      SlotsDiffer(j, k);
    }
    assert k in keys + {k};
  }

  lemma ExtraKept(st: State, st': State, chain: Slots, local: Slots)
    requires ExtraOk(st, chain, local) && st'.extra == st.extra
    requires chain != map[] || forall k :: k in local ==> (Open(st', k) <==> Open(st, k))
    ensures ExtraOk(st', chain, local)
  {
    assert ExtraDone(chain, local, st') == ExtraDone(chain, local, st);
  }

  /** Equal hashes: the subtree is identical on both sides and is only counted. */
  lemma StepPrune(h: Hasher, chain: Slots, local: Slots, st: State, it: Item, st': State)
    requires WfSlots(chain) && Walking(h, chain, local, st) && Pops(st, it, st')
    requires SameUnder(chain, local, it.prefix)
    requires st'.missing == st.missing && st'.divergent == st.divergent && st'.extra == st.extra
    requires st'.leaves == st.leaves + |KeysUnder(chain, it.prefix)|
    ensures Walking(h, chain, local, st')
  {
    DoneAfterPop(h, chain, st, it, st');
    SameAddsNothing(chain, local, Done(chain, st), it.prefix);
    forall k | k in local && chain == map[] ensures Open(st', k) <==> Open(st, k) { OpenAfterPop(st, it, st', k); }
    ExtraKept(st, st', chain, local);
  }

  /** Keys under an identical subtree are neither missing nor divergent. */
  lemma SameAddsNothing(chain: Slots, local: Slots, d: set<Bits>, p: Bits)
    requires SameUnder(chain, local, p) && d <= chain.Keys
    ensures MissingOf(d + KeysUnder(chain, p), local) == MissingOf(d, local)
    ensures DivergentOf(d + KeysUnder(chain, p), chain, local) == DivergentOf(d, chain, local)
  {
  }

  lemma LeafDone(chain: Slots, p: Bits)
    requires WfSlots(chain) && |p| == HEIGHT && p in chain
    ensures KeysUnder(chain, p) == {p}
  {
    assert forall k :: k in chain && Under(p, k) ==> k == p;
    assert Under(p, p);
  }

  /** A leaf popped at full depth settles one more key. */
  lemma LeafPopped(h: Hasher, chain: Slots, st: State, it: Item, st': State)
    requires WfSlots(chain) && Pending(h, chain, st.queue, st.unexplained) && Pops(st, it, st')
    requires |it.prefix| == HEIGHT && it.prefix in chain
    ensures Pending(h, chain, st'.queue, st'.unexplained)
    ensures Done(chain, st') == Done(chain, st) + {it.prefix} && it.prefix !in Done(chain, st)
  {
    DoneAfterPop(h, chain, st, it, st');
    LeafDone(chain, it.prefix);
  }

  lemma ExactMissing(chain: Slots, local: Slots, st: State, st': State, d: set<Bits>, p: Bits)
    requires Exact(chain, local, st, d) && |p| == HEIGHT && p in chain && p !in d && p !in local
    requires st'.missing == st.missing + [RowOf(chain, local, p)] && st'.divergent == st.divergent && st'.leaves == st.leaves + 1
    ensures Exact(chain, local, st', d + {p})
  {
    assert MissingOf(d + {p}, local) == MissingOf(d, local) + {p};
    assert DivergentOf(d + {p}, chain, local) == DivergentOf(d, chain, local);
    ReportOne(st.missing, MissingOf(d, local), chain, local, p);
  }

  lemma ExactDivergent(chain: Slots, local: Slots, st: State, st': State, d: set<Bits>, p: Bits)
    requires Exact(chain, local, st, d) && |p| == HEIGHT && p in chain && p !in d && p in local && chain[p] != local[p]
    requires st'.divergent == st.divergent + [RowOf(chain, local, p)] && st'.missing == st.missing && st'.leaves == st.leaves + 1
    ensures Exact(chain, local, st', d + {p})
  {
    assert MissingOf(d + {p}, local) == MissingOf(d, local);
    assert DivergentOf(d + {p}, chain, local) == DivergentOf(d, chain, local) + {p};
    ReportOne(st.divergent, DivergentOf(d, chain, local), chain, local, p);
  }

  /** At full depth: one chain slot the mirror lacks, or holds at another value. */
  lemma StepLeaf(h: Hasher, chain: Slots, local: Slots, st: State, it: Item, st': State)
    requires WfSlots(chain) && Walking(h, chain, local, st) && Pops(st, it, st')
    requires |it.prefix| == HEIGHT && it.prefix in chain && Val(local, it.prefix) != chain[it.prefix] && WfSlots(local)
    requires st'.missing == st.missing + (if it.prefix in local then [] else [RowOf(chain, local, it.prefix)])
    requires st'.divergent == st.divergent + (if it.prefix in local then [RowOf(chain, local, it.prefix)] else [])
    requires st'.extra == st.extra && st'.leaves == st.leaves + 1
    ensures Walking(h, chain, local, st')
  {
    LeafPopped(h, chain, st, it, st');
    if it.prefix in local {
      assert st'.missing == st.missing;
      ExactDivergent(chain, local, st, st', Done(chain, st), it.prefix);
    } else {
      assert st'.divergent == st.divergent;
      ExactMissing(chain, local, st, st', Done(chain, st), it.prefix);
    }
    ExtraKept(st, st', chain, local);
  }

  /** The chain is empty here, so it is empty everywhere: what the mirror holds below is extra. */
  lemma StepExtra(h: Hasher, chain: Slots, local: Slots, st: State, it: Item, st': State)
    requires WfSlots(chain) && Walking(h, chain, local, st) && Pops(st, it, st') && !Any(chain, it.prefix) && chain == map[]
    requires st'.missing == st.missing && st'.divergent == st.divergent && st'.leaves == st.leaves
    requires Reported(st'.extra, ExtraDone(chain, local, st) + KeysUnder(local, it.prefix), chain, local)
    ensures Walking(h, chain, local, st')
  {
    DoneAfterPop(h, chain, st, it, st');
    assert KeysUnder(chain, it.prefix) == {};
    assert Done(chain, st') == Done(chain, st);
    forall k ensures k in ExtraDone(chain, local, st') <==> k in ExtraDone(chain, local, st) + KeysUnder(local, it.prefix) {
      OpenAfterPop(st, it, st', k);
      if Under(it.prefix, k) { OnlyUnderPopped(h, chain, st'.queue, st.unexplained, it, k); }
    }
    assert ExtraDone(chain, local, st') == ExtraDone(chain, local, st) + KeysUnder(local, it.prefix);
  }

  /** Descending: the children cover every chain key the item covered. */
  lemma StepDescend(h: Hasher, chain: Slots, local: Slots, st: State, it: Item, kids: seq<Item>, st': State)
    requires WfSlots(chain) && Walking(h, chain, local, st) && KidsOf(h, chain, it, kids)
    requires exists rest :: st.queue == rest + [it] && st'.queue == rest + kids
    requires st' == st.(queue := st'.queue)
    requires forall k :: k in chain && Under(it.prefix, k) ==> CoveredBy(kids, k)
    requires Any(chain, it.prefix)
    ensures Walking(h, chain, local, st')
  {
    var rest :| st.queue == rest + [it] && st'.queue == rest + kids;
    PushKids(h, chain, rest, st.unexplained, it, kids);
    forall k ensures Open(st', k) ==> Open(st, k) ensures k in chain && Open(st, k) ==> Open(st', k) {
      CoveredAppend(rest, [it], k);
      CoveredOne(it, k);
      CoveredAppend(rest, kids, k);
      if CoveredBy(kids, k) {
        var i :| 0 <= i < |kids| && Under(kids[i].prefix, k);
        UnderTrans(it.prefix, kids[i].prefix, k);
      }
    }
    assert Done(chain, st') == Done(chain, st);
    ExtraKept(st, st', chain, local);
  }

  /** No node known for this hash: the item waits for the next round. */
  lemma StepWait(h: Hasher, chain: Slots, local: Slots, st: State, it: Item, st': State)
    requires WfSlots(chain) && Walking(h, chain, local, st)
    requires st.queue == st'.queue + [it] && st'.unexplained == st.unexplained + [it]
    requires st' == st.(queue := st'.queue, unexplained := st'.unexplained)
    ensures Walking(h, chain, local, st')
  {
    MoveBack(h, chain, st'.queue, st.unexplained, it);
    forall k ensures Open(st', k) <==> Open(st, k) {
      CoveredAppend(st'.queue, [it], k);
      CoveredAppend(st.unexplained, [it], k);
    }
    assert Done(chain, st') == Done(chain, st);
    ExtraKept(st, st', chain, local);
  }

  // -------------------------------------------------- what the hashes tell

  ghost function BitsIn(es: seq<Entry>): set<Bits> {
    if es == [] then {} else BitsIn(es[..|es| - 1]) + {es[|es| - 1].bits}
  }

  lemma {:induction false} BitsInHas(es: seq<Entry>, k: Bits)
    ensures k in BitsIn(es) <==> exists i :: 0 <= i < |es| && es[i].bits == k
  {
    if es != [] {
      var n := |es| - 1;
      var front := es[..n];
      BitsInHas(front, k);
      assert forall i :: 0 <= i < n ==> front[i] == es[i];
    }
  }

  lemma {:induction false} DistinctSize(es: seq<Entry>)
    requires Sorted(es)
    ensures |BitsIn(es)| == |es|
  {
    if es != [] {
      var n := |es| - 1;
      var front := es[..n];
      SliceOrdered(es, 0, n);
      assert es[0..n] == front;
      DistinctSize(front);
      BitsInHas(front, es[n].bits);
      forall i | 0 <= i < n ensures front[i].bits != es[n].bits { LessTotal(es[i].bits, es[n].bits); }
    }
  }

  lemma RunKeys(es: seq<Entry>, m: Slots, p: Bits)
    requires Lists(es, m, p)
    ensures BitsIn(es) == KeysUnder(m, p) && |es| == |KeysUnder(m, p)|
  {
    DistinctSize(es);
    forall k ensures k in BitsIn(es) <==> k in KeysUnder(m, p) { BitsInHas(es, k); }
  }

  lemma SameKeysUnder(a: Slots, b: Slots, p: Bits)
    requires SameUnder(a, b, p)
    ensures KeysUnder(a, p) == KeysUnder(b, p)
  {
  }

  /** No two nodes among the chain's trie, the mirror's trie and the served ones collide. */
  ghost predicate Clean(h: Hasher, chain: Slots, local: Slots, served: iset<Body>)
    requires WfSlots(chain) && WfSlots(local)
  {
    !HasCollision(h, TrieNodes(h, chain) + TrieNodes(h, local) + served)
  }

  lemma CleanParts(h: Hasher, chain: Slots, local: Slots, served: iset<Body>)
    requires WfSlots(chain) && WfSlots(local) && Clean(h, chain, local, served)
    ensures !HasCollision(h, TrieNodes(h, chain))
    ensures !HasCollision(h, TrieNodes(h, chain) + TrieNodes(h, local))
    ensures !HasCollision(h, TrieNodes(h, chain) + served)
  {
    var all := TrieNodes(h, chain) + TrieNodes(h, local) + served;
    var a, b, c := TrieNodes(h, chain), TrieNodes(h, chain) + TrieNodes(h, local), TrieNodes(h, chain) + served;
    if HasCollision(h, a) { CollisionGrows(h, a, all); }
    if HasCollision(h, b) { CollisionGrows(h, b, all); }
    if HasCollision(h, c) { CollisionGrows(h, c, all); }
  }

  /** The chain's hash is zero exactly where the chain is empty. */
  lemma ZeroMeansEmpty(h: Hasher, chain: Slots, it: Item)
    requires WfSlots(chain) && ItemOk(h, chain, it) && !HasCollision(h, TrieNodes(h, chain))
    ensures it.hash == 0 <==> !Any(chain, it.prefix)
  {
    if Any(chain, it.prefix) { NonEmptyIsNotZero(h, chain, it.prefix); }
  }

  lemma LeafHashes(h: Hasher, m: Slots, p: Bits)
    requires WfSlots(m) && |p| == HEIGHT
    ensures HashAt(h, m, p) == Val(m, p)
  {
    if Any(m, p) {
      AnyAtFullDepth(m, p);
    } else if p in m {
      assert Under(p, p);
    }
  }

  lemma KnownNode(h: Hasher, chain: Slots, nodes: map<Felt, Body>, served: iset<Body>, it: Item)
    requires WfSlots(chain) && ItemOk(h, chain, it) && HonestTable(h, nodes, served)
    requires !HasCollision(h, TrieNodes(h, chain) + served)
    requires |it.prefix| < HEIGHT && Any(chain, it.prefix) && it.hash in nodes
    ensures nodes[it.hash] == NodeAt(h, chain, it.prefix)
  {
    assert HonestNode(h, ProofNode(it.hash, nodes[it.hash]));
    HonestBody(h, chain, it.prefix, nodes[it.hash], served);
  }

  lemma BinaryKids(h: Hasher, chain: Slots, it: Item, l: Felt, r: Felt)
    requires WfSlots(chain) && |it.prefix| < HEIGHT && Any(chain, it.prefix) && NodeAt(h, chain, it.prefix) == Binary(l, r)
    ensures var kids := [Item(it.prefix + [false], l), Item(it.prefix + [true], r)];
            && KidsOf(h, chain, it, kids)
            && forall k :: k in chain && Under(it.prefix, k) ==> CoveredBy(kids, k)
  {
    var p := it.prefix;
    var kids := [Item(p + [false], l), Item(p + [true], r)];
    BinaryChildAt(h, chain, p, false);
    BinaryChildAt(h, chain, p, true);
    SidesApart(p);
    TwoItems(h, chain, kids[0], kids[1]);
    forall k | k in chain && Under(p, k) ensures CoveredBy(kids, k) { OneSide(p, k, kids); }
  }

  lemma TwoItems(h: Hasher, chain: Slots, a: Item, b: Item)
    requires WfSlots(chain) && ItemOk(h, chain, a) && ItemOk(h, chain, b) && Apart(a.prefix, b.prefix)
    ensures ItemsOk(h, chain, [a, b]) && AllApart([a, b])
  {
  }

  lemma SidesApart(p: Bits)
    ensures Apart(p + [false], p + [true]) && Under(p, p + [false]) && Under(p, p + [true])
  {
    var l, r := p + [false], p + [true];
    assert l[|p|] != r[|p|];
  }

  lemma OneSide(p: Bits, k: Bits, kids: seq<Item>)
    requires Under(p, k) && |p| < |k| && |kids| == 2 && kids[0].prefix == p + [false] && kids[1].prefix == p + [true]
    ensures CoveredBy(kids, k)
  {
    UnderStep(p, k, false);
    UnderStep(p, k, true);
    assert Under(kids[if k[|p|] then 1 else 0].prefix, k);
  }

  lemma {:induction false} EdgeKid(h: Hasher, chain: Slots, it: Item, path: Felt, length: Length, child: Felt)
    requires WfSlots(chain) && |it.prefix| < HEIGHT && Any(chain, it.prefix) && NodeAt(h, chain, it.prefix) == Edge(path, length, child)
    ensures 0 < length <= HEIGHT - |it.prefix|
    ensures var kids := [Item(it.prefix + EdgeBits(path, length), child)];
            && KidsOf(h, chain, it, kids)
            && forall k :: k in chain && Under(it.prefix, k) ==> CoveredBy(kids, k)
  {
    var p := it.prefix;
    var bits := Summary(h, chain, p).value.path;
    EdgeChildAt(h, chain, p, bits);
    EdgeBitsRoundTrip(bits);
    var kids := [Item(p + bits, child)];
    forall k | k in chain && Under(p, k) ensures CoveredBy(kids, k) { assert Under(kids[0].prefix, k); }
  }

  // ------------------------------------------------------------ termination

  /** Work left below a prefix: twice the number of leaves there could be, less one. */
  function Weight(p: Bits): nat
    requires |p| <= HEIGHT
  {
    2 * Pow2(HEIGHT - |p|) - 1
  }

  function QueueWeight(items: seq<Item>): nat
    requires ItemsFit(items)
  {
    if items == [] then 0 else QueueWeight(items[..|items| - 1]) + Weight(items[|items| - 1].prefix)
  }

  lemma PushWeight(items: seq<Item>, it: Item)
    requires ItemsFit(items) && |it.prefix| <= HEIGHT
    ensures ItemsFit(items + [it]) && QueueWeight(items + [it]) == QueueWeight(items) + Weight(it.prefix)
  {
    assert (items + [it])[..|items|] == items;
  }

  lemma BinaryWeight(rest: seq<Item>, it: Item, a: Item, b: Item)
    requires ItemsFit(rest) && |it.prefix| < HEIGHT && |a.prefix| == |b.prefix| == |it.prefix| + 1
    ensures ItemsFit(rest + [it]) && ItemsFit(rest + [a, b]) && QueueWeight(rest + [a, b]) < QueueWeight(rest + [it])
  {
    PushWeight(rest, it);
    PushWeight(rest, a);
    PushWeight(rest + [a], b);
    assert rest + [a] + [b] == rest + [a, b];
  }

  lemma EdgeWeight(rest: seq<Item>, it: Item, a: Item)
    requires ItemsFit(rest) && |it.prefix| < |a.prefix| <= HEIGHT
    ensures ItemsFit(rest + [it]) && ItemsFit(rest + [a]) && QueueWeight(rest + [a]) < QueueWeight(rest + [it])
  {
    PushWeight(rest, it);
    PushWeight(rest, a);
    Pow2Monotone(HEIGHT - |a.prefix|, HEIGHT - |it.prefix| - 1);
  }

  // ------------------------------------------------------- one queue element

  datatype Handled = Fail(error: WalkError) | Next(st: State)

  /** `st'` is what a right step makes of `st`. */
  ghost predicate Stepped(h: Hasher, chain: Slots, local: Slots, served: iset<Body>, st: State, r: Handled)
    requires WfSlots(chain) && WfSlots(local)
  {
    Clean(h, chain, local, served) && Walking(h, chain, local, st) ==> r.Next? && Walking(h, chain, local, r.st)
  }

  /** A report list in the making, with the keys it is to report. */
  datatype Listing = Listing(rows: seq<Row>, keys: set<Bits>)

  ghost predicate Complete(list: Listing, chain: Slots, local: Slots) {
    match list
    case Listing(rows, keys) => Reported(rows, keys, chain, local)
  }

  /** The rows of a mirror-only run. */
  method ExtraRows(run: seq<Entry>, extra: seq<Row>, ghost chain: Slots, ghost local: Slots, ghost keys: set<Bits>, ghost p: Bits)
    returns (rows: seq<Row>)
    requires WfSlots(chain) && WfSlots(local) && Lists(run, local, p)
    ensures Reported(extra, keys, chain, local) && !Any(chain, p) && keys !! KeysUnder(local, p) ==>
              Reported(rows, keys + KeysUnder(local, p), chain, local)
  {
    rows := extra;
    ghost var fits := Reported(extra, keys, chain, local) && !Any(chain, p) && keys !! KeysUnder(local, p);
    RunKeys(run, local, p);
    assert keys + BitsIn(run[..0]) == keys;
    for i := 0 to |run|
      invariant fits ==> Complete(Listing(rows, keys + BitsIn(run[..i])), chain, local)
    {
      var slot := BitsToFelt(run[i].bits);
      if fits { ExtraRow(run, chain, local, keys, p, i, rows); }
      rows := rows + [Row(slot, run[i].value, 0)];
    }
    assert run[..|run|] == run;
  }

  lemma FreshBits(run: seq<Entry>, i: nat)
    requires Sorted(run) && i < |run|
    ensures run[i].bits !in BitsIn(run[..i]) && BitsIn(run[..i + 1]) == BitsIn(run[..i]) + {run[i].bits}
  {
    var front := run[..i];
    BitsInHas(front, run[i].bits);
    forall j | 0 <= j < i ensures front[j].bits != run[i].bits { LessTotal(run[j].bits, run[i].bits); }
    assert run[..i + 1][..i] == front;
  }

  lemma ExtraRow(run: seq<Entry>, chain: Slots, local: Slots, keys: set<Bits>, p: Bits, i: nat, rows: seq<Row>)
    requires WfSlots(chain) && WfSlots(local) && Lists(run, local, p) && i < |run| && !Any(chain, p)
    requires keys !! KeysUnder(local, p) && Complete(Listing(rows, keys + BitsIn(run[..i])), chain, local)
    ensures Complete(Listing(rows + [Row(PathFelt(run[i].bits), run[i].value, 0)], keys + BitsIn(run[..i + 1])), chain, local)
  {
    var k := run[i].bits;
    FreshBits(run, i);
    assert k in KeysUnder(local, p) && k !in chain;
    ReportOne(rows, keys + BitsIn(run[..i]), chain, local, k);
    Regroup(keys, BitsIn(run[..i]), k);
  }

  lemma Regroup(a: set<Bits>, b: set<Bits>, k: Bits)
    ensures a + b + {k} == a + (b + {k})
  {
  }

  lemma LastOk(h: Hasher, chain: Slots, local: Slots, st: State, it: Item)
    requires WfSlots(chain) && Walking(h, chain, local, st) && st.queue != [] && it == st.queue[|st.queue| - 1]
    ensures ItemOk(h, chain, it) && ExtraDone(chain, local, st) !! KeysUnder(local, it.prefix)
  {
    var q := st.queue;
    forall k | Under(it.prefix, k) ensures Open(st, k) { assert Under(q[|q| - 1].prefix, k); }
  }

  /** A step shrinks the queue's weight; it only sets aside the last item, when its hash
      is unknown, and only queues strictly longer prefixes. */
  ghost predicate Narrowed(st: State, nodes: map<Felt, Body>, st': State)
    requires st.queue != [] && ItemsFit(st.queue)
  {
    var n := |st.queue| - 1;
    var it := st.queue[n];
    && ItemsFit(st'.queue) && QueueWeight(st'.queue) < QueueWeight(st.queue)
    && (st'.unexplained == st.unexplained || (st'.unexplained == st.unexplained + [it] && it.hash !in nodes && it.hash != 0))
    && |st'.queue| >= n && st'.queue[..n] == st.queue[..n]
    && (forall i :: n <= i < |st'.queue| ==> |it.prefix| < |st'.queue[i].prefix|)
    && (st'.unexplained != st.unexplained ==> |it.prefix| < HEIGHT)
  }

  /** The last queued item and the items before it. */
  ghost predicate Last(st: State, it: Item, rest: seq<Item>) {
    st.queue == rest + [it] && ItemsFit(st.queue)
  }

  /** What a sound step may rely on about the item in hand. */
  lemma GoodItem(h: Hasher, chain: Slots, local: Slots, served: iset<Body>, st: State, it: Item, rest: seq<Item>)
    requires WfSlots(chain) && WfSlots(local) && Last(st, it, rest)
    requires Clean(h, chain, local, served) && Walking(h, chain, local, st)
    ensures ItemOk(h, chain, it) && ExtraDone(chain, local, st) !! KeysUnder(local, it.prefix)
    ensures it.hash == 0 <==> !Any(chain, it.prefix)
    ensures !HasCollision(h, TrieNodes(h, chain) + TrieNodes(h, local)) && !HasCollision(h, TrieNodes(h, chain) + served)
  {
    CleanParts(h, chain, local, served);
    LastOk(h, chain, local, st, it);
    ZeroMeansEmpty(h, chain, it);
  }

  lemma PopNarrows(st: State, nodes: map<Felt, Body>, it: Item, rest: seq<Item>, st': State)
    requires Last(st, it, rest) && st'.queue == rest
    requires st'.unexplained == st.unexplained || (st'.unexplained == st.unexplained + [it] && it.hash !in nodes && it.hash != 0 && |it.prefix| < HEIGHT)
    ensures Narrowed(st, nodes, st')
  {
    RestFits(st, it, rest);
    PushWeight(rest, it);
    assert st.queue[..|rest|] == rest && rest[..|rest|] == rest;
  }

  lemma CasePrune(h: Hasher, chain: Slots, local: Slots, served: iset<Body>, st: State, it: Item, rest: seq<Item>, run: seq<Entry>)
    requires WfSlots(chain) && WfSlots(local) && Last(st, it, rest) && |it.prefix| <= HEIGHT && Lists(run, local, it.prefix)
    requires it.hash == HashAt(h, local, it.prefix)
    ensures Stepped(h, chain, local, served, st, Next(st.(queue := rest, leaves := st.leaves + |run|)))
  {
    if Clean(h, chain, local, served) && Walking(h, chain, local, st) {
      GoodItem(h, chain, local, served, st, it, rest);
      EqualHashes(h, chain, local, it.prefix);
      SameKeysUnder(chain, local, it.prefix);
      RunKeys(run, local, it.prefix);
      StepPrune(h, chain, local, st, it, st.(queue := rest, leaves := st.leaves + |run|));
    }
  }

  lemma CaseExtra(h: Hasher, chain: Slots, local: Slots, served: iset<Body>, st: State, it: Item, rest: seq<Item>, rows: seq<Row>)
    requires WfSlots(chain) && WfSlots(local) && Last(st, it, rest) && it.hash == 0
    requires ExtraOk(st, chain, local) && !Any(chain, it.prefix) && ExtraDone(chain, local, st) !! KeysUnder(local, it.prefix) ==>
               Reported(rows, ExtraDone(chain, local, st) + KeysUnder(local, it.prefix), chain, local)
    ensures Stepped(h, chain, local, served, st, Next(st.(queue := rest, extra := rows)))
  {
    if Clean(h, chain, local, served) && Walking(h, chain, local, st) {
      GoodItem(h, chain, local, served, st, it, rest);
      StepExtra(h, chain, local, st, it, st.(queue := rest, extra := rows));
    }
  }

  /** The state after reporting a differing leaf. */
  function LeafReported(st: State, rest: seq<Item>, row: Row): State {
    if row.ours == 0 then st.(queue := rest, missing := st.missing + [row], leaves := st.leaves + 1)
    else st.(queue := rest, divergent := st.divergent + [row], leaves := st.leaves + 1)
  }

  lemma CaseLeaf(h: Hasher, chain: Slots, local: Slots, served: iset<Body>, st: State, it: Item, rest: seq<Item>)
    requires WfSlots(chain) && WfSlots(local) && Last(st, it, rest) && |it.prefix| == HEIGHT
    requires it.hash != 0 && it.hash != HashAt(h, local, it.prefix)
    ensures Stepped(h, chain, local, served, st,
                    Next(LeafReported(st, rest, Row(PathFelt(it.prefix), HashAt(h, local, it.prefix), it.hash))))
  {
    if Clean(h, chain, local, served) && Walking(h, chain, local, st) {
      GoodItem(h, chain, local, served, st, it, rest);
      LeafHashes(h, local, it.prefix);
      LeafHashes(h, chain, it.prefix);
      AnyAtFullDepth(chain, it.prefix);
      var row := Row(PathFelt(it.prefix), HashAt(h, local, it.prefix), it.hash);
      assert row == RowOf(chain, local, it.prefix);
      assert st.missing + [] == st.missing && st.divergent + [] == st.divergent;
      StepLeaf(h, chain, local, st, it, LeafReported(st, rest, row));
    }
  }

  lemma CaseWait(h: Hasher, chain: Slots, local: Slots, served: iset<Body>, st: State, it: Item, rest: seq<Item>)
    requires WfSlots(chain) && WfSlots(local) && Last(st, it, rest)
    ensures Stepped(h, chain, local, served, st, Next(st.(queue := rest, unexplained := st.unexplained + [it])))
  {
    if Clean(h, chain, local, served) && Walking(h, chain, local, st) {
      StepWait(h, chain, local, st, it, st.(queue := rest, unexplained := st.unexplained + [it]));
    }
  }

  lemma CaseBinary(h: Hasher, chain: Slots, local: Slots, served: iset<Body>, nodes: map<Felt, Body>, st: State, it: Item, rest: seq<Item>, kids: seq<Item>)
    requires WfSlots(chain) && WfSlots(local) && Last(st, it, rest) && HonestTable(h, nodes, served)
    requires |it.prefix| < HEIGHT && it.hash != 0 && it.hash in nodes && nodes[it.hash].Binary?
    requires kids == [Item(it.prefix + [false], nodes[it.hash].left), Item(it.prefix + [true], nodes[it.hash].right)]
    ensures Stepped(h, chain, local, served, st, Next(st.(queue := rest + kids)))
    ensures Narrowed(st, nodes, st.(queue := rest + kids))
  {
    if Clean(h, chain, local, served) && Walking(h, chain, local, st) {
      GoodItem(h, chain, local, served, st, it, rest);
      KnownNode(h, chain, nodes, served, it);
      BinaryKids(h, chain, it, nodes[it.hash].left, nodes[it.hash].right);
      StepDescend(h, chain, local, st, it, kids, st.(queue := rest + kids));
    }
    BinaryNarrows(nodes, st, it, rest, kids);
  }

  lemma BinaryNarrows(nodes: map<Felt, Body>, st: State, it: Item, rest: seq<Item>, kids: seq<Item>)
    requires Last(st, it, rest) && |it.prefix| < HEIGHT && it.hash in nodes && nodes[it.hash].Binary?
    requires kids == [Item(it.prefix + [false], nodes[it.hash].left), Item(it.prefix + [true], nodes[it.hash].right)]
    ensures Narrowed(st, nodes, st.(queue := rest + kids))
  {
    RestFits(st, it, rest);
    BinaryWeight(rest, it, kids[0], kids[1]);
    KidsNarrow(st, nodes, it, rest, kids);
  }

  lemma RestFits(st: State, it: Item, rest: seq<Item>)
    requires Last(st, it, rest)
    ensures ItemsFit(rest) && |it.prefix| <= HEIGHT
  {
    assert forall i :: 0 <= i < |rest| ==> st.queue[i] == rest[i];
    assert st.queue[|rest|] == it;
  }

  lemma KidsNarrow(st: State, nodes: map<Felt, Body>, it: Item, rest: seq<Item>, kids: seq<Item>)
    requires Last(st, it, rest) && ItemsFit(rest + kids) && QueueWeight(rest + kids) < QueueWeight(st.queue)
    requires forall i :: 0 <= i < |kids| ==> |it.prefix| < |kids[i].prefix|
    ensures Narrowed(st, nodes, st.(queue := rest + kids))
  {
    assert st.queue[..|rest|] == rest && (rest + kids)[..|rest|] == rest;
  }

  lemma CaseEdge(h: Hasher, chain: Slots, local: Slots, served: iset<Body>, nodes: map<Felt, Body>, st: State, it: Item, rest: seq<Item>)
    requires WfSlots(chain) && WfSlots(local) && Last(st, it, rest) && HonestTable(h, nodes, served)
    requires |it.prefix| < HEIGHT && it.hash != 0 && it.hash in nodes && nodes[it.hash].Edge?
    ensures var e := nodes[it.hash];
            if |it.prefix| + e.length > HEIGHT then Stepped(h, chain, local, served, st, Fail(EdgeOverruns))
            else
              var next := st.(queue := rest + [Item(it.prefix + EdgeBits(e.path, e.length), e.child)]);
              Stepped(h, chain, local, served, st, Next(next)) && Narrowed(st, nodes, next)
  {
    var e := nodes[it.hash];
    assert HonestNode(h, ProofNode(it.hash, e));
    if Clean(h, chain, local, served) && Walking(h, chain, local, st) {
      GoodItem(h, chain, local, served, st, it, rest);
      KnownNode(h, chain, nodes, served, it);
      EdgeKid(h, chain, it, e.path, e.length, e.child);
      var kids := [Item(it.prefix + EdgeBits(e.path, e.length), e.child)];
      StepDescend(h, chain, local, st, it, kids, st.(queue := rest + kids));
    }
    if |it.prefix| + e.length <= HEIGHT {
      EdgeNarrows(nodes, st, it, rest, Item(it.prefix + EdgeBits(e.path, e.length), e.child));
    }
  }

  lemma EdgeNarrows(nodes: map<Felt, Body>, st: State, it: Item, rest: seq<Item>, kid: Item)
    requires Last(st, it, rest) && |it.prefix| < |kid.prefix| <= HEIGHT
    ensures Narrowed(st, nodes, st.(queue := rest + [kid]))
  {
    RestFits(st, it, rest);
    EdgeWeight(rest, it, kid);
    KidsNarrow(st, nodes, it, rest, [kid]);
  }

  /** The inner loop's body: explain one queued subtree or set it aside. */
  method Handle(h: Hasher, sorted: seq<Entry>, nodes: map<Felt, Body>, st: State,
                ghost chain: Slots, ghost local: Slots, ghost served: iset<Body>)
    returns (r: Handled)
    requires WfSlots(chain) && WfSlots(local) && Lists(sorted, local, [])
    requires HonestTable(h, nodes, served) && st.queue != [] && ItemsFit(st.queue)
    ensures Stepped(h, chain, local, served, st, r)
    ensures r.Next? ==> Narrowed(st, nodes, r.st)
  {
    var n := |st.queue| - 1;
    var it, rest := st.queue[n], st.queue[..n];
    assert Last(st, it, rest);
    SubtreeHashIsHashAt(h, sorted, local, it.prefix);
    var here := SubtreeHashAt(h, sorted, it.prefix);
    var run := EntriesWithPrefix(sorted, it.prefix);
    if here == it.hash {
      CasePrune(h, chain, local, served, st, it, rest, run);
      r := Next(st.(queue := rest, leaves := st.leaves + |run|));
      PopNarrows(st, nodes, it, rest, r.st);
    } else if it.hash == 0 {
      var rows := ExtraRows(run, st.extra, chain, local, ExtraDone(chain, local, st), it.prefix);
      CaseExtra(h, chain, local, served, st, it, rest, rows);
      r := Next(st.(queue := rest, extra := rows));
      PopNarrows(st, nodes, it, rest, r.st);
    } else if |it.prefix| == HEIGHT {
      var slot := BitsToFelt(it.prefix);
      CaseLeaf(h, chain, local, served, st, it, rest);
      r := Next(LeafReported(st, rest, Row(slot, here, it.hash)));
      PopNarrows(st, nodes, it, rest, r.st);
    } else if it.hash !in nodes {
      CaseWait(h, chain, local, served, st, it, rest);
      r := Next(st.(queue := rest, unexplained := st.unexplained + [it]));
      PopNarrows(st, nodes, it, rest, r.st);
    } else {
      r := HandleNode(h, nodes, st, it, rest, chain, local, served);
    }
  }

  /** Descend through a known node. */
  method HandleNode(h: Hasher, nodes: map<Felt, Body>, st: State, it: Item, rest: seq<Item>,
                    ghost chain: Slots, ghost local: Slots, ghost served: iset<Body>)
    returns (r: Handled)
    requires WfSlots(chain) && WfSlots(local) && Last(st, it, rest) && HonestTable(h, nodes, served)
    requires |it.prefix| < HEIGHT && it.hash != 0 && it.hash in nodes
    ensures Stepped(h, chain, local, served, st, r)
    ensures st.queue != [] && (r.Next? ==> Narrowed(st, nodes, r.st))
  {
    match nodes[it.hash] {
      case Binary(left, right) =>
        var kids := [Item(it.prefix + [false], left), Item(it.prefix + [true], right)];
        CaseBinary(h, chain, local, served, nodes, st, it, rest, kids);
        r := Next(st.(queue := rest + kids));
      case Edge(path, length, child) =>
        CaseEdge(h, chain, local, served, nodes, st, it, rest);
        if |it.prefix| + length > HEIGHT {
          return Fail(EdgeOverruns);
        }
        r := Next(st.(queue := rest + [Item(it.prefix + EdgeBits(path, length), child)]));
    }
  }

  // ------------------------------------------------------------------ sorting

  /** The final `sort` of a report list. */
  function SortRows(rows: seq<Row>): seq<Row> {
    Sort(SlotKey, rows)
  }

  /** A list in ascending slot order holding exactly the rows of `keys`. */
  ghost predicate ListsRows(rows: seq<Row>, keys: set<Bits>, chain: Slots, local: Slots) {
    && AscendingBy(SlotKey, rows)
    && (forall k :: k in keys ==> RowOf(chain, local, k) in rows)
    && (forall i :: 0 <= i < |rows| ==> exists k :: k in keys && rows[i] == RowOf(chain, local, k))
  }

  lemma SortedReport(rows: seq<Row>, keys: set<Bits>, chain: Slots, local: Slots)
    requires Reported(rows, keys, chain, local)
    ensures ListsRows(SortRows(rows), keys, chain, local)
  {
    SortAscends(SlotKey, rows);
    forall k | k in keys ensures RowOf(chain, local, k) in SortRows(rows) { SortMembers(SlotKey, rows, RowOf(chain, local, k)); }
    var out := SortRows(rows);
    forall i | 0 <= i < |out| ensures exists k :: k in keys && out[i] == RowOf(chain, local, k) {
      SortMembers(SlotKey, rows, out[i]);
      var j :| 0 <= j < |rows| && rows[j] == out[i];
    }
  }

  // ------------------------------------------------------------------- rounds

  /** Every queued prefix is at least `lo - 1` long and known where it is shorter than
      `lo`; every prefix set aside is at least `lo` long and unknown. */
  ghost predicate Paced(nodes: map<Felt, Body>, st: State, lo: int) {
    && (forall i :: 0 <= i < |st.queue| ==> |st.queue[i].prefix| >= lo - 1 && (|st.queue[i].prefix| >= lo || st.queue[i].hash in nodes))
    && (forall i :: 0 <= i < |st.unexplained| ==> SetAside(nodes, st.unexplained[i], lo))
  }

  ghost predicate SetAside(nodes: map<Felt, Body>, it: Item, lo: int) {
    lo <= |it.prefix| < HEIGHT && it.hash !in nodes && it.hash != 0
  }

  lemma PacedStep(nodes: map<Felt, Body>, st: State, st': State, lo: int)
    requires st.queue != [] && ItemsFit(st.queue) && Paced(nodes, st, lo) && Narrowed(st, nodes, st')
    ensures Paced(nodes, st', lo)
  {
    var n := |st.queue| - 1;
    forall i | 0 <= i < |st'.queue|
      ensures |st'.queue[i].prefix| >= lo - 1 && (|st'.queue[i].prefix| >= lo || st'.queue[i].hash in nodes)
    {
      if i < n { assert st'.queue[i] == st'.queue[..n][i] == st.queue[..n][i] == st.queue[i]; }
    }
  }

  /** One round: drain the queue, setting aside what no known node explains. */
  method Drain(h: Hasher, sorted: seq<Entry>, nodes: map<Felt, Body>, start: State, ghost lo: int,
               ghost chain: Slots, ghost local: Slots, ghost served: iset<Body>)
    returns (r: Handled)
    requires WfSlots(chain) && WfSlots(local) && Lists(sorted, local, [])
    requires HonestTable(h, nodes, served) && ItemsFit(start.queue) && Paced(nodes, start, lo)
    ensures Stepped(h, chain, local, served, start, r)
    ensures r.Next? ==> r.st.queue == [] && Paced(nodes, r.st, lo)
  {
    var st := start;
    while st.queue != []
      invariant ItemsFit(st.queue) && Paced(nodes, st, lo)
      invariant Stepped(h, chain, local, served, start, Next(st))
      decreases QueueWeight(st.queue)
    {
      r := Handle(h, sorted, nodes, st, chain, local, served);
      if r.Fail? {
        return;
      }
      PacedStep(nodes, st, r.st, lo);
      st := r.st;
    }
    r := Next(st);
  }

  // -------------------------------------------------------- asking the chain

  /** `absorb`: file the nodes of an answer; a hash already known keeps its first body. */
  method Absorb(h: Hasher, nodes: map<Felt, Body>, answer: seq<ProofNode>, ghost served: iset<Body>) returns (out: map<Felt, Body>)
    requires HonestTable(h, nodes, served) && HonestNodes(h, answer) && ServedBodies(answer) <= served
    ensures HonestTable(h, out, served) && Extends(nodes, out)
    ensures forall i :: 0 <= i < |answer| ==> answer[i].hash in out
  {
    out := nodes;
    for i := 0 to |answer|
      invariant HonestTable(h, out, served) && Extends(nodes, out)
      invariant forall j :: 0 <= j < i ==> answer[j].hash in out
    {
      if answer[i].hash !in out {
        assert HonestNode(h, answer[i]) && answer[i].body in ServedBodies(answer);
        out := out[answer[i].hash := answer[i].body];
      }
    }
  }

  /** The endpoint answers every call with the whole root-to-key path of each asked key. */
  ghost predicate CompleteEndpoint(h: Hasher, chain: Slots, ask: Endpoint)
    requires WfSlots(chain)
  {
    forall i, keys :: ask(i, keys).Some? && forall j :: 0 <= j < |keys| ==> Answers(h, chain, ask(i, keys).value, KeyBits(keys[j]))
  }

  /** Every node on the path of the first `n` keys is known. */
  ghost predicate KnownPaths(h: Hasher, chain: Slots, nodes: map<Felt, Body>, keys: seq<Felt>, n: nat)
    requires WfSlots(chain) && n <= |keys|
  {
    forall j, d :: 0 <= j < n && 0 <= d < HEIGHT && IsNode(chain, KeyBits(keys[j])[..d]) ==>
      HashAt(h, chain, KeyBits(keys[j])[..d]) in nodes
  }

  lemma PathsAbsorbed(h: Hasher, chain: Slots, nodes: map<Felt, Body>, out: map<Felt, Body>, answer: seq<ProofNode>, keys: seq<Felt>, from: nat, to: nat)
    requires WfSlots(chain) && from <= to <= |keys| && KnownPaths(h, chain, nodes, keys, from) && Extends(nodes, out)
    requires forall i :: 0 <= i < |answer| ==> answer[i].hash in out
    requires forall j :: from <= j < to ==> Answers(h, chain, answer, KeyBits(keys[j]))
    ensures KnownPaths(h, chain, out, keys, to)
  {
    forall j, d | 0 <= j < to && 0 <= d < HEIGHT && IsNode(chain, KeyBits(keys[j])[..d])
      ensures HashAt(h, chain, KeyBits(keys[j])[..d]) in out
    {
      if j >= from {
        assert Answers(h, chain, answer, KeyBits(keys[j]));
        assert ProofNode(HashAt(h, chain, KeyBits(keys[j])[..d]), NodeAt(h, chain, KeyBits(keys[j])[..d])) in answer;
      }
    }
  }

  lemma {:induction false} ReceivedGrows(seed: seq<ProofNode>, ask: Endpoint, a: seq<seq<Felt>>, b: seq<seq<Felt>>)
    requires a <= b
    ensures Received(seed, ask, a) <= Received(seed, ask, b)
    decreases |b|
  {
    if a != b {
      var init := b[..|b| - 1];
      assert a <= init;
      ReceivedGrows(seed, ask, a, init);
    }
  }

  lemma TableKept(h: Hasher, nodes: map<Felt, Body>, few: iset<Body>, more: iset<Body>)
    requires HonestTable(h, nodes, few) && few <= more
    ensures HonestTable(h, nodes, more)
  {
  }

  /** A request of at most 64 keys was made and answered. */
  lemma OneMoreAsked(h: Hasher, nodes: map<Felt, Body>, seed: seq<ProofNode>, ask: Endpoint, asked: seq<seq<Felt>>, chunk: seq<Felt>)
    requires HonestTable(h, nodes, Received(seed, ask, asked)) && ask(|asked| + 1, chunk).Some?
    ensures HonestTable(h, nodes, Received(seed, ask, asked + [chunk]))
    ensures ServedBodies(ask(|asked| + 1, chunk).value) <= Received(seed, ask, asked + [chunk])
  {
    var more := asked + [chunk];
    assert more[..|more| - 1] == asked;
    TableKept(h, nodes, Received(seed, ask, asked), Received(seed, ask, more));
  }

  /** Ask for the keys in requests of at most 64. */
  method AskAll(h: Hasher, nodes: map<Felt, Body>, keys: seq<Felt>, ask: Endpoint, calls: nat,
                ghost seed: seq<ProofNode>, ghost asked: seq<seq<Felt>>, ghost chain: Slots)
    returns (out: Option<map<Felt, Body>>, made: nat, ghost asked': seq<seq<Felt>>)
    requires WfSlots(chain) && HonestEndpoint(h, ask) && calls == |asked| + 1
    requires HonestTable(h, nodes, Received(seed, ask, asked))
    ensures asked <= asked' && made == |asked'| + 1
    ensures forall i :: |asked| <= i < |asked'| ==> 0 < |asked'[i]| <= KEYS_PER_REQUEST
    ensures out.Some? ==> HonestTable(h, out.value, Received(seed, ask, asked')) && Extends(nodes, out.value)
    ensures CompleteEndpoint(h, chain, ask) ==> out.Some? && KnownPaths(h, chain, out.value, keys, |keys|)
  {
    var known := nodes;
    var from := 0;
    made, asked' := calls, asked;
    while from < |keys|
      invariant from <= |keys| && asked <= asked' && made == |asked'| + 1
      invariant forall i :: |asked| <= i < |asked'| ==> 0 < |asked'[i]| <= KEYS_PER_REQUEST
      invariant HonestTable(h, known, Received(seed, ask, asked')) && Extends(nodes, known)
      invariant CompleteEndpoint(h, chain, ask) ==> KnownPaths(h, chain, known, keys, from)
    {
      var to := if from + KEYS_PER_REQUEST <= |keys| then from + KEYS_PER_REQUEST else |keys|;
      var chunk := keys[from..to];
      var answer := ask(made, chunk);
      if answer.None? {
        return None, made, asked';
      }
      OneMoreAsked(h, known, seed, ask, asked', chunk);
      made, asked' := made + 1, asked' + [chunk];
      var more := Absorb(h, known, answer.value, Received(seed, ask, asked'));
      if CompleteEndpoint(h, chain, ask) {
        forall j | from <= j < to ensures Answers(h, chain, answer.value, KeyBits(keys[j])) { assert chunk[j - from] == keys[j]; }
        PathsAbsorbed(h, chain, known, more, answer.value, keys, from, to);
      }
      ExtendsTrans(nodes, known, more);
      known, from := more, to;
    }
    out := Some(known);
  }

  lemma ExtendsTrans(a: map<Felt, Body>, b: map<Felt, Body>, c: map<Felt, Body>)
    requires Extends(a, b) && Extends(b, c)
    ensures Extends(a, c)
  {
  }

  /** The prefix padded with zeros to a full key. */
  function Padded(p: Bits): (k: Bits)
    requires |p| <= HEIGHT
    ensures |k| == HEIGHT && k[..|p|] == p
  {
    p + seq(HEIGHT - |p|, _ => false)
  }

  method CraftKeys(items: seq<Item>) returns (keys: seq<Felt>)
    requires ItemsFit(items)
    ensures |keys| == |items| && forall i :: 0 <= i < |keys| ==> KeyBits(keys[i])[..|items[i].prefix|] == items[i].prefix
  {
    keys := [];
    for i := 0 to |items|
      invariant |keys| == i && forall j :: 0 <= j < i ==> KeyBits(keys[j])[..|items[j].prefix|] == items[j].prefix
    {
      var full := Padded(items[i].prefix);
      var key := BitsToFelt(full);
      PathFeltRoundTrip(full);
      keys := keys + [key];
    }
  }

  // ----------------------------------------------------------------- the walk

  datatype Diff = Diff(missing: seq<Row>, divergent: seq<Row>, extra: seq<Row>, chainLeaves: nat, localLeaves: nat, proofCalls: nat, rounds: nat)

  datatype WalkResult = Failed(error: WalkError) | Walked(diff: Diff)

  /** The mirror's slots a walk lists as extra. An empty subtree is met only at the root of an
      empty chain: binary children and edge targets are never empty. */
  ghost function ExtraOf(chain: Slots, local: Slots): set<Bits> {
    if chain == map[] then local.Keys else {}
  }

  /** The report is right: every list is exactly known, and so is the number of chain slots. */
  ghost predicate RightDiff(chain: Slots, local: Slots, d: Diff) {
    && ListsRows(d.missing, MissingOf(chain.Keys, local), chain, local)
    && ListsRows(d.divergent, DivergentOf(chain.Keys, chain, local), chain, local)
    && ListsRows(d.extra, ExtraOf(chain, local), chain, local)
    && d.chainLeaves == |chain| && d.localLeaves == |local|
  }

  /** `is_clean` */
  predicate IsClean(d: Diff) {
    d.missing == [] && d.divergent == [] && d.extra == []
  }

  lemma EmptyRows(rows: seq<Row>, keys: set<Bits>, chain: Slots, local: Slots)
    requires ListsRows(rows, keys, chain, local)
    ensures rows == [] <==> keys == {}
  {
    if rows != [] {
      var first := rows[0];
      assert exists k :: k in keys && first == RowOf(chain, local, k);
    }
  }

  /** The list of extra slots is complete exactly for an empty chain, or when the mirror holds
      no slot the chain lacks. */
  lemma ExtraComplete(chain: Slots, local: Slots, d: Diff)
    requires RightDiff(chain, local, d)
    ensures ListsRows(d.extra, local.Keys - chain.Keys, chain, local) <==> chain == map[] || local.Keys <= chain.Keys
  {
    var gone := local.Keys - chain.Keys;
    EmptyRows(d.extra, ExtraOf(chain, local), chain, local);
    if ListsRows(d.extra, gone, chain, local) { EmptyRows(d.extra, gone, chain, local); }
    forall k | k in local.Keys ensures k in chain.Keys || k in gone {}
    assert gone == {} <==> local.Keys <= chain.Keys;
    assert chain == map[] ==> gone == local.Keys;
  }

  /** A report is clean exactly when the mirror holds every chain slot at the chain's value,
      and nothing where the chain is empty: other mirror-only slots go unnoticed. */
  lemma CleanMeans(chain: Slots, local: Slots, d: Diff)
    requires RightDiff(chain, local, d)
    ensures IsClean(d) <==> (forall k :: k in chain ==> k in local && local[k] == chain[k]) && (chain == map[] ==> local == map[])
  {
    var missing, divergent, extra := MissingOf(chain.Keys, local), DivergentOf(chain.Keys, chain, local), ExtraOf(chain, local);
    EmptyRows(d.missing, missing, chain, local);
    EmptyRows(d.divergent, divergent, chain, local);
    EmptyRows(d.extra, extra, chain, local);
    if IsClean(d) {
      forall k | k in chain ensures k in local && local[k] == chain[k] { assert k !in missing && k !in divergent; }
    }
    assert local.Keys == {} <==> local == map[];
  }

  /** A mirror holding one slot the chain lacks has another root, and yet the report is clean. */
  lemma UnseenSlot(h: Hasher, chain: Slots, k: Bits, v: Felt, served: iset<Body>, d: Diff)
    requires WfSlots(chain) && chain != map[] && |k| == HEIGHT && k !in chain && v != 0
    requires Clean(h, chain, chain[k := v], served) && RightDiff(chain, chain[k := v], d)
    ensures IsClean(d) && HashAt(h, chain, []) != HashAt(h, chain[k := v], [])
  {
    var local := chain[k := v];
    CleanMeans(chain, local, d);
    CleanParts(h, chain, local, served);
    assert k in local;
    if HashAt(h, chain, []) == HashAt(h, local, []) { EqualRoots(h, chain, local); }
  }

  lemma Requeue(h: Hasher, chain: Slots, local: Slots, st: State)
    requires WfSlots(chain) && Walking(h, chain, local, st) && st.queue == []
    ensures Walking(h, chain, local, st.(queue := st.unexplained, unexplained := []))
  {
    var st' := st.(queue := st.unexplained, unexplained := []);
    assert forall k :: Open(st', k) <==> Open(st, k);
    assert Done(chain, st') == Done(chain, st);
    ExtraKept(st, st', chain, local);
  }

  lemma Finished(h: Hasher, chain: Slots, local: Slots, st: State, sorted: seq<Entry>, calls: nat, rounds: nat)
    requires WfSlots(chain) && Walking(h, chain, local, st) && st.queue == [] && st.unexplained == [] && Lists(sorted, local, [])
    ensures RightDiff(chain, local, Diff(SortRows(st.missing), SortRows(st.divergent), SortRows(st.extra), st.leaves, |sorted|, calls, rounds))
  {
    assert Done(chain, st) == chain.Keys;
    SortedReport(st.missing, MissingOf(chain.Keys, local), chain, local);
    SortedReport(st.divergent, DivergentOf(chain.Keys, chain, local), chain, local);
    assert ExtraDone(chain, local, st) == ExtraOf(chain, local);
    SortedReport(st.extra, ExtraOf(chain, local), chain, local);
    AllKeys(sorted, local);
  }

  lemma AllKeys(sorted: seq<Entry>, m: Slots)
    requires Lists(sorted, m, [])
    ensures |sorted| == |m|
  {
    RunKeys(sorted, m, []);
    assert forall k: Bits :: Under([], k);
    assert KeysUnder(m, []) == m.Keys;
  }

  lemma AlreadyEqual(h: Hasher, chain: Slots, local: Slots, served: iset<Body>, sorted: seq<Entry>)
    requires WfSlots(chain) && WfSlots(local) && Lists(sorted, local, []) && HashAt(h, chain, []) == HashAt(h, local, [])
    requires Clean(h, chain, local, served)
    ensures RightDiff(chain, local, Diff([], [], [], |sorted|, |sorted|, 1, 0))
  {
    CleanParts(h, chain, local, served);
    EqualRoots(h, chain, local);
    AllKeys(sorted, local);
    assert MissingOf(chain.Keys, local) == {} && DivergentOf(chain.Keys, chain, local) == {};
    assert ExtraOf(chain, local) == {};
  }

  lemma FirstRound(h: Hasher, chain: Slots, local: Slots, root: Felt)
    requires WfSlots(chain) && root == HashAt(h, chain, [])
    ensures Walking(h, chain, local, State([Item([], root)], [], [], [], [], 0))
  {
    var st := State([Item([], root)], [], [], [], [], 0);
    forall k ensures Open(st, k) { assert Under(st.queue[0].prefix, k); }
    assert Done(chain, st) == {};
    assert MissingOf({}, local) == {} && DivergentOf({}, chain, local) == {} && ExtraDone(chain, local, st) == {};
    assert forall k: Bits :: Under([], k);
  }

  /** What the endpoint taught explains every subtree that was set aside. */
  lemma Taught(h: Hasher, chain: Slots, local: Slots, served: iset<Body>, st: State, nodes: map<Felt, Body>, out: map<Felt, Body>, keys: seq<Felt>, lo: int, i: nat)
    requires WfSlots(chain) && WfSlots(local) && Clean(h, chain, local, served) && Walking(h, chain, local, st)
    requires Paced(nodes, st, lo) && ItemsFit(st.unexplained) && i < |st.unexplained| == |keys|
    requires KeyBits(keys[i])[..|st.unexplained[i].prefix|] == st.unexplained[i].prefix
    requires KnownPaths(h, chain, out, keys, |keys|)
    ensures st.unexplained[i].hash in out && st.unexplained[i].hash !in nodes && lo <= |st.unexplained[i].prefix| < HEIGHT
  {
    var it := st.unexplained[i];
    assert SetAside(nodes, it, lo) && ItemOk(h, chain, it);
    CleanParts(h, chain, local, served);
    ZeroMeansEmpty(h, chain, it);
    assert IsNode(chain, KeyBits(keys[i])[..|it.prefix|]);
  }

  lemma LearntSomething(nodes: map<Felt, Body>, out: map<Felt, Body>, x: Felt)
    requires Extends(nodes, out) && x in out && x !in nodes
    ensures |out| > |nodes|
  {
    assert nodes.Keys <= out.Keys - {x};
    SubsetSize(nodes.Keys, out.Keys - {x});
  }

  lemma {:induction false} SubsetSize(a: set<Felt>, b: set<Felt>)
    requires a <= b
    ensures |a| <= |b|
  {
    if a != {} {
      var x :| x in a;
      SubsetSize(a - {x}, b - {x});
    }
  }

  /** What holds between two rounds: the frontier waits in `st.queue`. Against a complete
      endpoint every frontier prefix is at least as long as the number of rounds, or one
      shorter and already explained. */
  ghost predicate BetweenRounds(h: Hasher, chain: Slots, local: Slots, served: iset<Body>, nodes: map<Felt, Body>, st: State, rounds: nat, complete: bool)
    requires WfSlots(chain) && WfSlots(local)
  {
    match st
    case State(queue, unexplained, _, _, _, _) =>
      && HonestTable(h, nodes, served) && ItemsFit(queue) && unexplained == []
      && (Clean(h, chain, local, served) ==> Walking(h, chain, local, st))
      && (Clean(h, chain, local, served) && complete ==> rounds <= HEIGHT && Paced(nodes, st, rounds))
  }

  /** A drained round that was answered completely leads to the next one. */
  lemma RoundAnswered(h: Hasher, chain: Slots, local: Slots, served: iset<Body>, st: State, nodes: map<Felt, Body>, out: map<Felt, Body>, keys: seq<Felt>, rounds: nat)
    requires WfSlots(chain) && WfSlots(local) && Clean(h, chain, local, served) && Walking(h, chain, local, st)
    requires rounds > 0 && Paced(nodes, st, rounds - 1) && st.queue == [] && |st.unexplained| == |keys| > 0
    requires forall i :: 0 <= i < |keys| ==> |st.unexplained[i].prefix| <= HEIGHT && KeyBits(keys[i])[..|st.unexplained[i].prefix|] == st.unexplained[i].prefix
    requires KnownPaths(h, chain, out, keys, |keys|) && Extends(nodes, out)
    ensures |out| > |nodes| && rounds <= HEIGHT
    ensures Paced(out, st.(queue := st.unexplained, unexplained := []), rounds)
  {
    forall i | 0 <= i < |keys|
      ensures st.unexplained[i].hash in out && st.unexplained[i].hash !in nodes && rounds - 1 <= |st.unexplained[i].prefix| < HEIGHT
    {
      Taught(h, chain, local, served, st, nodes, out, keys, rounds - 1, i);
    }
    LearntSomething(nodes, out, st.unexplained[0].hash);
  }

  /** What was set aside becomes the next round's queue. */
  lemma NextRound(h: Hasher, chain: Slots, local: Slots, served: iset<Body>, more: iset<Body>, out: map<Felt, Body>, st: State, rounds: nat, complete: bool)
    requires WfSlots(chain) && WfSlots(local) && HonestTable(h, out, more) && st.queue == [] && ItemsFit(st.unexplained)
    requires Clean(h, chain, local, more) ==> Clean(h, chain, local, served)
    requires Clean(h, chain, local, served) ==> Walking(h, chain, local, st)
    requires Clean(h, chain, local, more) && complete ==> rounds <= HEIGHT && Paced(out, st.(queue := st.unexplained, unexplained := []), rounds)
    ensures BetweenRounds(h, chain, local, more, out, st.(queue := st.unexplained, unexplained := []), rounds, complete)
  {
    if Clean(h, chain, local, more) { Requeue(h, chain, local, st); }
  }

  /** What is free of collisions now was so with fewer nodes received. */
  lemma CleanBefore(h: Hasher, chain: Slots, local: Slots, few: iset<Body>, more: iset<Body>)
    requires WfSlots(chain) && WfSlots(local) && few <= more && Clean(h, chain, local, more)
    ensures Clean(h, chain, local, few)
  {
    var a, b := TrieNodes(h, chain) + TrieNodes(h, local) + few, TrieNodes(h, chain) + TrieNodes(h, local) + more;
    if HasCollision(h, a) { CollisionGrows(h, a, b); }
  }

  /** Craft a key for every subtree set aside and ask for them all. */
  method AskRound(h: Hasher, nodes: map<Felt, Body>, st: State, ask: Endpoint, calls: nat, ghost rounds: nat,
                  ghost seed: seq<ProofNode>, ghost asked: seq<seq<Felt>>, ghost chain: Slots, ghost local: Slots)
    returns (out: Option<map<Felt, Body>>, made: nat, ghost asked': seq<seq<Felt>>)
    requires WfSlots(chain) && WfSlots(local) && HonestEndpoint(h, ask) && calls == |asked| + 1
    requires HonestTable(h, nodes, Received(seed, ask, asked))
    requires st.queue == [] && st.unexplained != [] && ItemsFit(st.unexplained) && rounds > 0
    requires Clean(h, chain, local, Received(seed, ask, asked)) && CompleteEndpoint(h, chain, ask) ==>
               Walking(h, chain, local, st) && Paced(nodes, st, rounds - 1)
    ensures made == |asked'| + 1
    ensures Clean(h, chain, local, Received(seed, ask, asked')) ==> Clean(h, chain, local, Received(seed, ask, asked))
    ensures out.Some? ==> HonestTable(h, out.value, Received(seed, ask, asked')) && Extends(nodes, out.value)
    ensures Clean(h, chain, local, Received(seed, ask, asked')) && CompleteEndpoint(h, chain, ask) ==>
              && out.Some? && |out.value| > |nodes| && rounds <= HEIGHT
              && Paced(out.value, st.(queue := st.unexplained, unexplained := []), rounds)
  {
    var keys := CraftKeys(st.unexplained);
    out, made, asked' := AskAll(h, nodes, keys, ask, calls, seed, asked, chain);
    if Clean(h, chain, local, Received(seed, ask, asked')) {
      ReceivedGrows(seed, ask, asked, asked');
      CleanBefore(h, chain, local, Received(seed, ask, asked), Received(seed, ask, asked'));
      if CompleteEndpoint(h, chain, ask) {
        RoundAnswered(h, chain, local, Received(seed, ask, asked), st, nodes, out.value, keys, rounds);
      }
    }
  }

  /** How a round ends: with a bail, with nothing left to explain, or with a new frontier. */
  datatype RoundEnd = Bail(error: WalkError) | Closed(st: State) | Onward(nodes: map<Felt, Body>, st: State)

  ghost predicate EndsRight(h: Hasher, chain: Slots, local: Slots, served: iset<Body>, r: RoundEnd, rounds: nat, complete: bool)
    requires WfSlots(chain) && WfSlots(local)
  {
    match r
    case Bail(_) => !(Clean(h, chain, local, served) && complete)
    case Closed(st) =>
      && st.queue == [] && st.unexplained == [] && (Clean(h, chain, local, served) ==> Walking(h, chain, local, st))
      && (Clean(h, chain, local, served) && complete ==> rounds <= HEIGHT + 1)
    case Onward(nodes, st) => BetweenRounds(h, chain, local, served, nodes, st, rounds, complete)
  }

  /** One round: drain the frontier, then ask for what no known node explains. */
  method Round(h: Hasher, sorted: seq<Entry>, nodes: map<Felt, Body>, start: State, ask: Endpoint, calls: nat, ghost rounds: nat,
               ghost seed: seq<ProofNode>, ghost asked: seq<seq<Felt>>, ghost chain: Slots, ghost local: Slots)
    returns (r: RoundEnd, made: nat, ghost asked': seq<seq<Felt>>)
    requires WfSlots(chain) && WfSlots(local) && Lists(sorted, local, []) && HonestEndpoint(h, ask) && calls == |asked| + 1 && rounds > 0
    requires BetweenRounds(h, chain, local, Received(seed, ask, asked), nodes, start, rounds - 1, CompleteEndpoint(h, chain, ask))
    ensures made == |asked'| + 1
    ensures EndsRight(h, chain, local, Received(seed, ask, asked'), r, rounds, CompleteEndpoint(h, chain, ask))
  {
    ghost var served := Received(seed, ask, asked);
    ghost var complete := CompleteEndpoint(h, chain, ask);
    made, asked' := calls, asked;
    ghost var lo := if Clean(h, chain, local, served) && complete then rounds - 1 else 0;
    var drained := Drain(h, sorted, nodes, start, lo, chain, local, served);
    if drained.Fail? {
      return Bail(drained.error), made, asked';
    }
    var st := drained.st;
    if st.unexplained == [] {
      return Closed(st), made, asked';
    }
    var out;
    out, made, asked' := AskRound(h, nodes, st, ask, calls, rounds, seed, asked, chain, local);
    if out.None? {
      return Bail(Transport), made, asked';
    }
    if |out.value| == |nodes| {
      return Bail(Stalled), made, asked';
    }
    NextRound(h, chain, local, served, Received(seed, ask, asked'), out.value, st, rounds, complete);
    r := Onward(out.value, st.(queue := st.unexplained, unexplained := []));
  }

  /** `enumerate_missing_slots`. With honest nodes a walk that returns is right, unless nodes it
      received collide; against an endpoint that answers every call with whole paths it does
      return, in at most 252 rounds. */
  method EnumerateMissingSlots(h: Hasher, list: seq<(Felt, Felt)>, chainRoot: Felt, seed: seq<ProofNode>, ask: Endpoint, ghost chain: Slots)
    returns (r: WalkResult, ghost asked: seq<seq<Felt>>)
    requires WfSlots(chain) && chainRoot == HashAt(h, chain, [])
    requires HonestNodes(h, seed) && HonestEndpoint(h, ask)
    ensures Clean(h, chain, SlotMap(list), Received(seed, ask, asked)) && r.Walked? ==> RightDiff(chain, SlotMap(list), r.diff)
    ensures Clean(h, chain, SlotMap(list), Received(seed, ask, asked)) && CompleteEndpoint(h, chain, ask) ==> r.Walked? && r.diff.rounds <= HEIGHT + 1
    ensures r.Walked? ==> r.diff.proofCalls == 1 + |asked|
  {
    ghost var local := SlotMap(list);
    ghost var complete := CompleteEndpoint(h, chain, ask);
    asked := [];
    var sorted := BitEntries(list);
    BitEntriesList(list);
    var nodes := Absorb(h, map[], seed, Received(seed, ask, asked));
    if chainRoot == StorageRoot(h, list) {
      if Clean(h, chain, local, Received(seed, ask, asked)) { AlreadyEqual(h, chain, local, Received(seed, ask, asked), sorted); }
      return Walked(Diff([], [], [], |sorted|, |sorted|, 1, 0)), asked;
    }
    var st := State([Item([], chainRoot)], [], [], [], [], 0);
    FirstRound(h, chain, local, chainRoot);
    var rounds, calls := 0, 1;
    while st.queue != []
      invariant BetweenRounds(h, chain, local, Received(seed, ask, asked), nodes, st, rounds, complete) && calls == 1 + |asked|
      decreases MAX_ROUNDS - rounds
    {
      rounds := rounds + 1;
      if rounds > MAX_ROUNDS {
        return Failed(TooManyRounds), asked;
      }
      var end;
      end, calls, asked := Round(h, sorted, nodes, st, ask, calls, rounds, seed, asked, chain, local);
      match end {
        case Bail(error) => return Failed(error), asked;
        case Closed(last) =>
          st := last;
          break;
        case Onward(more, next) => nodes, st := more, next;
      }
    }
    if Clean(h, chain, local, Received(seed, ask, asked)) { Finished(h, chain, local, st, sorted, calls, rounds); }
    r := Walked(Diff(SortRows(st.missing), SortRows(st.divergent), SortRows(st.extra), st.leaves, |sorted|, calls, rounds));
  }

  // ------------------------------------------------- an endpoint of the chain

  /** The nodes on a key's path at depths below `d`. */
  ghost function PathNodes(h: Hasher, chain: Slots, key: Bits, d: nat): seq<ProofNode>
    requires WfSlots(chain) && |key| == HEIGHT && d <= HEIGHT
  {
    if d == 0 then [] else PathNodes(h, chain, key, d - 1) + NodesAt(h, chain, key[..d - 1])
  }

  /** The trie's node at `p`, when it has one there. */
  ghost function NodesAt(h: Hasher, chain: Slots, p: Bits): seq<ProofNode>
    requires WfSlots(chain)
  {
    if IsNode(chain, p) then [ProofNode(HashAt(h, chain, p), NodeAt(h, chain, p))] else []
  }

  ghost function PathsOf(h: Hasher, chain: Slots, keys: seq<Felt>): seq<ProofNode>
    requires WfSlots(chain)
  {
    if keys == [] then [] else PathsOf(h, chain, keys[..|keys| - 1]) + PathNodes(h, chain, KeyBits(keys[|keys| - 1]), HEIGHT)
  }

  /** The endpoint that serves every asked key's whole path from the chain's own trie. */
  ghost function ChainEndpoint(h: Hasher, chain: Slots): Endpoint
    requires WfSlots(chain)
  {
    (i, keys) => Some(PathsOf(h, chain, keys))
  }

  lemma OwnNodeHonest(h: Hasher, chain: Slots, p: Bits)
    requires WfSlots(chain) && |p| < HEIGHT && Any(chain, p)
    ensures HonestNode(h, ProofNode(HashAt(h, chain, p), NodeAt(h, chain, p)))
  {
    NodeHash(h, chain, p);
  }

  lemma BothHonest(h: Hasher, a: seq<ProofNode>, b: seq<ProofNode>)
    requires HonestNodes(h, a) && HonestNodes(h, b)
    ensures HonestNodes(h, a + b)
  {
  }

  lemma {:induction false} PathNodesHonest(h: Hasher, chain: Slots, key: Bits, d: nat)
    requires WfSlots(chain) && |key| == HEIGHT && d <= HEIGHT
    ensures HonestNodes(h, PathNodes(h, chain, key, d))
  {
    if d > 0 {
      var p := key[..d - 1];
      PathNodesHonest(h, chain, key, d - 1);
      if IsNode(chain, p) { OwnNodeHonest(h, chain, p); }
      BothHonest(h, PathNodes(h, chain, key, d - 1), NodesAt(h, chain, p));
    }
  }

  lemma {:induction false} PathNodesHave(h: Hasher, chain: Slots, key: Bits, d: nat, e: nat, n: ProofNode)
    requires WfSlots(chain) && |key| == HEIGHT && e < d <= HEIGHT && n in NodesAt(h, chain, key[..e])
    ensures n in PathNodes(h, chain, key, d)
    decreases d
  {
    if e < d - 1 { PathNodesHave(h, chain, key, d - 1, e, n); }
  }

  lemma PathAnswers(h: Hasher, chain: Slots, key: Bits)
    requires WfSlots(chain) && |key| == HEIGHT
    ensures Answers(h, chain, PathNodes(h, chain, key, HEIGHT), key)
  {
    forall e | 0 <= e < HEIGHT && IsNode(chain, key[..e])
      ensures ProofNode(HashAt(h, chain, key[..e]), NodeAt(h, chain, key[..e])) in PathNodes(h, chain, key, HEIGHT)
    {
      PathNodesHave(h, chain, key, HEIGHT, e, ProofNode(HashAt(h, chain, key[..e]), NodeAt(h, chain, key[..e])));
    }
  }

  lemma AnswersMore(h: Hasher, chain: Slots, front: seq<ProofNode>, back: seq<ProofNode>, key: Bits)
    requires WfSlots(chain) && |key| == HEIGHT && (Answers(h, chain, front, key) || Answers(h, chain, back, key))
    ensures Answers(h, chain, front + back, key)
  {
  }

  lemma {:induction false} PathsOfMeans(h: Hasher, chain: Slots, keys: seq<Felt>)
    requires WfSlots(chain)
    ensures HonestNodes(h, PathsOf(h, chain, keys))
    ensures forall j :: 0 <= j < |keys| ==> Answers(h, chain, PathsOf(h, chain, keys), KeyBits(keys[j]))
  {
    if keys != [] {
      var init, last := keys[..|keys| - 1], KeyBits(keys[|keys| - 1]);
      PathsOfMeans(h, chain, init);
      PathNodesHonest(h, chain, last, HEIGHT);
      PathAnswers(h, chain, last);
      var front, back := PathsOf(h, chain, init), PathNodes(h, chain, last, HEIGHT);
      BothHonest(h, front, back);
      forall j | 0 <= j < |keys| ensures Answers(h, chain, front + back, KeyBits(keys[j])) {
        assert j < |keys| - 1 ==> init[j] == keys[j];
        AnswersMore(h, chain, front, back, KeyBits(keys[j]));
      }
    }
  }

  /** Such an endpoint is honest and complete, so both hypotheses of a walk can be met for
      every chain. */
  lemma ChainEndpointServes(h: Hasher, chain: Slots)
    requires WfSlots(chain)
    ensures HonestEndpoint(h, ChainEndpoint(h, chain)) && CompleteEndpoint(h, chain, ChainEndpoint(h, chain))
  {
    forall i: nat, keys: seq<Felt>
      ensures HonestNodes(h, ChainEndpoint(h, chain)(i, keys).value)
      ensures forall j :: 0 <= j < |keys| ==> Answers(h, chain, ChainEndpoint(h, chain)(i, keys).value, KeyBits(keys[j]))
    {
      PathsOfMeans(h, chain, keys);
    }
  }
}
