/** `crates/feed/src/checkpoint.rs`: bind an untrusted contract proof to an independently
    trusted block header, and return the pool's authenticated storage root.

    The proof is the parsed record; JSON and hexadecimal parsing are not modelled. */
module Checkpoint {
  import opened Felts
  import opened Mpt
  import opened MptRoot
  import opened MirrorLog
  import MptProof

  const MAX_PROOF_BYTES: nat := 256 * 1024
  const MAX_PROOF_NODES: nat := 512

  /** The ASCII bytes of STARKNET_STATE_V0, big-endian. */
  const STATE_COMMITMENT_TAG: Felt := 0x535441524b4e45545f53544154455f5630

  datatype TrustedCheckpoint = TrustedCheckpoint(chainId: string, pool: Felt, blockNumber: Block, blockHash: Felt, stateRoot: Felt)

  datatype Leaf = Leaf(classHash: Felt, nonce: Felt, storageRoot: Felt, contractAddress: Option<Felt>, address: Option<Felt>)

  datatype Proof = Proof(size: nat, nodes: seq<MptProof.ProofNode>, leaves: seq<Leaf>,
                         blockHash: Felt, classesRoot: Felt, contractsRoot: Felt)

  datatype CheckpointError =
    | EmptyChainId
    | BadPool
    | ZeroHeader
    | ProofTooLarge
    | TooManyNodes
    | LeafCount
    | BlockHashMismatch
    | StateRootMismatch
    | AddressMismatch
    | NotDeployed
    | ProofInvalid(error: MptProof.ProofError)
    | LeafMismatch

  datatype Checked = Root(root: Felt) | Refused(error: CheckpointError)

  function StateCommitment(h: Hasher, contractsRoot: Felt, classesRoot: Felt): Felt {
    h.poseidon(STATE_COMMITMENT_TAG, contractsRoot, classesRoot)
  }

  function ContractLeafHash(h: Hasher, classHash: Felt, storageRoot: Felt, nonce: Felt): Felt {
    h.pedersen(h.pedersen(h.pedersen(classHash, storageRoot), nonce), 0)
  }

  /** An address the leaf names, when it names one, is the pool's. */
  predicate NamesPool(named: Option<Felt>, pool: Felt) {
    named.Some? ==> named.value == pool
  }

  /** `verify_checkpoint`, check by check in the source's order. */
  function VerifyCheckpoint(h: Hasher, cp: TrustedCheckpoint, proof: Proof): Checked {
    if cp.chainId == "" then Refused(EmptyChainId)
    else if cp.pool == 0 || !IsTrieKey(cp.pool) then Refused(BadPool)
    else if cp.blockHash == 0 || cp.stateRoot == 0 then Refused(ZeroHeader)
    else if proof.size > MAX_PROOF_BYTES then Refused(ProofTooLarge)
    else if |proof.nodes| > MAX_PROOF_NODES then Refused(TooManyNodes)
    else if |proof.leaves| != 1 then Refused(LeafCount)
    else if proof.blockHash != cp.blockHash then Refused(BlockHashMismatch)
    else if StateCommitment(h, proof.contractsRoot, proof.classesRoot) != cp.stateRoot then Refused(StateRootMismatch)
    else VerifyLeaf(h, cp.pool, proof.contractsRoot, proof.nodes, proof.leaves[0])
  }

  /** The leaf is about the pool, reachable from the contracts root, and commits to exactly
      this class, storage root and nonce. */
  function VerifyLeaf(h: Hasher, pool: Felt, contractsRoot: Felt, nodes: seq<MptProof.ProofNode>, leaf: Leaf): Checked {
    if !NamesPool(leaf.contractAddress, pool) || !NamesPool(leaf.address, pool) then Refused(AddressMismatch)
    else if leaf.classHash == 0 then Refused(NotDeployed)
    else match MptProof.Verify(h, contractsRoot, nodes, pool)
      case Err(e) => Refused(ProofInvalid(e))
      case Ok(NonMember) => Refused(NotDeployed)
      case Ok(Member(hash)) =>
        if hash != ContractLeafHash(h, leaf.classHash, leaf.storageRoot, leaf.nonce) then Refused(LeafMismatch)
        else Root(leaf.storageRoot)
  }

  // ------------------------------------------------- what a header commits to

  /** A deployed pool: its class, nonce and complete storage. */
  datatype Deployed = Deployed(classHash: Felt, nonce: Felt, storage: Slots)

  /** One block's state: every contract's leaf hash, the classes root, and the pool. */
  datatype World = World(contracts: Slots, classesRoot: Felt, pool: Option<Deployed>)

  ghost predicate WfWorld(w: World) {
    WfSlots(w.contracts) && (w.pool.Some? ==> WfSlots(w.pool.value.storage))
  }

  /** The header's state root commits to `w`, in which the pool's leaf is the pool's. */
  ghost predicate Commits(h: Hasher, cp: TrustedCheckpoint, w: World)
    requires WfWorld(w)
  {
    && cp.stateRoot == StateCommitment(h, HashAt(h, w.contracts, []), w.classesRoot)
    && match w.pool
       case None => KeyBits(cp.pool) !in w.contracts
       case Some(d) =>
         KeyBits(cp.pool) in w.contracts
         && w.contracts[KeyBits(cp.pool)] == ContractLeafHash(h, d.classHash, HashAt(h, d.storage, []), d.nonce)
  }

  /** The three pairs hashed into one contract leaf. */
  ghost function LeafPairs(h: Hasher, classHash: Felt, storageRoot: Felt, nonce: Felt): set<(Felt, Felt)> {
    {(classHash, storageRoot), (h.pedersen(classHash, storageRoot), nonce), (h.pedersen(h.pedersen(classHash, storageRoot), nonce), 0)}
  }

  ghost predicate PairsCollide(h: Hasher, pairs: set<(Felt, Felt)>) {
    exists a, b :: a in pairs && b in pairs && a != b && h.pedersen(a.0, a.1) == h.pedersen(b.0, b.1)
  }

  /** The header and the proof reach one commitment from different roots. */
  ghost predicate CommitmentsCollide(h: Hasher, contractsRoot: Felt, classesRoot: Felt, contractsRoot': Felt, classesRoot': Felt) {
    && (contractsRoot, classesRoot) != (contractsRoot', classesRoot')
    && StateCommitment(h, contractsRoot, classesRoot) == StateCommitment(h, contractsRoot', classesRoot')
  }

  /** Two preimages of one hash, among what the proof and the chain really hold; of the proof's
      nodes only well-formed ones count. */
  ghost predicate Broken(h: Hasher, proof: Proof, w: World)
    requires WfWorld(w)
  {
    || CommitmentsCollide(h, HashAt(h, w.contracts, []), w.classesRoot, proof.contractsRoot, proof.classesRoot)
    || HasCollision(h, TrieNodes(h, w.contracts) + MptProof.Bodies(proof.nodes))
    || (w.pool.Some? && |proof.leaves| == 1 && PairsCollide(h, WorldPairs(h, w.pool.value) + ProofPairs(h, proof.leaves[0])))
  }

  ghost function WorldPairs(h: Hasher, d: Deployed): set<(Felt, Felt)>
    requires WfSlots(d.storage)
  {
    LeafPairs(h, d.classHash, HashAt(h, d.storage, []), d.nonce)
  }

  ghost function ProofPairs(h: Hasher, leaf: Leaf): set<(Felt, Felt)> {
    LeafPairs(h, leaf.classHash, leaf.storageRoot, leaf.nonce)
  }

  /** Equal leaf hashes come from equal classes, roots and nonces. */
  lemma EqualLeaves(h: Hasher, c1: Felt, r1: Felt, n1: Felt, c2: Felt, r2: Felt, n2: Felt)
    requires ContractLeafHash(h, c1, r1, n1) == ContractLeafHash(h, c2, r2, n2)
    ensures (c1 == c2 && r1 == r2 && n1 == n2) || PairsCollide(h, LeafPairs(h, c1, r1, n1) + LeafPairs(h, c2, r2, n2))
  {
    var pairs := LeafPairs(h, c1, r1, n1) + LeafPairs(h, c2, r2, n2);
    var a1, a2 := (c1, r1), (c2, r2);
    var b1, b2 := (h.pedersen(c1, r1), n1), (h.pedersen(c2, r2), n2);
    var d1, d2 := (h.pedersen(b1.0, b1.1), 0 as Felt), (h.pedersen(b2.0, b2.1), 0 as Felt);
    assert a1 in pairs && a2 in pairs && b1 in pairs && b2 in pairs && d1 in pairs && d2 in pairs;
    if !PairsCollide(h, pairs) {
      assert d1 == d2;
      assert b1 == b2;
      assert a1 == a2;
    }
  }

  /** The verifier's answer for the pool is what the contracts trie holds. */
  lemma LeafFound(h: Hasher, pool: Felt, contracts: Slots, nodes: seq<MptProof.ProofNode>, leaf: Leaf)
    requires WfSlots(contracts) && !HasCollision(h, TrieNodes(h, contracts) + MptProof.Bodies(nodes))
    requires VerifyLeaf(h, pool, HashAt(h, contracts, []), nodes, leaf).Root?
    ensures KeyBits(pool) in contracts && contracts[KeyBits(pool)] == ContractLeafHash(h, leaf.classHash, leaf.storageRoot, leaf.nonce)
  {
    MptProof.ProofSound(h, contracts, nodes, pool);
  }

  /** The leaf names the deployed pool's own class, storage root and nonce. */
  ghost predicate LeafIs(h: Hasher, leaf: Leaf, pool: Option<Deployed>)
    requires pool.Some? ==> WfSlots(pool.value.storage)
  {
    && pool.Some? && leaf.storageRoot == HashAt(h, pool.value.storage, [])
    && leaf.classHash == pool.value.classHash && leaf.nonce == pool.value.nonce
  }

  lemma LeafSound(h: Hasher, cp: TrustedCheckpoint, proof: Proof, w: World)
    requires WfWorld(w) && Commits(h, cp, w) && proof.contractsRoot == HashAt(h, w.contracts, []) && |proof.leaves| == 1
    requires VerifyLeaf(h, cp.pool, proof.contractsRoot, proof.nodes, proof.leaves[0]).Root?
    requires !HasCollision(h, TrieNodes(h, w.contracts) + MptProof.Bodies(proof.nodes))
    requires w.pool.Some? ==> !PairsCollide(h, WorldPairs(h, w.pool.value) + ProofPairs(h, proof.leaves[0]))
    ensures LeafIs(h, proof.leaves[0], w.pool)
  {
    var leaf := proof.leaves[0];
    LeafFound(h, cp.pool, w.contracts, proof.nodes, leaf);
    var d := w.pool.value;
    EqualLeaves(h, d.classHash, HashAt(h, d.storage, []), d.nonce, leaf.classHash, leaf.storageRoot, leaf.nonce);
  }

  /** A proof that is accepted against an honest header authenticates the deployed pool's own
      storage root, class and nonce, or two preimages of one hash are at hand. */
  lemma CheckpointSound(h: Hasher, cp: TrustedCheckpoint, proof: Proof, w: World)
    requires WfWorld(w) && Commits(h, cp, w)
    requires VerifyCheckpoint(h, cp, proof).Root?
    ensures Broken(h, proof, w)
            || (LeafIs(h, proof.leaves[0], w.pool) && VerifyCheckpoint(h, cp, proof) == Root(HashAt(h, w.pool.value.storage, [])))
  {
    Accepted(h, cp, proof);
    if CommitmentsCollide(h, HashAt(h, w.contracts, []), w.classesRoot, proof.contractsRoot, proof.classesRoot) {
    } else if HasCollision(h, TrieNodes(h, w.contracts) + MptProof.Bodies(proof.nodes)) {
    } else if w.pool.Some? && PairsCollide(h, WorldPairs(h, w.pool.value) + ProofPairs(h, proof.leaves[0])) {
    } else {
      LeafSound(h, cp, proof, w);
    }
  }

  /** What acceptance says of the proof's parts. */
  lemma Accepted(h: Hasher, cp: TrustedCheckpoint, proof: Proof)
    requires VerifyCheckpoint(h, cp, proof).Root?
    ensures |proof.leaves| == 1 && StateCommitment(h, proof.contractsRoot, proof.classesRoot) == cp.stateRoot
    ensures VerifyLeaf(h, cp.pool, proof.contractsRoot, proof.nodes, proof.leaves[0]) == VerifyCheckpoint(h, cp, proof)
    ensures VerifyCheckpoint(h, cp, proof) == Root(proof.leaves[0].storageRoot)
  {
  }

  /** An honest answer about a deployed pool, within the size limits, about a usable header. */
  ghost predicate HonestProof(h: Hasher, cp: TrustedCheckpoint, proof: Proof, w: World)
    requires WfWorld(w)
  {
    && w.pool.Some? && w.pool.value.classHash != 0
    && cp.chainId != "" && cp.pool != 0 && IsTrieKey(cp.pool) && cp.blockHash != 0 && cp.stateRoot != 0
    && proof.size <= MAX_PROOF_BYTES && |proof.nodes| <= MAX_PROOF_NODES && |proof.leaves| == 1
    && proof.blockHash == cp.blockHash
    && proof.contractsRoot == HashAt(h, w.contracts, []) && proof.classesRoot == w.classesRoot
    && proof.leaves[0].classHash == w.pool.value.classHash && proof.leaves[0].nonce == w.pool.value.nonce
    && proof.leaves[0].storageRoot == HashAt(h, w.pool.value.storage, [])
    && NamesPool(proof.leaves[0].contractAddress, cp.pool) && NamesPool(proof.leaves[0].address, cp.pool)
    && MptProof.HonestList(h, w.contracts, proof.nodes) && MptProof.Answers(h, w.contracts, proof.nodes, KeyBits(cp.pool))
  }

  /** An honest answer is accepted, whatever the chain holds. */
  lemma CheckpointComplete(h: Hasher, cp: TrustedCheckpoint, proof: Proof, w: World)
    requires WfWorld(w) && Commits(h, cp, w) && HonestProof(h, cp, proof, w)
    ensures VerifyCheckpoint(h, cp, proof) == Root(HashAt(h, w.pool.value.storage, [])) || HasCollision(h, TrieNodes(h, w.contracts))
  {
    MptProof.ProofComplete(h, w.contracts, proof.nodes, cp.pool);
  }

  /** The gate's meaning for a complete slot set: when its root is the authenticated one, the
      set is the pool's committed storage, slot for slot. */
  lemma GroundedSet(h: Hasher, cp: TrustedCheckpoint, proof: Proof, w: World, mirror: Slots)
    requires WfWorld(w) && Commits(h, cp, w) && WfSlots(mirror)
    requires VerifyCheckpoint(h, cp, proof) == Root(HashAt(h, mirror, []))
    ensures || (w.pool.Some? && mirror == w.pool.value.storage)
            || Broken(h, proof, w)
            || (w.pool.Some? && HasCollision(h, TrieNodes(h, mirror) + TrieNodes(h, w.pool.value.storage)))
  {
    CheckpointSound(h, cp, proof, w);
    if !Broken(h, proof, w) {
      EqualRoots(h, mirror, w.pool.value.storage);
    }
  }
}
