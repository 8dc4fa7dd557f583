/**
 * The access set's two public operations: issuing a signal, which is the
 * nullifier H(key ‖ topic) together with a proof that its maker holds the
 * key behind some leaf, and verifying a signal against the access set's
 * root and a topic.
 */
module Signals {
  import opened Field
  import opened Bits
  import opened Errors
  import opened Merkle
  import opened Plonk
  import opened Circuit
  import opened Semantics
  import opened Generation

  /** A signal: the nullifier and the proof, without the public inputs the proof was made for. */
  datatype Signal = Signal(nullifier: Digest, proof: Proof)

  /** The single entry of a cap of height 0, flattened, is that entry. */
  lemma {:induction false} FlattenSingle(d: Digest)
    ensures Flatten([d]) == d
  {
    assert [d][1..] == [];
    assert d + [] == d;
  }

  /**
   * The public inputs a verifier rebuilds: the elements of the access set's
   * cap, then the nullifier, then the topic.
   */
  function PublicInputs(hs: Hasher, accessSet: AccessSet, nullifier: Digest, topic: Digest): (pis: seq<F>)
    requires accessSet.Valid()
    ensures |pis| == 12
    ensures pis[0..4] == accessSet.tree.Cap(hs)[0] && pis[4..8] == nullifier && pis[8..12] == topic
  {
    FlattenSingle(accessSet.tree.Cap(hs)[0]);
    var pis := Flatten(accessSet.tree.Cap(hs)) + nullifier + topic;
    assert pis[0..4] == accessSet.tree.Cap(hs)[0] && pis[4..8] == nullifier && pis[8..12] == topic;
    pis
  }

  /** Different nullifiers or different topics give different public inputs. */
  lemma PublicInputsInjective(hs: Hasher, accessSet: AccessSet, n1: Digest, t1: Digest, n2: Digest, t2: Digest)
    requires accessSet.Valid() && PublicInputs(hs, accessSet, n1, t1) == PublicInputs(hs, accessSet, n2, t2)
    ensures n1 == n2 && t1 == t2
  {
    var pis := PublicInputs(hs, accessSet, n1, t1);
    assert n1 == pis[4..8] == n2;
    assert t1 == pis[8..12] == t2;
  }

  /** The public inputs are the root, the nullifier and the topic, in that order. */
  lemma PublicInputsOrder(hs: Hasher, accessSet: AccessSet, nullifier: Digest, topic: Digest)
    requires accessSet.Valid()
    ensures PublicInputs(hs, accessSet, nullifier, topic) == accessSet.tree.Cap(hs)[0] + nullifier + topic
  {
    var pis := PublicInputs(hs, accessSet, nullifier, topic);
    assert pis == pis[0..4] + pis[4..8] + pis[8..12];
  }

  /** Verification of a signal: the backend checks the proof against the rebuilt public inputs. */
  function VerifySignal(hs: Hasher, accessSet: AccessSet, topic: Digest, signal: Signal,
                        verifierData: VerifierCircuitData): (r: Result<()>)
    requires accessSet.Valid()
    ensures r.Err? ==> r.error == Verification
  {
    Verify(hs, verifierData, ProofWithPublicInputs(signal.proof, PublicInputs(hs, accessSet, signal.nullifier, topic)))
  }

  /**
   * A proof is bound to its public inputs: the same proof is accepted by the
   * same verifier data only for one root, one nullifier and one topic, so it
   * cannot be replayed against another access set's root, for a second
   * topic, or with a tampered nullifier.
   */
  lemma VerifyBindsSignal(hs: Hasher, a1: AccessSet, a2: AccessSet, verifierData: VerifierCircuitData, proof: Proof,
                          n1: Digest, t1: Digest, n2: Digest, t2: Digest)
    requires a1.Valid() && a2.Valid()
    requires VerifySignal(hs, a1, t1, Signal(n1, proof), verifierData).Ok?
    requires VerifySignal(hs, a2, t2, Signal(n2, proof), verifierData).Ok?
    ensures a1.tree.Cap(hs)[0] == a2.tree.Cap(hs)[0] && n1 == n2 && t1 == t2
  {
    var p1, p2 := PublicInputs(hs, a1, n1, t1), PublicInputs(hs, a2, n2, t2);
    assert p1 == p2;
    assert a1.tree.Cap(hs)[0] == p1[0..4] == p2[0..4] == a2.tree.Cap(hs)[0];
    assert n1 == p1[4..8] == p2[4..8] == n2;
    assert t1 == p1[8..12] == p2[8..12] == t2;
  }

  /**
   * Soundness and completeness of verification: for the circuit of the
   * access set's height, some proof makes a signal with this nullifier
   * verify for this topic exactly when some key, index and path put the
   * root, the nullifier and the topic in the semaphore relation.
   */
  lemma {:induction false} VerifiableIffRelation(hs: Hasher, accessSet: AccessSet, topic: Digest, nullifier: Digest)
    requires accessSet.Valid()
    ensures var h := TreeHeight(accessSet); var vd := VerifierCircuitData(SemaphoreData(h));
      (exists proof :: VerifySignal(hs, accessSet, topic, Signal(nullifier, proof), vd).Ok?)
      <==> (exists sk: Digest, index: nat, siblings: seq<Digest> ::
              Relation(hs, h, accessSet.tree.Cap(hs)[0] + nullifier + topic, sk, index, siblings))
  {
    var h := TreeHeight(accessSet);
    var vd := VerifierCircuitData(SemaphoreData(h));
    var pis := PublicInputs(hs, accessSet, nullifier, topic);
    PublicInputsOrder(hs, accessSet, nullifier, topic);
    VerifyAcceptsIffWitness(hs, vd, pis);
    CircuitIffRelation(hs, h, pis);
    if exists proof :: VerifySignal(hs, accessSet, topic, Signal(nullifier, proof), vd).Ok? {
      var proof :| VerifySignal(hs, accessSet, topic, Signal(nullifier, proof), vd).Ok?;
      assert Verify(hs, vd, ProofWithPublicInputs(proof, pis)).Ok?;
    }
    if exists p :: Verify(hs, vd, ProofWithPublicInputs(p, pis)).Ok? {
      var p :| Verify(hs, vd, ProofWithPublicInputs(p, pis)).Ok?;
      assert VerifySignal(hs, accessSet, topic, Signal(nullifier, p), vd).Ok?;
    }
  }

  /** The partial witness the signer fills, on a fresh builder's targets. */
  function SignerWitness(hs: Hasher, accessSet: AccessSet, privateKey: Digest, topic: Digest,
                         publicKeyIndex: Usize): Witness
    requires accessSet.Valid() && publicKeyIndex < |accessSet.tree.leaves|
  {
    Filled(Layout(0, TreeHeight(accessSet)).Targets(), accessSet.tree.Cap(hs)[0], privateKey, topic,
           FromCanonicalUsize(publicKeyIndex), accessSet.tree.Prove(hs, publicKeyIndex).siblings, map[])
  }

  /**
   * What signing computes: for an index inside the access set, the proof of
   * the circuit of the set's height from the signer's bindings, paired with
   * the out-of-circuit nullifier and the circuit's verifier data.
   */
  function Signed(hs: Hasher, accessSet: AccessSet, privateKey: Digest, topic: Digest, publicKeyIndex: Usize)
    : (r: Result<(Signal, VerifierCircuitData)>)
    requires accessSet.Valid()
    ensures r.Ok? ==> r.value.0.nullifier == hs.hashNoPad(privateKey + topic)
    ensures r.Ok? ==> r.value.1 == VerifierCircuitData(SemaphoreData(TreeHeight(accessSet)))
    ensures r.Err? ==> r.error == if publicKeyIndex < |accessSet.tree.leaves| then ProofConstruction
                                  else IndexOutOfRange
  {
    if publicKeyIndex >= |accessSet.tree.leaves| then Err(IndexOutOfRange)
    else
      var data := SemaphoreData(TreeHeight(accessSet));
      match Prove(hs, data, SignerWitness(hs, accessSet, privateKey, topic, publicKeyIndex))
      case Err(e) => Err(e)
      case Ok(proof) => Ok((Signal(hs.hashNoPad(privateKey + topic), proof.proof), VerifierCircuitData(data)))
  }

  /**
   * Issues a signal: the nullifier H(key ‖ topic) computed outside the
   * circuit, the circuit built on a fresh builder, the targets filled on a
   * fresh partial witness, and the proof.
   */
  method MakeSignal(hs: Hasher, accessSet: AccessSet, privateKey: Digest, topic: Digest, publicKeyIndex: Usize)
    returns (r: Result<(Signal, VerifierCircuitData)>)
    requires accessSet.Valid()
    ensures r == Signed(hs, accessSet, privateKey, topic, publicKeyIndex)
  {
    var nullifier := hs.hashNoPad(privateKey + topic);
    var builder := new CircuitBuilder();
    var pw := new PartialWitness();
    var targets := SemaphoreCircuit(accessSet, builder);
    if publicKeyIndex >= |accessSet.tree.leaves| {
      return Err(IndexOutOfRange);
    }
    FillSemaphoreTargets(hs, accessSet, pw, privateKey, topic, publicKeyIndex, targets);
    ghost var h := TreeHeight(accessSet);
    assert pw.values == SignerWitness(hs, accessSet, privateKey, topic, publicKeyIndex);
    var data := builder.Build();
    assert data == SemaphoreData(h);
    var proof := Prove(hs, data, pw.values);
    assert proof == Prove(hs, SemaphoreData(h), SignerWitness(hs, accessSet, privateKey, topic, publicKeyIndex));
    if proof.Err? {
      return Err(proof.error);
    }
    r := Ok((Signal(nullifier, proof.value.proof), VerifierCircuitData(data)));
  }

  /**
   * Signing succeeds exactly for an index inside the access set whose
   * authentication path, walked from the leaf of H(key ‖ [0; 4]), reaches
   * the root: the relation for the signal's own public inputs.
   */
  lemma {:induction false} SignedIffRelation(hs: Hasher, accessSet: AccessSet, privateKey: Digest, topic: Digest,
                                             publicKeyIndex: Usize)
    requires accessSet.Valid()
    ensures Signed(hs, accessSet, privateKey, topic, publicKeyIndex).Ok?
        <==> publicKeyIndex < |accessSet.tree.leaves|
             && Relation(hs, TreeHeight(accessSet),
                         accessSet.tree.Cap(hs)[0] + hs.hashNoPad(privateKey + topic) + topic, privateKey,
                         FromCanonicalUsize(publicKeyIndex), accessSet.tree.Prove(hs, publicKeyIndex).siblings)
  {
    if publicKeyIndex < |accessSet.tree.leaves| {
      var path := accessSet.tree.Prove(hs, publicKeyIndex).siblings;
      ProveIffRelation(hs, accessSet.tree.Cap(hs)[0], privateKey, topic, FromCanonicalUsize(publicKeyIndex), path);
    }
  }

  /**
   * Completeness for an honest member: whoever holds the key whose public
   * key H(key ‖ [0; 4]) is the leaf at `publicKeyIndex` obtains a signal.
   */
  lemma {:induction false} HonestMemberSigns(hs: Hasher, accessSet: AccessSet, privateKey: Digest, topic: Digest,
                                             publicKeyIndex: Usize)
    requires accessSet.Valid() && publicKeyIndex < |accessSet.tree.leaves|
    requires accessSet.tree.leaves[publicKeyIndex] == hs.hashNoPad(privateKey + ZERO_DIGEST)
    ensures Signed(hs, accessSet, privateKey, topic, publicKeyIndex).Ok?
  {
    var tree := accessSet.tree;
    var h := TreeHeight(accessSet);
    Pow2BelowField(h);
    assert FromCanonicalUsize(publicKeyIndex) == publicKeyIndex;
    Membership(hs, tree, publicKeyIndex);
    HashOrNoopOfDigest(hs, hs.hashNoPad(privateKey + ZERO_DIGEST));
    HashOrNoopOfLeafData(hs, privateKey);
    var pis := tree.Cap(hs)[0] + hs.hashNoPad(privateKey + topic) + topic;
    assert pis[0..4] == tree.Cap(hs)[0] && pis[8..12] == topic && pis[4..8] == hs.hashNoPad(privateKey + topic);
    SignedIffRelation(hs, accessSet, privateKey, topic, publicKeyIndex);
  }

  /** Round trip: a signal that signing produces verifies for its topic with the data produced alongside. */
  lemma {:induction false} SignalVerifies(hs: Hasher, accessSet: AccessSet, privateKey: Digest, topic: Digest,
                                          publicKeyIndex: Usize)
    requires accessSet.Valid() && Signed(hs, accessSet, privateKey, topic, publicKeyIndex).Ok?
    ensures var s := Signed(hs, accessSet, privateKey, topic, publicKeyIndex).value;
      VerifySignal(hs, accessSet, topic, s.0, s.1).Ok?
  {
    var s := Signed(hs, accessSet, privateKey, topic, publicKeyIndex).value;
    var data := SemaphoreData(TreeHeight(accessSet));
    var pw := SignerWitness(hs, accessSet, privateKey, topic, publicKeyIndex);
    var nullifier := hs.hashNoPad(privateKey + topic);
    ProveIffRelation(hs, accessSet.tree.Cap(hs)[0], privateKey, topic, FromCanonicalUsize(publicKeyIndex),
                     accessSet.tree.Prove(hs, publicKeyIndex).siblings);
    ProvedVerifies(hs, data, pw);
    PublicInputsOrder(hs, accessSet, nullifier, topic);
    assert ProofWithPublicInputs(s.0.proof, PublicInputs(hs, accessSet, nullifier, topic)) == Prove(hs, data, pw).value;
  }

  /**
   * The nullifier does not depend on the index or on the access set: two
   * signals from the same key on the same topic carry the same nullifier,
   * H(key ‖ topic).
   */
  lemma SameKeySameNullifier(hs: Hasher, a1: AccessSet, a2: AccessSet, privateKey: Digest, topic: Digest,
                             i1: Usize, i2: Usize)
    requires a1.Valid() && a2.Valid()
    requires Signed(hs, a1, privateKey, topic, i1).Ok? && Signed(hs, a2, privateKey, topic, i2).Ok?
    ensures Signed(hs, a1, privateKey, topic, i1).value.0.nullifier
         == Signed(hs, a2, privateKey, topic, i2).value.0.nullifier
         == hs.hashNoPad(privateKey + topic)
  {
  }
}
