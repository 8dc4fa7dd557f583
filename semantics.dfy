/**
 * What the semaphore circuit means. `Relation` is the statement a proof
 * attests: the key's leaf walks up the siblings, left or right by the
 * little-endian bits of the index, to the public root, and the public
 * nullifier is the hash of the key and the public topic. A satisfying
 * assignment of the circuit's wires yields the relation (soundness), and
 * the witness the prover derives from a member's inputs satisfies the
 * circuit exactly when the relation holds of those inputs.
 */
module Semantics {
  import opened Field
  import opened Bits
  import opened Merkle
  import opened Plonk
  import opened Circuit

  /**
   * The semaphore relation over the 12 public inputs (root, nullifier,
   * topic), a private key, an index and h sibling digests.
   */
  predicate Relation(hs: Hasher, h: nat, pis: seq<F>, sk: Digest, index: nat, siblings: seq<Digest>) {
    && |pis| == 12 && |siblings| == h && index < Pow2(h)
    && Walk(hs, HashOrNoop(hs, sk + ZERO_DIGEST), SplitLE(index, h), siblings) == pis[0..4]
    && pis[4..8] == hs.hashNoPad(sk + pis[8..12])
  }

  /** The slots of the wire values, one by one, with `flat` the flattened siblings. */
  predicate Slots(vs: seq<F>, h: nat, root: Digest, nullifier: Digest, topic: Digest, flat: seq<F>, sk: Digest,
                  index: F) {
    && |vs| == 22 + 5 * h && |flat| == 4 * h
    && vs[0..4] == root && vs[4..8] == nullifier && vs[8..12] == topic
    && vs[12..12 + 4 * h] == flat && vs[12 + 4 * h..16 + 4 * h] == sk
    && vs[16 + 4 * h] == index && vs[17 + 4 * h..17 + 5 * h] == FromBits(SplitLE(index, h))
    && vs[17 + 5 * h] == ZERO && vs[18 + 5 * h..22 + 5 * h] == nullifier
  }

  /**
   * The values of the circuit's wires, in the order `SemaphoreCircuit`
   * allocates them on a fresh builder: root, nullifier, topic, siblings,
   * key, index, the index's bits, zero, and the in-circuit nullifier.
   */
  function WireValues(root: Digest, nullifier: Digest, topic: Digest, siblings: seq<Digest>,
                      sk: Digest, index: F): (vs: seq<F>)
    ensures Slots(vs, |siblings|, root, nullifier, topic, Flatten(siblings), sk, index)
  {
    var h := |siblings|;
    var pis := root + nullifier + topic;
    var tail := PrivateValues(nullifier, siblings, sk, index);
    SliceShift(pis, tail, 0, 4 * h);
    SliceShift(pis, tail, 4 * h, 4 + 4 * h);
    SliceShift(pis, tail, 5 + 4 * h, 5 + 5 * h);
    SliceShift(pis, tail, 6 + 5 * h, 10 + 5 * h);
    pis + tail
  }

  /** The wires after the public inputs: siblings, key, index, its bits, zero and the in-circuit nullifier. */
  function PrivateValues(nullifier: Digest, siblings: seq<Digest>, sk: Digest, index: F): (vs: seq<F>)
    ensures var h := |siblings|;
      && |vs| == 10 + 5 * h
      && vs[0..4 * h] == Flatten(siblings) && vs[4 * h..4 + 4 * h] == sk && vs[4 + 4 * h] == index
      && vs[5 + 4 * h..5 + 5 * h] == FromBits(SplitLE(index, h))
      && vs[5 + 5 * h] == ZERO && vs[6 + 5 * h..10 + 5 * h] == nullifier
  {
    var h := |siblings|;
    var vs := Flatten(siblings) + sk + [index] + FromBits(SplitLE(index, h)) + [ZERO] + nullifier;
    assert vs[0..4 * h] == Flatten(siblings) && vs[4 * h..4 + 4 * h] == sk;
    assert vs[5 + 4 * h..5 + 5 * h] == FromBits(SplitLE(index, h));
    assert vs[6 + 5 * h..10 + 5 * h] == nullifier;
    vs
  }

  /** Slices of the right operand of a concatenation, and its left operand. */
  lemma SliceShift(a: seq<F>, b: seq<F>, i: nat, j: nat)
    requires i <= j <= |b|
    ensures (a + b)[|a| + i..|a| + j] == b[i..j] && (a + b)[..|a|] == a
  {
  }

  /** `w` gives the wires lo..hi-1 the values `vs` lists for them. */
  predicate AgreesOn(w: Witness, vs: seq<F>, lo: nat, hi: nat)
    requires hi <= |vs|
  {
    forall k | lo <= k < hi :: k in w && w[k] == vs[k]
  }

  /** A run of wires that agrees with `vs` reads back as the slice of `vs`. */
  lemma {:induction false} ValuesOfRange(w: Witness, vs: seq<F>, start: nat, n: nat)
    requires start + n <= |vs| && AgreesOn(w, vs, start, start + n)
    ensures Assigned(w, Range(start, n)) && Values(w, Range(start, n)) == vs[start..start + n]
  {
    RangeIndex(start, n);
  }

  /** A run of wires that agrees with a part of `vs` reads back as that part. */
  lemma {:induction false} SlotReading(w: Witness, vs: seq<F>, start: nat, part: seq<F>, ts: seq<Target>)
    requires start + |part| <= |vs| && vs[start..start + |part|] == part
    requires AgreesOn(w, vs, start, start + |part|) && ts == Range(start, |part|)
    ensures Assigned(w, ts) && Values(w, ts) == part
  {
    ValuesOfRange(w, vs, start, |part|);
  }

  /** The wires of sibling j read back as that sibling. */
  lemma {:induction false} SiblingValue(w: Witness, vs: seq<F>, siblings: seq<Digest>, h: nat, j: nat)
    requires |siblings| == h && j < h && 12 + 4 * h <= |vs| && vs[12..12 + 4 * h] == Flatten(siblings)
    requires AgreesOn(w, vs, 12, 12 + 4 * h)
    ensures Assigned(w, Range(12 + 4 * j, 4)) && Values(w, Range(12 + 4 * j, 4)) == siblings[j]
  {
    ValuesOfRange(w, vs, 12 + 4 * j, 4);
    forall k | 0 <= k < 4
      ensures vs[12 + 4 * j + k] == siblings[j][k]
    {
      assert vs[12 + 4 * j + k] == Flatten(siblings)[4 * j + k];
    }
    assert vs[12 + 4 * j..16 + 4 * j] == siblings[j];
  }

  /** The sibling wires read back as the digests the values list for them. */
  lemma {:induction false} SiblingValues(w: Witness, vs: seq<F>, siblings: seq<Digest>, h: nat)
    requires |siblings| == h && 12 + 4 * h <= |vs| && vs[12..12 + 4 * h] == Flatten(siblings)
    requires AgreesOn(w, vs, 12, 12 + 4 * h)
    ensures var sts := Elements(Layout(0, h).Siblings());
      (forall s <- sts :: Assigned(w, s)) && DigestValues(w, sts) == siblings
  {
    var l := Layout(0, h);
    var sts := Elements(l.Siblings());
    forall j | 0 <= j < h
      ensures Assigned(w, sts[j]) && Values(w, sts[j]) == siblings[j]
    {
      assert sts[j] == Range(12 + 4 * j, 4);
      SiblingValue(w, vs, siblings, h, j);
    }
    assert forall s <- sts :: Assigned(w, s) by {
      forall s <- sts
        ensures Assigned(w, s)
      {
        var j :| 0 <= j < h && sts[j] == s;
      }
    }
  }

  /** The constraints of the circuit on a fresh builder, one by one. */
  lemma {:induction false} ConstraintsOf(h: nat)
    ensures var l := Layout(0, h); var cs := SemaphoreData(h).constraints;
      && |cs| == 8
      && cs[0] == SplitLe(l.Index(), l.IndexBits())
      && cs[1] == Constant(l.Zero(), ZERO)
      && cs[2] == Constraint.MerkleProof(l.Key() + [l.Zero(), l.Zero(), l.Zero(), l.Zero()], l.IndexBits(),
                                         l.Root(), Elements(l.Siblings()))
      && cs[3] == HashNoPad(l.Key() + l.Topic(), l.HashOut())
      && forall i | 0 <= i < 4 :: cs[4 + i] == Connect(l.Nullifier()[i], l.HashOut()[i])
  {
  }

  /** The split constraint holds only of an index below 2^h, whose bits its bit wires carry. */
  lemma {:induction false} IndexSound(hs: Hasher, h: nat, w: Witness)
    requires Pow2(h) < USIZE_LIMIT
    requires Holds(hs, w, SplitLe(Layout(0, h).Index(), Layout(0, h).IndexBits()))
    ensures var l := Layout(0, h);
      w[l.Index()] < Pow2(h) && SplitLE(w[l.Index()], h) == AsBits(Values(w, l.IndexBits()))
  {
    var l := Layout(0, h);
    Pow2BelowField(h);
    var bits := AsBits(Values(w, l.IndexBits()));
    var r := Recompose(bits);
    assert r < Pow2(h);
    DivModUnique(r, P, 0, r);
    assert r == w[l.Index()];
    SplitRecompose(bits);
  }

  /** The wires the nullifier constraint reads give the hash of key and topic. */
  lemma {:induction false} NullifierSound(hs: Hasher, h: nat, w: Witness)
    requires var l := Layout(0, h);
      && Holds(hs, w, HashNoPad(l.Key() + l.Topic(), l.HashOut()))
      && forall i | 0 <= i < 4 :: Holds(hs, w, Connect(l.Nullifier()[i], l.HashOut()[i]))
    ensures var l := Layout(0, h);
      && Assigned(w, l.Nullifier()) && Assigned(w, l.Key()) && Assigned(w, l.Topic())
      && Values(w, l.Nullifier()) == hs.hashNoPad(Values(w, l.Key()) + Values(w, l.Topic()))
  {
    var l := Layout(0, h);
    assert Assigned(w, l.Key()) && Assigned(w, l.Topic());
    ValuesConcat(w, l.Key(), l.Topic());
    assert Values(w, l.Nullifier()) == Values(w, l.HashOut());
  }

  /** The wires the membership constraint reads walk from the key's leaf to the root. */
  lemma {:induction false} MembershipSound(hs: Hasher, h: nat, w: Witness)
    requires var l := Layout(0, h); var z := l.Zero();
      && Holds(hs, w, Constant(z, ZERO))
      && Holds(hs, w, Constraint.MerkleProof(l.Key() + [z, z, z, z], l.IndexBits(), l.Root(), Elements(l.Siblings())))
    ensures var l := Layout(0, h); var sts := Elements(l.Siblings());
      && Assigned(w, l.Key()) && Assigned(w, l.Root()) && Assigned(w, l.IndexBits())
      && (forall s <- sts :: Assigned(w, s)) && |sts| == h
      && Walk(hs, HashOrNoop(hs, Values(w, l.Key()) + ZERO_DIGEST), AsBits(Values(w, l.IndexBits())),
              DigestValues(w, sts)) == Values(w, l.Root())
  {
    var l := Layout(0, h);
    var z := l.Zero();
    assert Assigned(w, l.Key()) && Assigned(w, [z, z, z, z]);
    ValuesConcat(w, l.Key(), [z, z, z, z]);
    assert Values(w, [z, z, z, z]) == ZERO_DIGEST;
  }

  /** The constraints of a satisfied circuit hold one by one. */
  lemma {:induction false} SatisfiedConstraints(hs: Hasher, h: nat, w: Witness)
    requires Satisfies(hs, SemaphoreData(h), w)
    ensures var l := Layout(0, h); var z := l.Zero();
      && Holds(hs, w, SplitLe(l.Index(), l.IndexBits()))
      && Holds(hs, w, Constant(z, ZERO))
      && Holds(hs, w, Constraint.MerkleProof(l.Key() + [z, z, z, z], l.IndexBits(), l.Root(), Elements(l.Siblings())))
      && Holds(hs, w, HashNoPad(l.Key() + l.Topic(), l.HashOut()))
      && forall i | 0 <= i < 4 :: Holds(hs, w, Connect(l.Nullifier()[i], l.HashOut()[i]))
  {
    var l := Layout(0, h);
    var cs := SemaphoreData(h).constraints;
    ConstraintsOf(h);
    assert cs[0] in cs && cs[1] in cs && cs[2] in cs && cs[3] in cs;
    forall i | 0 <= i < 4
      ensures Holds(hs, w, Connect(l.Nullifier()[i], l.HashOut()[i]))
    {
      assert cs[4 + i] in cs;
    }
  }

  /** The relation follows from the constraints one by one. */
  lemma {:induction false} SoundFromConstraints(hs: Hasher, h: nat, w: Witness)
    requires Pow2(h) < USIZE_LIMIT
    requires var l := Layout(0, h); var z := l.Zero();
      && Holds(hs, w, SplitLe(l.Index(), l.IndexBits()))
      && Holds(hs, w, Constant(z, ZERO))
      && Holds(hs, w, Constraint.MerkleProof(l.Key() + [z, z, z, z], l.IndexBits(), l.Root(), Elements(l.Siblings())))
      && Holds(hs, w, HashNoPad(l.Key() + l.Topic(), l.HashOut()))
      && forall i | 0 <= i < 4 :: Holds(hs, w, Connect(l.Nullifier()[i], l.HashOut()[i]))
    ensures var l := Layout(0, h);
      && Assigned(w, l.PublicInputs()) && Assigned(w, l.Key()) && l.Index() in w
      && (forall s <- Elements(l.Siblings()) :: Assigned(w, s))
      && Relation(hs, h, Values(w, l.PublicInputs()), Values(w, l.Key()), w[l.Index()],
                  DigestValues(w, Elements(l.Siblings())))
  {
    var l := Layout(0, h);
    IndexSound(hs, h, w);
    MembershipSound(hs, h, w);
    NullifierSound(hs, h, w);
    ValuesConcat(w, l.Root(), l.Nullifier());
    ValuesConcat(w, l.Root() + l.Nullifier(), l.Topic());
    var pis := Values(w, l.PublicInputs());
    assert pis[0..4] == Values(w, l.Root());
    assert pis[4..8] == Values(w, l.Nullifier());
    assert pis[8..12] == Values(w, l.Topic());
  }

  /**
   * Soundness: any assignment satisfying the circuit of height h yields the
   * relation for the values on its public, key, index and sibling wires.
   */
  lemma {:induction false} Sound(hs: Hasher, h: nat, w: Witness)
    requires Pow2(h) < USIZE_LIMIT && Satisfies(hs, SemaphoreData(h), w)
    ensures var l := Layout(0, h);
      && Assigned(w, l.PublicInputs()) && Assigned(w, l.Key()) && l.Index() in w
      && (forall s <- Elements(l.Siblings()) :: Assigned(w, s))
      && Relation(hs, h, Values(w, l.PublicInputs()), Values(w, l.Key()), w[l.Index()],
                  DigestValues(w, Elements(l.Siblings())))
  {
    SatisfiedConstraints(hs, h, w);
    SoundFromConstraints(hs, h, w);
  }

  /** The public slots of an assignment that agrees with values holding root, nullifier and topic there. */
  lemma {:induction false} PublicSlots(w: Witness, vs: seq<F>, h: nat, root: Digest, nullifier: Digest, topic: Digest)
    requires 12 <= |vs| && vs[0..4] == root && vs[4..8] == nullifier && vs[8..12] == topic
    requires AgreesOn(w, vs, 0, |vs|)
    ensures var l := Layout(0, h);
      && Assigned(w, l.PublicInputs()) && Values(w, l.PublicInputs()) == root + nullifier + topic
      && Assigned(w, l.Root()) && Values(w, l.Root()) == root
      && Assigned(w, l.Nullifier()) && Values(w, l.Nullifier()) == nullifier
      && Assigned(w, l.Topic()) && Values(w, l.Topic()) == topic
  {
    var l := Layout(0, h);
    ValuesOfRange(w, vs, 0, 4);
    ValuesOfRange(w, vs, 4, 4);
    ValuesOfRange(w, vs, 8, 4);
    ValuesConcat(w, l.Root(), l.Nullifier());
    ValuesConcat(w, l.Root() + l.Nullifier(), l.Topic());
  }

  /** The public slots of an assignment that agrees with `WireValues`. */
  lemma PublicReadings(w: Witness, root: Digest, nullifier: Digest, topic: Digest, siblings: seq<Digest>,
                       sk: Digest, index: F)
    requires var vs := WireValues(root, nullifier, topic, siblings, sk, index); AgreesOn(w, vs, 0, |vs|)
    ensures var l := Layout(0, |siblings|);
      && Assigned(w, l.PublicInputs()) && Values(w, l.PublicInputs()) == root + nullifier + topic
      && Assigned(w, l.Root()) && Values(w, l.Root()) == root
      && Assigned(w, l.Nullifier()) && Values(w, l.Nullifier()) == nullifier
      && Assigned(w, l.Topic()) && Values(w, l.Topic()) == topic
  {
    PublicSlots(w, WireValues(root, nullifier, topic, siblings, sk, index), |siblings|, root, nullifier, topic);
  }

  /** The private input slots of an assignment that agrees with values holding the siblings, key and index there. */
  lemma {:induction false} PrivateSlots(w: Witness, vs: seq<F>, siblings: seq<Digest>, sk: Digest, index: F)
    requires var h := |siblings|;
      && 17 + 4 * h <= |vs| && vs[12..12 + 4 * h] == Flatten(siblings) && vs[12 + 4 * h..16 + 4 * h] == sk
      && vs[16 + 4 * h] == index
    requires AgreesOn(w, vs, 0, |vs|)
    ensures var l := Layout(0, |siblings|);
      && Assigned(w, l.Key()) && Values(w, l.Key()) == sk
      && l.Index() in w && w[l.Index()] == index
      && (forall s <- Elements(l.Siblings()) :: Assigned(w, s)) && DigestValues(w, Elements(l.Siblings())) == siblings
  {
    var h := |siblings|;
    ValuesOfRange(w, vs, 12 + 4 * h, 4);
    SiblingValues(w, vs, siblings, h);
  }

  /** The index bit slots of an assignment that agrees with values whose bit slots hold the index's bits. */
  lemma {:induction false} BitsReading(w: Witness, vs: seq<F>, h: nat, index: F)
    requires 17 + 5 * h <= |vs| && vs[17 + 4 * h..17 + 5 * h] == FromBits(SplitLE(index, h))
    requires AgreesOn(w, vs, 0, |vs|)
    ensures Assigned(w, Layout(0, h).IndexBits()) && Values(w, Layout(0, h).IndexBits()) == FromBits(SplitLE(index, h))
  {
    var bits := FromBits(SplitLE(index, h));
    assert AgreesOn(w, vs, 17 + 4 * h, 17 + 4 * h + |bits|);
    SlotReading(w, vs, 17 + 4 * h, bits, Layout(0, h).IndexBits());
  }

  /** The zero and in-circuit nullifier slots of an assignment that agrees with values holding zero and `nullifier` there. */
  lemma {:induction false} HashOutReading(w: Witness, vs: seq<F>, h: nat, nullifier: Digest)
    requires 22 + 5 * h <= |vs| && vs[17 + 5 * h] == ZERO && vs[18 + 5 * h..22 + 5 * h] == nullifier
    requires AgreesOn(w, vs, 0, |vs|)
    ensures var l := Layout(0, h);
      && l.Zero() in w && w[l.Zero()] == ZERO
      && Assigned(w, l.HashOut()) && Values(w, l.HashOut()) == nullifier
  {
    assert AgreesOn(w, vs, 18 + 5 * h, 22 + 5 * h);
    SlotReading(w, vs, 18 + 5 * h, nullifier, Layout(0, h).HashOut());
  }

  /**
   * An assignment that binds every wire of the circuit of height
   * |siblings|, and whose slots read back as root, nullifier, topic,
   * siblings, key, index, the index's bits, zero and the nullifier again.
   */
  predicate Readings(w: Witness, root: Digest, nullifier: Digest, topic: Digest, siblings: seq<Digest>, sk: Digest,
                     index: F) {
    var l := Layout(0, |siblings|);
    && (forall t | 0 <= t < l.Width() :: t in w)
    && Assigned(w, l.PublicInputs()) && Values(w, l.PublicInputs()) == root + nullifier + topic
    && Assigned(w, l.Root()) && Values(w, l.Root()) == root
    && Assigned(w, l.Nullifier()) && Values(w, l.Nullifier()) == nullifier
    && Assigned(w, l.Topic()) && Values(w, l.Topic()) == topic
    && Assigned(w, l.Key()) && Values(w, l.Key()) == sk
    && l.Index() in w && w[l.Index()] == index
    && Assigned(w, l.IndexBits()) && Values(w, l.IndexBits()) == FromBits(SplitLE(index, |siblings|))
    && l.Zero() in w && w[l.Zero()] == ZERO
    && Assigned(w, l.HashOut()) && Values(w, l.HashOut()) == nullifier
    && (forall s <- Elements(l.Siblings()) :: Assigned(w, s)) && DigestValues(w, Elements(l.Siblings())) == siblings
  }

  /** The slots of an assignment that agrees with the wire values read back as their parts. */
  lemma {:induction false} WireReadings(w: Witness, vs: seq<F>, root: Digest, nullifier: Digest, topic: Digest,
                                        siblings: seq<Digest>, sk: Digest, index: F)
    requires Slots(vs, |siblings|, root, nullifier, topic, Flatten(siblings), sk, index) && AgreesOn(w, vs, 0, |vs|)
    ensures Readings(w, root, nullifier, topic, siblings, sk, index)
  {
    PublicSlots(w, vs, |siblings|, root, nullifier, topic);
    PrivateSlots(w, vs, siblings, sk, index);
    BitsReading(w, vs, |siblings|, index);
    HashOutReading(w, vs, |siblings|, nullifier);
  }

  /** The split constraint holds of bit wires carrying the bits of an index below 2^h. */
  lemma {:induction false} IndexComplete(hs: Hasher, h: nat, w: Witness, index: F)
    requires var l := Layout(0, h);
      && l.Index() in w && w[l.Index()] == index && index < Pow2(h)
      && Assigned(w, l.IndexBits()) && Values(w, l.IndexBits()) == FromBits(SplitLE(index, h))
    ensures Holds(hs, w, SplitLe(Layout(0, h).Index(), Layout(0, h).IndexBits()))
  {
    var l := Layout(0, h);
    var bits := l.IndexBits();
    AsBitsFromBits(SplitLE(index, h));
    RecomposeSplitExact(index, h);
    DivModUnique(index, P, 0, index);
    forall b <- bits
      ensures IsBool(w[b])
    {
      var i :| 0 <= i < |bits| && bits[i] == b;
      assert w[b] == Values(w, bits)[i];
    }
  }

  /** A complete assignment on which each constraint holds satisfies the circuit. */
  lemma {:induction false} ConstraintsSatisfied(hs: Hasher, h: nat, w: Witness)
    requires forall t | 0 <= t < Layout(0, h).Width() :: t in w
    requires Assigned(w, Layout(0, h).PublicInputs())
    requires var l := Layout(0, h); var z := l.Zero();
      && Holds(hs, w, SplitLe(l.Index(), l.IndexBits()))
      && Holds(hs, w, Constant(z, ZERO))
      && Holds(hs, w, Constraint.MerkleProof(l.Key() + [z, z, z, z], l.IndexBits(), l.Root(), Elements(l.Siblings())))
      && Holds(hs, w, HashNoPad(l.Key() + l.Topic(), l.HashOut()))
      && forall i | 0 <= i < 4 :: Holds(hs, w, Connect(l.Nullifier()[i], l.HashOut()[i]))
    ensures Satisfies(hs, SemaphoreData(h), w)
  {
    var l := Layout(0, h);
    var cs := SemaphoreData(h).constraints;
    ConstraintsOf(h);
    forall c <- cs
      ensures Holds(hs, w, c)
    {
      var k :| 0 <= k < 8 && cs[k] == c;
      if k >= 4 {
        assert c == Connect(l.Nullifier()[k - 4], l.HashOut()[k - 4]);
      }
    }
  }

  /** The membership and nullifier constraints hold of the wires of inputs in the relation. */
  lemma {:induction false} GatesComplete(hs: Hasher, w: Witness, root: Digest, nullifier: Digest, topic: Digest,
                                         siblings: seq<Digest>, sk: Digest, index: F)
    requires Readings(w, root, nullifier, topic, siblings, sk, index)
    requires Relation(hs, |siblings|, root + nullifier + topic, sk, index, siblings)
    ensures var l := Layout(0, |siblings|); var z := l.Zero();
      && Holds(hs, w, Constraint.MerkleProof(l.Key() + [z, z, z, z], l.IndexBits(), l.Root(), Elements(l.Siblings())))
      && Holds(hs, w, HashNoPad(l.Key() + l.Topic(), l.HashOut()))
  {
    var h := |siblings|;
    var l := Layout(0, h);
    var z := l.Zero();
    var pis := root + nullifier + topic;
    assert pis[0..4] == root && pis[4..8] == nullifier && pis[8..12] == topic;
    ValuesConcat(w, l.Key(), [z, z, z, z]);
    assert Values(w, [z, z, z, z]) == ZERO_DIGEST;
    AsBitsFromBits(SplitLE(index, h));
    ValuesConcat(w, l.Key(), l.Topic());
  }

  /**
   * An assignment carrying the values of a member's inputs satisfies the
   * circuit when those inputs are in the relation.
   */
  lemma {:induction false} CompleteFromRelation(hs: Hasher, w: Witness, root: Digest, nullifier: Digest, topic: Digest,
                                                siblings: seq<Digest>, sk: Digest, index: F)
    requires Readings(w, root, nullifier, topic, siblings, sk, index)
    requires Relation(hs, |siblings|, root + nullifier + topic, sk, index, siblings)
    ensures Satisfies(hs, SemaphoreData(|siblings|), w)
  {
    var h := |siblings|;
    var l := Layout(0, h);
    IndexComplete(hs, h, w, index);
    GatesComplete(hs, w, root, nullifier, topic, siblings, sk, index);
    forall i | 0 <= i < 4
      ensures Holds(hs, w, Connect(l.Nullifier()[i], l.HashOut()[i]))
    {
      assert w[l.Nullifier()[i]] == nullifier[i] == w[l.HashOut()[i]];
    }
    ConstraintsSatisfied(hs, h, w);
  }

  /**
   * For an assignment carrying the values of a member's inputs, the circuit
   * is satisfied exactly when those inputs are in the relation.
   */
  lemma {:induction false} SatisfiesIffRelation(hs: Hasher, w: Witness, root: Digest, nullifier: Digest, topic: Digest,
                             siblings: seq<Digest>, sk: Digest, index: F)
    requires Pow2(|siblings|) < USIZE_LIMIT
    requires var vs := WireValues(root, nullifier, topic, siblings, sk, index); AgreesOn(w, vs, 0, |vs|)
    ensures Satisfies(hs, SemaphoreData(|siblings|), w)
        <==> Relation(hs, |siblings|, root + nullifier + topic, sk, index, siblings)
  {
    WireReadings(w, WireValues(root, nullifier, topic, siblings, sk, index), root, nullifier, topic, siblings, sk, index);
    if Satisfies(hs, SemaphoreData(|siblings|), w) {
      Sound(hs, |siblings|, w);
    }
    if Relation(hs, |siblings|, root + nullifier + topic, sk, index, siblings) {
      CompleteFromRelation(hs, w, root, nullifier, topic, siblings, sk, index);
    }
  }
}
