/**
 * The semaphore circuit: which wires it declares, in which order it makes
 * them public, the two constraints it asserts, and how a prover's values
 * are bound to those wires.
 */
module Circuit {
  import opened Field
  import opened Bits
  import opened Merkle
  import opened Plonk

  /**
   * The access set: a Merkle tree whose leaves are the members' public keys.
   * The circuit's operations take an access set and the signal protocol
   * imports this module, so the type is declared here rather than beside the
   * protocol, which would make the imports cyclic.
   */
  datatype AccessSet = AccessSet(tree: MerkleTree) {
    predicate Valid() {
      tree.Valid()
    }
  }

  /** The height h of a tree of 2^h leaves, read off as the trailing zeros of the leaf count. */
  function TreeHeight(accessSet: AccessSet): (h: nat)
    requires accessSet.Valid()
    ensures Pow2(h) == |accessSet.tree.leaves|
    ensures h == accessSet.tree.Height()
  {
    TrailingZeros(|accessSet.tree.leaves|)
  }

  /** For a leaf count of 2^h the height is h. */
  lemma TreeHeightOfPow2(accessSet: AccessSet, h: nat)
    requires accessSet.Valid() && |accessSet.tree.leaves| == Pow2(h)
    ensures TreeHeight(accessSet) == h
  {
    TrailingZerosOfPow2(h);
  }

  /** The wires the circuit hands back to the prover. */
  datatype SemaphoreTargets = SemaphoreTargets(
    merkleRoot: HashOutTarget,
    topic: Targets4,
    merkleProof: seq<HashOutTarget>,
    privateKey: Targets4,
    publicKeyIndex: Target)

  /**
   * Where the circuit's wires lie when the builder had allocated `base`
   * targets before it, for a tree of height h: root, nullifier and topic
   * (public), then h sibling digests, the key, the index, the h index bits,
   * the zero constant and the four wires of the in-circuit nullifier.
   *
   * A few contracts (`DefineTargets`, `LayoutOfTargets`, `LaidOut`, and the
   * generation lemmas in `Generation`) write these offsets out as literal
   * arithmetic rather than through the accessors below: stated through the
   * accessors, `FilledMap` alone costs the solver about twice as much and
   * comes near its resource limit.
   */
  datatype Layout = Layout(base: nat, h: nat) {
    function Root(): Targets4 { Range(base, 4) }
    function Nullifier(): Targets4 { Range(base + 4, 4) }
    function Topic(): Targets4 { Range(base + 8, 4) }
    function Sibling(j: nat): Targets4 { Range(base + 12 + 4 * j, 4) }
    function Siblings(): (sibs: seq<HashOutTarget>)
      ensures |sibs| == h && forall j | 0 <= j < h :: sibs[j].elements == Sibling(j)
    {
      HashRange(base + 12, h)
    }
    function Key(): Targets4 { Range(base + 12 + 4 * h, 4) }
    function Index(): Target { base + 16 + 4 * h }
    function IndexBits(): seq<Target> { Range(base + 17 + 4 * h, h) }
    function Zero(): Target { base + 17 + 5 * h }
    function HashOut(): Targets4 { Range(base + 18 + 5 * h, 4) }
    function Width(): nat { 22 + 5 * h }

    function PublicInputs(): seq<Target> { Root() + Nullifier() + Topic() }

    /** The first n of the four wires connecting the public nullifier to the in-circuit hash. */
    function Connects(n: nat): (cs: seq<Constraint>)
      requires n <= 4
      ensures |cs| == n && forall i | 0 <= i < n :: cs[i] == Connect(Nullifier()[i], HashOut()[i])
    {
      ConnectAll(Nullifier(), HashOut(), n)
    }

    /** The index split, the zero constant, the membership check and the nullifier hash. */
    function Gates(): seq<Constraint> {
      [ SplitLe(Index(), IndexBits()),
        Constant(Zero(), ZERO),
        Constraint.MerkleProof(Key() + [Zero(), Zero(), Zero(), Zero()], IndexBits(), Root(), Elements(Siblings())),
        HashNoPad(Key() + Topic(), HashOut()) ]
    }

    function Constraints(): seq<Constraint> {
      Gates() + Connects(4)
    }

    function Targets(): SemaphoreTargets {
      SemaphoreTargets(HashOutTarget(Root()), Topic(), Siblings(), Key(), Index())
    }
  }

  /** Copy constraints between the first n wires of `xs` and of `ys`, pairwise. */
  function ConnectAll(xs: seq<Target>, ys: seq<Target>, n: nat): (cs: seq<Constraint>)
    requires n <= |xs| && n <= |ys|
    ensures |cs| == n && forall i | 0 <= i < n :: cs[i] == Connect(xs[i], ys[i])
  {
    if n == 0 then [] else ConnectAll(xs, ys, n - 1) + [Connect(xs[n - 1], ys[n - 1])]
  }

  /** The circuit a fresh builder holds after `SemaphoreCircuit`, for a tree of height h. */
  function SemaphoreData(h: nat): CircuitData {
    var l := Layout(0, h);
    CircuitData(l.Width(), l.PublicInputs(), l.Constraints())
  }

  /**
   * The shape of the circuit of height h: twelve public inputs, the first
   * twelve wires in allocation order (root, nullifier, topic), h sibling
   * digests and h index bits.
   */
  lemma SemaphoreShape(h: nat)
    ensures var data, l := SemaphoreData(h), Layout(0, h);
      && data.publicInputs == Range(0, 12)
      && data.publicInputs[0..4] == l.Root() && data.publicInputs[4..8] == l.Nullifier()
      && data.publicInputs[8..12] == l.Topic()
      && |l.Targets().merkleProof| == h && |l.IndexBits()| == h
  {
    var l := Layout(0, h);
    var pis := SemaphoreData(h).publicInputs;
    assert pis[0..4] == l.Root() && pis[4..8] == l.Nullifier() && pis[8..12] == l.Topic();
  }

  /** The public inputs root, nullifier and topic, four wires each, registered in that order. */
  method DeclarePublicInputs(builder: CircuitBuilder) returns (merkleRoot: HashOutTarget, nullifier: HashOutTarget,
                                                               topic: seq<Target>)
    modifies builder
    ensures var b := old(builder.numTargets);
      && merkleRoot.elements == Range(b, 4) && nullifier.elements == Range(b + 4, 4) && topic == Range(b + 8, 4)
      && builder.numTargets == b + 12
      && builder.publicInputs == old(builder.publicInputs) + Range(b, 4) + Range(b + 4, 4) + Range(b + 8, 4)
      && builder.constraints == old(builder.constraints)
  {
    merkleRoot := builder.AddVirtualHash();
    builder.RegisterPublicInputs(merkleRoot.elements);
    nullifier := builder.AddVirtualHash();
    builder.RegisterPublicInputs(nullifier.elements);
    topic := builder.AddVirtualTargets(4);
    builder.RegisterPublicInputs(topic);
  }

  /**
   * First phase of the circuit: the public inputs, then the private inputs
   * (h siblings, key, index), the index's h little-endian bits and the
   * zero constant.
   */
  method DefineTargets(h: nat, builder: CircuitBuilder)
    returns (merkleRoot: HashOutTarget, nullifier: HashOutTarget, topic: seq<Target>,
             siblings: seq<HashOutTarget>, privateKey: seq<Target>, publicKeyIndex: Target,
             publicKeyIndexBits: seq<Target>, zero: Target)
    modifies builder
    ensures var b := old(builder.numTargets);
      && merkleRoot.elements == Range(b, 4) && nullifier.elements == Range(b + 4, 4) && topic == Range(b + 8, 4)
      && siblings == HashRange(b + 12, h) && privateKey == Range(b + 12 + 4 * h, 4)
      && publicKeyIndex == b + 16 + 4 * h && publicKeyIndexBits == Range(b + 17 + 4 * h, h) && zero == b + 17 + 5 * h
      && builder.numTargets == b + 18 + 5 * h
      && builder.publicInputs == old(builder.publicInputs) + Range(b, 4) + Range(b + 4, 4) + Range(b + 8, 4)
      && builder.constraints == old(builder.constraints)
           + [SplitLe(publicKeyIndex, publicKeyIndexBits), Constant(zero, ZERO)]
  {
    merkleRoot, nullifier, topic := DeclarePublicInputs(builder);
    siblings := builder.AddVirtualHashes(h);
    privateKey := builder.AddVirtualTargets(4);
    publicKeyIndex := builder.AddVirtualTarget();
    publicKeyIndexBits := builder.SplitLe(publicKeyIndex, h);
    zero := builder.Zero();
  }

  /** Copy constraints from each public nullifier wire to the matching wire of the in-circuit hash. */
  method ConnectNullifier(builder: CircuitBuilder, nullifier: seq<Target>, shouldBeNullifier: seq<Target>)
    requires |nullifier| == 4 && |shouldBeNullifier| == 4
    modifies builder
    ensures builder.constraints == old(builder.constraints) + ConnectAll(nullifier, shouldBeNullifier, 4)
    ensures builder.numTargets == old(builder.numTargets) && builder.publicInputs == old(builder.publicInputs)
  {
    for i := 0 to 4
      invariant builder.constraints == old(builder.constraints) + ConnectAll(nullifier, shouldBeNullifier, i)
      invariant builder.numTargets == old(builder.numTargets) && builder.publicInputs == old(builder.publicInputs)
    {
      builder.Connect(nullifier[i], shouldBeNullifier[i]);
    }
  }

  /**
   * Second phase of the circuit: the Merkle membership check of key ‖ [0; 4],
   * the in-circuit nullifier hash of key ‖ topic on four fresh wires, and the
   * copy constraints tying those wires to the public nullifier.
   */
  method DefineGates(builder: CircuitBuilder, merkleRoot: HashOutTarget, nullifier: HashOutTarget, topic: seq<Target>,
                     siblings: seq<HashOutTarget>, privateKey: seq<Target>, publicKeyIndexBits: seq<Target>,
                     zero: Target)
    requires |nullifier.elements| == 4
    modifies builder
    ensures var n := old(builder.numTargets);
      && builder.numTargets == n + 4
      && builder.publicInputs == old(builder.publicInputs)
      && builder.constraints == old(builder.constraints)
           + [ Constraint.MerkleProof(privateKey + [zero, zero, zero, zero], publicKeyIndexBits, merkleRoot.elements,
                                      Elements(siblings)),
               HashNoPad(privateKey + topic, Range(n, 4)) ]
           + ConnectAll(nullifier.elements, Range(n, 4), 4)
  {
    builder.VerifyMerkleProof(privateKey + [zero, zero, zero, zero], publicKeyIndexBits, merkleRoot, siblings);
    var shouldBeNullifier := builder.HashNToHashNoPad(privateKey + topic);
    ConnectNullifier(builder, nullifier.elements, shouldBeNullifier.elements);
  }

  /**
   * Builds the semaphore circuit: the targets of `DefineTargets`, then the
   * Merkle membership check of the leaf key ‖ [0; 4] against the root, the
   * in-circuit nullifier hash of key ‖ topic, and four copy constraints
   * tying it to the public nullifier.
   */
  method SemaphoreCircuit(accessSet: AccessSet, builder: CircuitBuilder) returns (targets: SemaphoreTargets)
    requires accessSet.Valid()
    modifies builder
    ensures var l := Layout(old(builder.numTargets), TreeHeight(accessSet));
      && targets == l.Targets()
      && builder.numTargets == old(builder.numTargets) + l.Width()
      && builder.publicInputs == old(builder.publicInputs) + l.PublicInputs()
      && builder.constraints == old(builder.constraints) + l.Constraints()
  {
    ghost var l := Layout(builder.numTargets, TreeHeight(accessSet));
    ghost var pis, cs := builder.publicInputs, builder.constraints;
    var merkleRoot, nullifier, topic, siblings, privateKey, publicKeyIndex, publicKeyIndexBits, zero :=
      DefineTargets(TreeHeight(accessSet), builder);

    ghost var n := builder.numTargets;
    DefineGates(builder, merkleRoot, nullifier, topic, siblings, privateKey, publicKeyIndexBits, zero);
    targets := SemaphoreTargets(merkleRoot, topic, siblings, privateKey, publicKeyIndex);
    LayoutOfTargets(l, pis, cs, merkleRoot, nullifier, topic, siblings, privateKey, publicKeyIndex,
                    publicKeyIndexBits, zero, n);
  }

  /** The targets and constraints the two phases produce, from wire `l.base` on, are those of the layout. */
  lemma LayoutOfTargets(l: Layout, pis: seq<Target>, cs: seq<Constraint>, merkleRoot: HashOutTarget, nullifier: HashOutTarget,
                        topic: seq<Target>, siblings: seq<HashOutTarget>, privateKey: seq<Target>,
                        publicKeyIndex: Target, publicKeyIndexBits: seq<Target>, zero: Target, n: nat)
    requires var b, h := l.base, l.h;
      && merkleRoot.elements == Range(b, 4) && nullifier.elements == Range(b + 4, 4) && topic == Range(b + 8, 4)
      && siblings == HashRange(b + 12, h) && privateKey == Range(b + 12 + 4 * h, 4)
      && publicKeyIndex == b + 16 + 4 * h && publicKeyIndexBits == Range(b + 17 + 4 * h, h) && zero == b + 17 + 5 * h
      && n == b + 18 + 5 * h
    ensures SemaphoreTargets(merkleRoot, topic, siblings, privateKey, publicKeyIndex) == l.Targets()
    ensures n + 4 == l.base + l.Width()
    ensures pis + Range(l.base, 4) + Range(l.base + 4, 4) + Range(l.base + 8, 4) == pis + l.PublicInputs()
    ensures cs + [SplitLe(publicKeyIndex, publicKeyIndexBits), Constant(zero, ZERO)]
           + [ Constraint.MerkleProof(privateKey + [zero, zero, zero, zero], publicKeyIndexBits, merkleRoot.elements,
                                      Elements(siblings)),
               HashNoPad(privateKey + topic, Range(n, 4)) ]
           + ConnectAll(nullifier.elements, Range(n, 4), 4)
         == cs + l.Constraints()
  {
    var gates := [SplitLe(publicKeyIndex, publicKeyIndexBits), Constant(zero, ZERO)]
           + [ Constraint.MerkleProof(privateKey + [zero, zero, zero, zero], publicKeyIndexBits, merkleRoot.elements,
                                      Elements(siblings)),
               HashNoPad(privateKey + topic, Range(n, 4)) ];
    assert gates == l.Gates();
  }

  /** Binds digests to hash targets pairwise, up to the shorter of the two. */
  function AssignHashes(w: Witness, hts: seq<HashOutTarget>, ds: seq<Digest>): Witness
    decreases |hts|
  {
    if hts == [] || ds == [] then w else AssignHashes(Assign(w, hts[0].elements, ds[0]), hts[1..], ds[1..])
  }

  /** Binding digests to a run of hash targets binds their flattened elements to consecutive wires. */
  lemma {:induction false} AssignHashesRange(w: Witness, start: nat, ds: seq<Digest>)
    ensures AssignHashes(w, HashRange(start, |ds|), ds) == w + RangeMap(start, Flatten(ds))
    decreases |ds|
  {
    if ds != [] {
      var hts := HashRange(start, |ds|);
      var m0, m1 := RangeMap(start, ds[0]), RangeMap(start + 4, Flatten(ds[1..]));
      assert hts[1..] == HashRange(start + 4, |ds[1..]|);
      assert Assign(w, hts[0].elements, ds[0]) == w + m0 by { AssignRange(w, start, ds[0]); }
      assert AssignHashes(w, hts, ds) == AssignHashes(w + m0, HashRange(start + 4, |ds[1..]|), ds[1..]);
      AssignHashesRange(w + m0, start + 4, ds[1..]);
      MergeAssoc(w, m0, m1);
      RangeMapConcat(start, ds[0], Flatten(ds[1..]));
    } else {
      assert w + RangeMap(start, []) == w;
    }
  }

  /**
   * The partial witness after `FillSemaphoreTargets`, starting from `w`,
   * for the cap entry `root`, the embedded index and the authentication path.
   */
  function Filled(targets: SemaphoreTargets, root: Digest, privateKey: Digest, topic: Digest, index: F,
                  path: seq<Digest>, w: Witness): Witness
  {
    var w1 := Assign(w, targets.merkleRoot.elements, root);
    var w2 := Assign(w1, targets.privateKey, privateKey);
    var w3 := Assign(w2, targets.topic, topic);
    var w4 := w3[targets.publicKeyIndex := index];
    AssignHashes(w4, targets.merkleProof, path)
  }

  /**
   * Binds the root to the tree's single cap entry, the key and the topic
   * element by element, the index as a field element, and the siblings to
   * the tree's authentication path of `index`. The nullifier wires are left
   * to the generators.
   */
  method FillSemaphoreTargets(hs: Hasher, accessSet: AccessSet, pw: PartialWitness, privateKey: Digest,
                              topic: Digest, publicKeyIndex: Usize, targets: SemaphoreTargets)
    requires accessSet.Valid() && publicKeyIndex < |accessSet.tree.leaves|
    modifies pw
    ensures pw.values == Filled(targets, accessSet.tree.Cap(hs)[0], privateKey, topic,
                                FromCanonicalUsize(publicKeyIndex), accessSet.tree.Prove(hs, publicKeyIndex).siblings,
                                old(pw.values))
  {
    pw.SetHashTarget(targets.merkleRoot, accessSet.tree.Cap(hs)[0]);
    pw.SetTargets(targets.privateKey, privateKey);
    pw.SetTargets(targets.topic, topic);
    pw.SetTarget(targets.publicKeyIndex, FromCanonicalUsize(publicKeyIndex));

    var merkleProof := accessSet.tree.Prove(hs, publicKeyIndex);
    var n := if |targets.merkleProof| < |merkleProof.siblings| then |targets.merkleProof| else |merkleProof.siblings|;
    ghost var w4 := pw.values;
    for i := 0 to n
      invariant AssignHashes(pw.values, targets.merkleProof[i..], merkleProof.siblings[i..])
             == AssignHashes(w4, targets.merkleProof, merkleProof.siblings)
    {
      assert targets.merkleProof[i..][1..] == targets.merkleProof[i + 1..];
      assert merkleProof.siblings[i..][1..] == merkleProof.siblings[i + 1..];
      pw.SetHashTarget(targets.merkleProof[i], merkleProof.siblings[i]);
    }
  }

  /** What a fill binds, for targets laid out from `base` as on a fresh builder. */
  predicate LaidOut(t: SemaphoreTargets, base: nat, h: nat) {
    && t.merkleRoot.elements == Range(base, 4) && t.topic == Range(base + 8, 4)
    && t.merkleProof == HashRange(base + 12, h) && t.privateKey == Range(base + 12 + 4 * h, 4)
    && t.publicKeyIndex == base + 16 + 4 * h
  }

  lemma LayoutLaidOut(base: nat, h: nat)
    ensures LaidOut(Layout(base, h).Targets(), base, h)
  {
  }

  /** Four runs of consecutive wires and the index wire, added to `w`. */
  function FillRuns(root: Digest, privateKey: Digest, topic: Digest, index: F, path: seq<Digest>, base: nat,
                    w: Witness): Witness
  {
    KeyRuns(root, privateKey, topic, base, |path|, w)[base + 16 + 4 * |path| := index]
    + RangeMap(base + 12, Flatten(path))
  }

  /** The root, key and topic runs added to `w`. */
  function KeyRuns(root: Digest, privateKey: Digest, topic: Digest, base: nat, h: nat, w: Witness): Witness {
    w + RangeMap(base, root) + RangeMap(base + 12 + 4 * h, privateKey) + RangeMap(base + 8, topic)
  }

  /** The first two fills bind the root and the key on their runs. */
  lemma {:induction false} FilledRootKey(t: SemaphoreTargets, root: Digest, privateKey: Digest,
                                         base: nat, h: nat, w: Witness)
    requires t.merkleRoot.elements == Range(base, 4) && t.privateKey == Range(base + 12 + 4 * h, 4)
    ensures Assign(Assign(w, t.merkleRoot.elements, root), t.privateKey, privateKey)
         == w + RangeMap(base, root) + RangeMap(base + 12 + 4 * h, privateKey)
  {
    var w1 := w + RangeMap(base, root);
    AssignRange(w, base, root);
    AssignRange(w1, base + 12 + 4 * h, privateKey);
  }

  /** The first three fills bind the root, the key and the topic on their runs. */
  lemma {:induction false} FilledRuns(t: SemaphoreTargets, root: Digest, privateKey: Digest, topic: Digest,
                                      base: nat, h: nat, w: Witness)
    requires t.merkleRoot.elements == Range(base, 4) && t.privateKey == Range(base + 12 + 4 * h, 4)
    requires t.topic == Range(base + 8, 4)
    ensures Assign(Assign(Assign(w, t.merkleRoot.elements, root), t.privateKey, privateKey), t.topic, topic)
         == KeyRuns(root, privateKey, topic, base, h, w)
  {
    FilledRootKey(t, root, privateKey, base, h, w);
    AssignRange(w + RangeMap(base, root) + RangeMap(base + 12 + 4 * h, privateKey), base + 8, topic);
  }

  /**
   * The fill as one map: the root, the key and the topic on their runs, the
   * index on its wire and the flattened path on the sibling wires, and no
   * other wire bound.
   */
  lemma {:induction false} FilledMap(t: SemaphoreTargets, root: Digest, privateKey: Digest, topic: Digest, index: F,
                                     path: seq<Digest>, base: nat, w: Witness)
    requires LaidOut(t, base, |path|)
    ensures Filled(t, root, privateKey, topic, index, path, w) == FillRuns(root, privateKey, topic, index, path, base, w)
  {
    var h := |path|;
    FilledRuns(t, root, privateKey, topic, base, h, w);
    var w4 := KeyRuns(root, privateKey, topic, base, h, w)[base + 16 + 4 * h := index];
    AssignHashesRange(w4, base + 12, path);
  }
}
