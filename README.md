# plonky2-semaphore in Dafny

A model of Semaphore-style anonymous signalling over plonky2. An *access set*
is a Merkle tree whose leaves are the members' public keys. A public key is
`H(sk ‖ [0; 4])`, where `sk` is a four-element private key. A member signals
on a *topic* with two things:

- the *nullifier* `H(sk ‖ topic)`;
- a proof that the nullifier comes from the key behind some leaf.

A verifier rebuilds the public inputs from three parts: the tree's root (a cap
of height 0), the nullifier and the topic. It then checks the proof against
them.

The model has these modules:

- `Field`: the algebra.
  - Goldilocks field elements, 4-element digests, the `usize` to field embedding.
  - `Hasher`, which passes the hash in as a value. It has two functions: the
    sponge hash without padding, and the two-to-one compression used by the tree.
  - Leaf hashing (`HashOrNoop`).
- `Bits`: little-endian splitting and recomposition, powers of two, and
  `usize::trailing_zeros`.
- `Merkle`: a reference binary Merkle tree with a cap of height 0. It stands
  in for the proving library's `MerkleTree::new` and `prove`, which are not
  part of this model. It carries the one assumption the circuit relies on:
  walking leaf i's authentication path from that leaf's digest, choosing
  left or right by the little-endian bits of i, reaches the single cap entry.
- `Plonk`: the proving backend, reduced to what the core calls.
  - A `CircuitBuilder` class that allocates wires, registers public inputs
    and records constraints.
  - A `PartialWitness` class that binds values to wires.
  - Constraints: copy, constant, `split_le`, sponge hash, Merkle proof.
  - Witness generators, which fill only unassigned wires, once, in
    constraint order.
  - An ideal prover and verifier. A proof carries the completed assignment
    of the wires. Proving succeeds exactly when that assignment satisfies
    every constraint. Verification accepts exactly when the proof's
    assignment satisfies the circuit and yields the claimed public inputs.
- `Circuit` (`src/circuit.rs`):
  - `tree_height`;
  - `semaphore_circuit`, as imperative Dafny on the builder, including the
    four-step connect loop;
  - `fill_semaphore_targets`, as imperative Dafny on the partial witness,
    including the loop over the zipped siblings.

  The `Layout` datatype says where every wire lies.
- `Semantics`: what the circuit means, stated as `Relation`. Walking from
  the leaf of `sk ‖ [0; 4]` up the siblings, choosing left or right by the h
  little-endian bits of the index, reaches the public root. The public
  nullifier is `H(sk ‖ topic)`. The module proves soundness: any satisfying
  assignment gives the relation on its wires. It also proves that the
  circuit holds of a member's values exactly when those values are in the
  relation.
- `Generation`: witness generation from the signer's bindings. The
  generators complete the bindings to exactly the wire values the relation
  speaks of. So proving from a member's inputs succeeds exactly when those
  inputs are in the relation, and the circuit has a satisfying assignment
  for public inputs `pis` exactly when some key, index and path put `pis`
  in the relation.
- `Signals` (`src/access_set.rs`):
  - `verify_signal`, a function that rebuilds the public inputs and
    delegates to the verifier;
  - `make_signal`, a method that builds the circuit on a fresh builder,
    fills a fresh partial witness and proves. It is specified by the
    function `Signed`.

  The module also proves the protocol's properties: the round trip, an
  honest member's success, the binding of a proof to its root, nullifier and
  topic, and the determinism of the nullifier.

Failures are the four cases of `Errors.Error`:

- `InvalidSetSize`: `Merkle.New` returns it for a leaf count that is not a
  power of two. `MerkleTree::new` aborts there instead.
- `IndexOutOfRange`: `Signals.MakeSignal` returns it for an index outside
  the access set. It does so after the circuit is built and just before the
  fill. The code aborts a little later, in `MerkleTree::prove` inside
  `fill_semaphore_targets`, after the root, key, topic and index are bound.
  The difference cannot be observed, because the abort discards the partial
  witness.
- `ProofConstruction`: `Plonk.Prove` returns it when the completed
  assignment does not satisfy the circuit. `make_signal` passes it on.
- `Verification`: `Plonk.Verify`, and so `Signals.VerifySignal`, return it
  for a rejected proof.

## Model

| member | source | states |
|---|---|---|
| Circuit.TreeHeight | src/circuit.rs:22-28 | the trailing zeros of a leaf count 2^h are h, so that 2^h equals the number of leaves and h equals the tree's `log2_strict` height |
| Circuit.TreeHeightOfPow2 | src/circuit.rs:22-28 | for a leaf count of exactly 2^h, the height is h |
| Bits.TrailingZeros | src/circuit.rs:26-28 | `usize::trailing_zeros`: 64 for zero; otherwise r such that 2^r divides n and n / 2^r is odd |
| Bits.TrailingZerosOfPow2 | src/circuit.rs:22-25 | the trailing zeros of 2^h are h, for every 2^h a `usize` can hold |
| Circuit.SemaphoreShape | src/circuit.rs:38-57 | the built circuit has 12 public inputs: wires 0..11, root then nullifier then topic; h sibling digests; h index bits |
| Circuit.DeclarePublicInputs | src/circuit.rs:38-43 | registers the root, nullifier and topic wires, four fresh consecutive wires each, as public inputs in that order, and adds no constraint |
| Circuit.DefineTargets | src/circuit.rs:38-58 | allocates public inputs, then h sibling digests, key, index, h index-bit wires constrained by `split_le`, and the zero constant, each at its stated wire offset |
| Circuit.ConnectNullifier | src/circuit.rs:80-83 | after the loop, copy constraints tie each of the four public nullifier wires to the matching in-circuit hash wire, in order, and nothing else changes |
| Circuit.DefineGates | src/circuit.rs:62-83 | adds the Merkle membership check of `key ‖ [zero; 4]` against the root, hashes `key ‖ topic` onto four fresh wires, and connects those wires to the public nullifier |
| Circuit.SemaphoreCircuit | src/circuit.rs:30-93 | the builder grows by exactly `Layout.Width()` wires, the three public inputs and the constraints `Layout.Constraints()`; the returned targets are the layout's root, topic, h siblings, key and index |
| Circuit.LayoutOfTargets | src/circuit.rs:38-92 | the wires and constraints the two phases allocate are those of the layout starting at the builder's former wire count |
| Circuit.FillSemaphoreTargets | src/circuit.rs:96-129 | the partial witness becomes `Filled`: the root bound to the tree's single cap entry, key and topic element by element, the index embedded in the field, and the siblings bound pairwise to `prove(index)` up to the shorter of the two |
| Circuit.AssignHashesRange | src/circuit.rs:121-128 | binding a path to a run of sibling targets binds its flattened elements to consecutive wires |
| Circuit.FilledMap | src/circuit.rs:104-128 | on a fresh builder's targets the fill binds exactly five things: the root, key and topic runs, the index wire and the flattened path; nothing else is assigned |
| Field.FromCanonicalUsize | src/circuit.rs:116-119 | a `usize` below the field order is embedded unchanged; a larger one is reduced by one subtraction of the order |
| Field.Flatten | src/access_set.rs:30-35 | `flat_map` over the digests' elements: four elements per digest, digest j at positions 4j..4j+3 |
| Bits.RecomposeSplit | src/circuit.rs:53-57 | recomposing the n little-endian bits of x gives x mod 2^n |
| Bits.RecomposeSplitExact | src/circuit.rs:53-57 | an index below 2^h is recovered exactly from its h bits |
| Bits.SplitRecompose | src/circuit.rs:53-57 | the decomposition of width n is unique: splitting a recomposition gives back the same bits |
| Semantics.IndexSound | src/circuit.rs:53-57 | when the `split_le` constraint holds, the index is below 2^h and its h little-endian bits are the values of the bit wires, so an index of 2^h or more is unsatisfiable |
| Semantics.MembershipSound | src/circuit.rs:62-73 | when the membership constraint holds, walking from the leaf digest of `key ‖ [0; 4]` up the sibling wires, left or right by the bit wires, yields the root wires |
| Semantics.NullifierSound | src/circuit.rs:75-83 | when the hash and the four copy constraints hold, the public nullifier wires carry `H_nopad(key ‖ topic)` |
| Semantics.Sound | src/circuit.rs:30-93 | any assignment satisfying the circuit of height h puts its public, key, index and sibling values in the semaphore relation |
| Semantics.WireValues | src/circuit.rs:38-83 | the values a member's inputs give to the circuit's wires, slot by slot in allocation order |
| Semantics.CompleteFromRelation | src/circuit.rs:62-83 | an assignment carrying a member's values satisfies every constraint when those values are in the relation |
| Semantics.SatisfiesIffRelation | src/circuit.rs:30-93 | an assignment carrying a member's values satisfies the circuit if and only if those values are in the relation |
| Generation.GeneratedAgrees | src/circuit.rs:96-129 | from the signer's bindings, the generators bind every wire to the value `WireValues` lists, the index bits, the zero and both nullifiers included |
| Generation.ProveIffRelation | src/access_set.rs:72-77 | proving from a member's bindings succeeds if and only if the member's inputs are in the relation; the proof then carries root, `H(sk ‖ topic)` and topic as its public inputs |
| Generation.RelationWitness | src/circuit.rs:30-93 | inputs in the relation for `pis` give an assignment that satisfies the circuit and yields `pis` |
| Generation.CircuitIffRelation | src/circuit.rs:30-93 | the circuit of height h has a satisfying assignment with public inputs `pis` if and only if some key, index and h siblings put `pis` in the relation |
| Plonk.CircuitBuilder.constructor | src/access_set.rs:68 | a fresh builder: no wires, no public inputs, no constraints |
| Plonk.PartialWitness.constructor | src/access_set.rs:69 | a fresh partial witness binds no wire |
| Plonk.CircuitBuilder.Build | src/access_set.rs:76 | the circuit as built: the wire count, the public inputs in registration order and the constraints in the order added; `Signals.MakeSignal` proves it equals `SemaphoreData` of the set's height |
| Plonk.Generator | src/access_set.rs:77 | one constraint's witness generator: a copy fills whichever side is unbound from the other, a constant fills its wire if unbound, `split_le` fills the unbound bit wires with the bound integer's bits, the hash fills the unbound output wires once its inputs are bound, and the membership check fills nothing |
| Plonk.Generate | src/access_set.rs:77 | runs the generators once, in the order the constraints were added; `Generation.GeneratedAgrees` proves that from the signer's bindings this completes every wire of the semaphore circuit to the member's values |
| Plonk.Prove | src/access_set.rs:76-77 | proving succeeds if and only if the generated assignment satisfies the circuit; otherwise it fails with a proof-construction error |
| Plonk.Verify | src/access_set.rs:41-44 | a rejected proof fails with a verification error |
| Plonk.ProvedVerifies | src/access_set.rs:76-84 | a proof the prover produces is accepted with the verifier data of the same circuit |
| Plonk.VerifyAcceptsIffWitness | src/access_set.rs:41-44 | the verifier accepts some proof for `pis` if and only if a satisfying assignment yields `pis` |
| Semantics.Relation | src/circuit.rs:62-83 | the statement a proof attests: 12 public inputs, h siblings, an index below 2^h, the walk from the leaf digest of `key ‖ [0; 4]` up the siblings by the index's little-endian bits reaching the root, and the nullifier equal to `H_nopad(key ‖ topic)` |
| Bits.SplitLE | src/circuit.rs:53-57 | the n little-endian bits of an integer; there are exactly n of them |
| Bits.SplitLEBit | src/circuit.rs:53-57 | bit i of the n-bit split of x is (x / 2^i) mod 2, for every i below n |
| Bits.Recompose | src/circuit.rs:53-57 | the integer whose little-endian bits are given, which is below 2^n for n bits |
| Merkle.Walk | src/circuit.rs:64-73 | the membership walk: from the leaf digest, for each level bottom up, compress with that level's sibling, the current digest on the right when the index bit is set |
| Field.HashOrNoop | src/circuit.rs:64-69 | leaf hashing: leaf data of at most four elements is its own digest, padded with zeros; longer leaf data is hashed without padding |
| Merkle.MerkleTree.Cap | src/access_set.rs:30-35 | the cap of height 0: exactly one digest, the root of the leaves' digests |
| Plonk.Holds | src/circuit.rs:57-83 | when one constraint holds of an assignment: equal copies, the constant's value, boolean bits recomposing to the integer in the field, hash output equal to the hash of the inputs, and the Merkle walk reaching the root wires |
| Plonk.Satisfies | src/access_set.rs:76-77 | every wire assigned, every public input assigned and every constraint holding |
| Plonk.CircuitBuilder.AddVirtualTarget | src/circuit.rs:52 | one fresh wire, the next in allocation order; public inputs and constraints unchanged |
| Plonk.CircuitBuilder.AddVirtualTargets | src/circuit.rs:42-51 | n fresh consecutive wires; public inputs and constraints unchanged |
| Plonk.CircuitBuilder.AddVirtualHash | src/circuit.rs:38-40 | a hash target on four fresh consecutive wires; public inputs and constraints unchanged |
| Plonk.CircuitBuilder.RegisterPublicInputs | src/circuit.rs:38-43 | appends the given wires to the public inputs, in order; wires and constraints unchanged |
| Plonk.CircuitBuilder.Zero | src/circuit.rs:58 | takes one fresh wire and adds a `Constant` constraint holding it at zero |
| Plonk.CircuitBuilder.VerifyMerkleProof | src/circuit.rs:68-73 | appends one membership constraint over the leaf data, the index bits, the single root of the cap and the siblings; no wire allocated |
| Plonk.CircuitBuilder.HashNToHashNoPad | src/circuit.rs:77-78 | four fresh wires and one constraint that they carry the unpadded hash of the inputs |
| Plonk.CircuitBuilder.Connect | src/circuit.rs:82 | appends one copy constraint between the two wires; nothing else changes |
| Plonk.PartialWitness.SetTarget | src/circuit.rs:116-119 | binds one wire to the value, overwriting, and leaves every other binding alone |
| Plonk.PartialWitness.SetHashTarget | src/circuit.rs:113-127 | binds the four wires of a hash target to the digest's elements, in order |
| Plonk.CircuitBuilder.AddVirtualHashes | src/circuit.rs:46-48 | n fresh sibling digests on 4n consecutive new wires, and nothing else changes |
| Plonk.CircuitBuilder.SplitLe | src/circuit.rs:57 | h fresh bit wires and one `split_le` constraint on them |
| Plonk.PartialWitness.SetTargets | src/circuit.rs:114-115 | binds the values to the targets element by element, in order |
| Merkle.PathLeadsToRoot | src/signal.rs:48 | walking position i's authentication path with the h bits of i reaches the root of a level of 2^h digests |
| Merkle.Membership | src/circuit.rs:121 | the path the tree hands out for a leaf, walked from that leaf's digest with the index's bits, reaches the cap entry |
| Merkle.MerkleTree.Prove | src/circuit.rs:121 | the authentication path has exactly `tree_height()` siblings |
| Merkle.New | src/signal.rs:48 | building succeeds if and only if the leaf count is a power of two, keeps the leaves, and otherwise fails with an invalid-set-size error |
| Field.HashOrNoopOfLeafData | src/circuit.rs:68-69 | the circuit's eight-element leaf data `key ‖ [0; 4]` is hashed, giving the public key `H(key ‖ [0; 4])` |
| Signals.PublicInputs | src/access_set.rs:30-38 | the rebuilt public inputs are 12 elements: the cap entry, then the nullifier, then the topic |
| Signals.PublicInputsOrder | src/access_set.rs:30-38 | the rebuilt vector is exactly root ‖ nullifier ‖ topic, the circuit's registration order |
| Signals.PublicInputsInjective | src/access_set.rs:30-38 | a different nullifier or a different topic gives a different public-input vector |
| Signals.VerifySignal | src/access_set.rs:24-45 | verification fails only with a verification error |
| Signals.VerifyBindsSignal | src/access_set.rs:30-44 | a proof accepted by the same verifier data for two access sets, nullifiers and topics forces equal roots, equal nullifiers and equal topics: it cannot be replayed against another root, for another topic, or with a tampered nullifier |
| Signals.VerifiableIffRelation | src/access_set.rs:24-45 | for the verifier data of the access set's circuit, some proof makes the signal verify if and only if some key, index and path put root, nullifier and topic in the relation |
| Signals.Signed | src/access_set.rs:51-86 | on success the nullifier is `H_nopad(key ‖ topic)` and the verifier data is the circuit's; failure is an index-out-of-range error for an index outside the set, otherwise a proof-construction error |
| Signals.MakeSignal | src/access_set.rs:51-86 | the imperative build, fill and prove returns what `Signed` specifies |
| Signals.SignedIffRelation | src/access_set.rs:51-86 | signing succeeds if and only if the index is inside the set and its path, walked from the key's leaf, puts the signal's public inputs in the relation |
| Signals.HonestMemberSigns | src/signal.rs:39-53 | a member whose leaf is `H(key ‖ [0; 4])` obtains a signal for any topic |
| Signals.SignalVerifies | src/signal.rs:53-54 | a signal that signing produces verifies for its topic with the verifier data produced alongside it |
| Signals.SameKeySameNullifier | src/access_set.rs:58-59 | the nullifier depends only on the key and the topic, not on the index or the access set |

## Left out

- Zero knowledge and succinctness: an ideal proof carries the whole assignment. PLONK, FRI and `CircuitConfig::standard_recursion_zk_config` are not modelled.
- The Poseidon permutation: the hash is a parameter, so the model makes no collision-resistance claim. Soundness says that the walk from `H(key ‖ [0; 4])` reaches the root. It does not say which leaf that is.
- Signals.VerifyBindsSignal: holds by construction here. An ideal proof carries its wires, and so its public inputs. In plonky2 a proof is tied to its public inputs only computationally, through the Fiat–Shamir transcript.
- Semantics.Sound: concludes the relation on the wire values, not that the key belongs to a member. Getting from one to the other needs collision resistance, which an abstract hash cannot give.
- Signals.VerifySignal: does not say the verifier accepts only the circuit it was built for. A verifier datum from another circuit is accepted exactly when that circuit is satisfied; `VerifiableIffRelation` covers the access set's own circuit.
- Signals.MakeSignal: an index outside the set aborts the library's `prove` during the fill. The model returns `Err(IndexOutOfRange)` just before the fill instead.
- Merkle.New: the library aborts on a leaf count that is not a power of two. The model returns `Err(InvalidSetSize)`.
- Plonky2's constant caching, gate layout and generator scheduling: a generator runs once, in constraint order. The semaphore circuit needs nothing more.
- A `set_target` that conflicts with a value already bound aborts in the library. No caller in the core binds a wire twice, so the model overwrites.
- Plonk.Holds: the `split_le` constraint over zero bits forces the integer wire to 0, so for a one-leaf set (h = 0) the model pins the index wire at 0. The library's `split_le` may add no constraint for zero bits, which would leave that wire free. That library code is not part of this model. No protocol property changes, because the relation holds with index 0.
- Merkle caps above height 0: the core always builds a cap of height 0.
- The real tree's leaf order and internal layout: the reference tree pairs adjacent digests level by level. Only the membership assumption is relied on.
- `src/main.rs` and the test driver: random keys (`F::rand_arr`), the 2^20 demo size, `Instant` timing and `println!`.
- Field arithmetic beyond the canonical embedding of the index and the recomposition of its bits modulo the field order.
