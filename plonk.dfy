/**
 * The proving backend, reduced to what the semaphore core asks of it: a
 * circuit builder that allocates targets (wires), registers public inputs
 * and records constraints; a partial witness that binds values to targets;
 * witness generation; and an ideal prover and verifier. An ideal proof
 * carries the full assignment of the wires, so verification accepts exactly
 * when that assignment satisfies every constraint and gives the claimed
 * public inputs.
 */
module Plonk {
  import opened Field
  import opened Bits
  import opened Errors
  import Merkle

  /** A wire of the circuit, numbered in allocation order. */
  type Target = nat

  type Targets4 = ts: seq<Target> | |ts| == 4 witness [0, 0, 0, 0]

  /** Four targets that hold a digest. */
  datatype HashOutTarget = HashOutTarget(elements: Targets4)

  datatype Constraint =
    | Connect(a: Target, b: Target)
      // copy constraint: both wires carry the same value
    | Constant(t: Target, value: F)
    | SplitLe(integer: Target, bits: seq<Target>)
      // each bit is 0 or 1 and their little-endian sum equals `integer` in the field
    | HashNoPad(inputs: seq<Target>, output: Targets4)
    | MerkleProof(leafData: seq<Target>, indexBits: seq<Target>, root: Targets4, siblings: seq<Targets4>)
      // walking from the leaf digest of `leafData` reaches `root` (a cap of one entry)

  datatype CircuitData = CircuitData(numTargets: nat, publicInputs: seq<Target>, constraints: seq<Constraint>)

  /** What a verifier needs: it is derived from the circuit, never from a witness. */
  datatype VerifierCircuitData = VerifierCircuitData(circuit: CircuitData)

  type Witness = map<Target, F>

  datatype Proof = Proof(wires: Witness)

  datatype ProofWithPublicInputs = ProofWithPublicInputs(proof: Proof, publicInputs: seq<F>)

  /** n consecutive targets from `start`. */
  function Range(start: nat, n: nat): (ts: seq<Target>)
    ensures |ts| == n
  {
    seq(n, i => start + i)
  }

  lemma {:induction false} RangeIndex(start: nat, n: nat)
    ensures forall i | 0 <= i < n :: Range(start, n)[i] == start + i
    decreases n
  {
    if n > 0 {
      RangeIndex(start + 1, n - 1);
    }
  }

  lemma {:induction false} RangeSnoc(start: nat, n: nat)
    ensures Range(start, n + 1) == Range(start, n) + [start + n]
    decreases n
  {
    if n > 0 {
      RangeSnoc(start + 1, n - 1);
    }
  }

  /** n hash targets of four consecutive targets each, from `start`. */
  function HashRange(start: nat, n: nat): (hts: seq<HashOutTarget>)
    ensures |hts| == n
  {
    seq(n, j requires 0 <= j < n => HashOutTarget(Range(start + 4 * j, 4)))
  }

  /** The values `vs` placed on consecutive targets from `start`. */
  function RangeMap(start: nat, vs: seq<F>): (m: Witness)
    ensures forall k :: k in m <==> start <= k < start + |vs|
    ensures forall k | start <= k < start + |vs| :: m[k] == vs[k - start]
    decreases |vs|
  {
    if vs == [] then map[] else RangeMap(start + 1, vs[1..])[start := vs[0]]
  }

  /** Values on two adjacent runs of wires are the values on their union. */
  lemma RangeMapConcat(start: nat, vs1: seq<F>, vs2: seq<F>)
    ensures RangeMap(start, vs1 + vs2) == RangeMap(start, vs1) + RangeMap(start + |vs1|, vs2)
  {
    var m, m1, m2 := RangeMap(start, vs1 + vs2), RangeMap(start, vs1), RangeMap(start + |vs1|, vs2);
    forall k | k in m
      ensures k in m1 + m2 && m[k] == (m1 + m2)[k]
    {
      if k < start + |vs1| {
        assert m[k] == (vs1 + vs2)[k - start] == vs1[k - start];
      } else {
        assert m[k] == (vs1 + vs2)[k - start] == vs2[k - start - |vs1|];
      }
    }
    assert m == m1 + m2;
  }

  lemma MergeAssoc(a: Witness, b: Witness, c: Witness)
    ensures (a + b) + c == a + (b + c)
  {
  }

  predicate Assigned(w: Witness, ts: seq<Target>) {
    forall t <- ts :: t in w
  }

  function Values(w: Witness, ts: seq<Target>): (vs: seq<F>)
    requires Assigned(w, ts)
    ensures |vs| == |ts| && forall i | 0 <= i < |ts| :: vs[i] == w[ts[i]]
  {
    seq(|ts|, i requires 0 <= i < |ts| => w[ts[i]])
  }

  function DigestValues(w: Witness, ts: seq<Targets4>): (ds: seq<Digest>)
    requires forall s <- ts :: Assigned(w, s)
    ensures |ds| == |ts| && forall j | 0 <= j < |ts| :: ds[j] == Values(w, ts[j])
  {
    seq(|ts|, j requires 0 <= j < |ts| => Values(w, ts[j]))
  }

  lemma ValuesConcat(w: Witness, ts1: seq<Target>, ts2: seq<Target>)
    requires Assigned(w, ts1) && Assigned(w, ts2)
    ensures Assigned(w, ts1 + ts2) && Values(w, ts1 + ts2) == Values(w, ts1) + Values(w, ts2)
  {
  }

  predicate IsBool(v: F) {
    v == ZERO || v == ONE
  }

  /** Reads field values as bits; the split constraint makes each one 0 or 1. */
  function AsBits(vs: seq<F>): (bs: seq<bool>)
    ensures |bs| == |vs| && forall i | 0 <= i < |vs| :: bs[i] == (vs[i] == ONE)
  {
    seq(|vs|, i requires 0 <= i < |vs| => vs[i] == ONE)
  }

  function FromBits(bs: seq<bool>): (vs: seq<F>)
    ensures |vs| == |bs| && forall i | 0 <= i < |bs| :: vs[i] == if bs[i] then ONE else ZERO
  {
    seq(|bs|, i requires 0 <= i < |bs| => if bs[i] then ONE else ZERO)
  }

  /** Bits written as field elements read back as the same bits. */
  lemma AsBitsFromBits(bs: seq<bool>)
    ensures AsBits(FromBits(bs)) == bs
  {
  }

  /** Whether one constraint holds of a (complete) assignment. */
  predicate Holds(hs: Hasher, w: Witness, c: Constraint) {
    match c
    case Connect(a, b) => a in w && b in w && w[a] == w[b]
    case Constant(t, v) => t in w && w[t] == v
    case SplitLe(x, bits) =>
      x in w && Assigned(w, bits) && (forall b <- bits :: IsBool(w[b]))
      && Recompose(AsBits(Values(w, bits))) % P == w[x]
    case HashNoPad(ins, outs) =>
      Assigned(w, ins) && Assigned(w, outs) && Values(w, outs) == hs.hashNoPad(Values(w, ins))
    case MerkleProof(leaf, bits, root, sibs) =>
      Assigned(w, leaf) && Assigned(w, bits) && Assigned(w, root) && (forall s <- sibs :: Assigned(w, s))
      && |bits| == |sibs|
      && Merkle.Walk(hs, HashOrNoop(hs, Values(w, leaf)), AsBits(Values(w, bits)), DigestValues(w, sibs))
         == Values(w, root)
  }

  /** Every wire is assigned and every constraint holds. */
  predicate Satisfies(hs: Hasher, data: CircuitData, w: Witness) {
    && (forall t | 0 <= t < data.numTargets :: t in w)
    && Assigned(w, data.publicInputs)
    && (forall c <- data.constraints :: Holds(hs, w, c))
  }

  /** Assigns `vs` to `ts` in order, overwriting (the partial witness's `set_target`). */
  function Assign(w: Witness, ts: seq<Target>, vs: seq<F>): Witness
    requires |ts| == |vs|
    decreases |ts|
  {
    if ts == [] then w else Assign(w[ts[0] := vs[0]], ts[1..], vs[1..])
  }

  /** Assigns `vs` to those of `ts` that have no value yet (what a generator does). */
  function FillUnassigned(w: Witness, ts: seq<Target>, vs: seq<F>): Witness
    requires |ts| == |vs|
    decreases |ts|
  {
    if ts == [] then w
    else FillUnassigned(if ts[0] in w then w else w[ts[0] := vs[0]], ts[1..], vs[1..])
  }

  /** The witness generator attached to one constraint. */
  function Generator(hs: Hasher, w: Witness, c: Constraint): Witness {
    match c
    case Connect(a, b) =>
      if a in w && b !in w then w[b := w[a]] else if b in w && a !in w then w[a := w[b]] else w
    case Constant(t, v) => if t in w then w else w[t := v]
    case SplitLe(x, bits) =>
      if x in w then FillUnassigned(w, bits, FromBits(SplitLE(w[x], |bits|))) else w
    case HashNoPad(ins, outs) =>
      if Assigned(w, ins) then FillUnassigned(w, outs, hs.hashNoPad(Values(w, ins))) else w
    case MerkleProof(_, _, _, _) => w
  }

  /** Runs the generators once, in the order the constraints were added. */
  function Generate(hs: Hasher, cs: seq<Constraint>, w: Witness): Witness
    decreases |cs|
  {
    if cs == [] then w else Generate(hs, cs[1..], Generator(hs, w, cs[0]))
  }

  /** Running the generators of two constraint lists in sequence. */
  lemma {:induction false} GenerateConcat(hs: Hasher, cs1: seq<Constraint>, cs2: seq<Constraint>, w: Witness)
    ensures Generate(hs, cs1 + cs2, w) == Generate(hs, cs2, Generate(hs, cs1, w))
    decreases |cs1|
  {
    if cs1 != [] {
      assert (cs1 + cs2)[1..] == cs1[1..] + cs2;
      GenerateConcat(hs, cs1[1..], cs2, Generator(hs, w, cs1[0]));
    } else {
      assert cs1 + cs2 == cs2;
    }
  }

  /** Proving: complete the partial witness, then succeed iff it satisfies the circuit. */
  function Prove(hs: Hasher, data: CircuitData, pw: Witness): (r: Result<ProofWithPublicInputs>)
    ensures r.Ok? <==> Satisfies(hs, data, Generate(hs, data.constraints, pw))
    ensures r.Err? ==> r.error == ProofConstruction
  {
    var w := Generate(hs, data.constraints, pw);
    if Satisfies(hs, data, w) then Ok(ProofWithPublicInputs(Proof(w), Values(w, data.publicInputs)))
    else Err(ProofConstruction)
  }

  /** Verification: the proof's wires satisfy the circuit and carry the given public inputs. */
  function Verify(hs: Hasher, vd: VerifierCircuitData, p: ProofWithPublicInputs): (r: Result<()>)
    ensures r.Err? ==> r.error == Verification
  {
    if Satisfies(hs, vd.circuit, p.proof.wires)
       && Values(p.proof.wires, vd.circuit.publicInputs) == p.publicInputs
    then Ok(())
    else Err(Verification)
  }

  /** A proof the prover produces is accepted by the verifier data of the same circuit. */
  lemma ProvedVerifies(hs: Hasher, data: CircuitData, pw: Witness)
    requires Prove(hs, data, pw).Ok?
    ensures Verify(hs, VerifierCircuitData(data), Prove(hs, data, pw).value).Ok?
  {
  }

  /** The verifier accepts some proof for `pis` iff a satisfying assignment yields `pis`. */
  lemma VerifyAcceptsIffWitness(hs: Hasher, vd: VerifierCircuitData, pis: seq<F>)
    ensures (exists p :: Verify(hs, vd, ProofWithPublicInputs(p, pis)).Ok?)
        <==> (exists w :: Satisfies(hs, vd.circuit, w) && Values(w, vd.circuit.publicInputs) == pis)
  {
    if exists w :: Satisfies(hs, vd.circuit, w) && Values(w, vd.circuit.publicInputs) == pis {
      var w :| Satisfies(hs, vd.circuit, w) && Values(w, vd.circuit.publicInputs) == pis;
      assert Verify(hs, vd, ProofWithPublicInputs(Proof(w), pis)).Ok?;
    }
  }

  /** Binding `k` before a merge that leaves `k` alone is binding it in the merged map. */
  lemma MergeUpdate(w: Witness, m: Witness, k: nat, v: F)
    requires k !in m
    ensures w[k := v] + m == (w + m)[k := v]
  {
  }

  /** Assigning a run of consecutive targets adds exactly that run. */
  lemma {:induction false} AssignRange(w: Witness, start: nat, vs: seq<F>)
    ensures Assign(w, Range(start, |vs|), vs) == w + RangeMap(start, vs)
    decreases |vs|
  {
    if vs != [] {
      var w' := w[start := vs[0]];
      assert Range(start, |vs|)[1..] == Range(start + 1, |vs[1..]|);
      AssignRange(w', start + 1, vs[1..]);
      MergeUpdate(w, RangeMap(start + 1, vs[1..]), start, vs[0]);
    } else {
      assert w + RangeMap(start, vs) == w;
    }
  }

  /** The backend's circuit builder: it allocates targets and records what is asked of it. */
  class CircuitBuilder {
    var numTargets: nat
    var publicInputs: seq<Target>
    var constraints: seq<Constraint>

    constructor ()
      ensures numTargets == 0 && publicInputs == [] && constraints == []
    {
      numTargets, publicInputs, constraints := 0, [], [];
    }

    /** The circuit as built so far. */
    function Build(): (data: CircuitData)
      reads this
    {
      CircuitData(numTargets, publicInputs, constraints)
    }

    method AddVirtualTarget() returns (t: Target)
      modifies this
      ensures t == old(numTargets) && numTargets == old(numTargets) + 1
      ensures publicInputs == old(publicInputs) && constraints == old(constraints)
    {
      t := numTargets;
      numTargets := numTargets + 1;
    }

    method AddVirtualTargets(n: nat) returns (ts: seq<Target>)
      modifies this
      ensures ts == Range(old(numTargets), n) && numTargets == old(numTargets) + n
      ensures publicInputs == old(publicInputs) && constraints == old(constraints)
    {
      ts := [];
      for i := 0 to n
        invariant ts == Range(old(numTargets), i) && numTargets == old(numTargets) + i
        invariant publicInputs == old(publicInputs) && constraints == old(constraints)
      {
        var t := AddVirtualTarget();
        RangeSnoc(old(numTargets), i);
        ts := ts + [t];
      }
    }

    method AddVirtualHash() returns (h: HashOutTarget)
      modifies this
      ensures h.elements == Range(old(numTargets), 4) && numTargets == old(numTargets) + 4
      ensures publicInputs == old(publicInputs) && constraints == old(constraints)
    {
      var ts := AddVirtualTargets(4);
      h := HashOutTarget(ts);
    }

    method AddVirtualHashes(n: nat) returns (hs: seq<HashOutTarget>)
      modifies this
      ensures hs == HashRange(old(numTargets), n) && numTargets == old(numTargets) + 4 * n
      ensures publicInputs == old(publicInputs) && constraints == old(constraints)
    {
      hs := [];
      for j := 0 to n
        invariant hs == HashRange(old(numTargets), j) && numTargets == old(numTargets) + 4 * j
        invariant publicInputs == old(publicInputs) && constraints == old(constraints)
      {
        var h := AddVirtualHash();
        hs := hs + [h];
        assert hs == HashRange(old(numTargets), j + 1);
      }
    }

    method RegisterPublicInputs(ts: seq<Target>)
      modifies this
      ensures publicInputs == old(publicInputs) + ts
      ensures numTargets == old(numTargets) && constraints == old(constraints)
    {
      publicInputs := publicInputs + ts;
    }

    /** `split_le`: n fresh bit wires constrained to be the little-endian bits of x. */
    method SplitLe(x: Target, n: nat) returns (bits: seq<Target>)
      modifies this
      ensures bits == Range(old(numTargets), n) && numTargets == old(numTargets) + n
      ensures constraints == old(constraints) + [Constraint.SplitLe(x, bits)]
      ensures publicInputs == old(publicInputs)
    {
      bits := AddVirtualTargets(n);
      constraints := constraints + [Constraint.SplitLe(x, bits)];
    }

    /** The constant zero, on a wire of its own. */
    method Zero() returns (t: Target)
      modifies this
      ensures t == old(numTargets) && numTargets == old(numTargets) + 1
      ensures constraints == old(constraints) + [Constant(t, ZERO)]
      ensures publicInputs == old(publicInputs)
    {
      t := AddVirtualTarget();
      constraints := constraints + [Constant(t, ZERO)];
    }

    /** `verify_merkle_proof` against a cap holding the single digest `root`. */
    method VerifyMerkleProof(leafData: seq<Target>, indexBits: seq<Target>, root: HashOutTarget,
                             siblings: seq<HashOutTarget>)
      modifies this
      ensures constraints == old(constraints)
                + [MerkleProof(leafData, indexBits, root.elements, Elements(siblings))]
      ensures numTargets == old(numTargets) && publicInputs == old(publicInputs)
    {
      constraints := constraints + [MerkleProof(leafData, indexBits, root.elements, Elements(siblings))];
    }

    /** `hash_n_to_hash_no_pad`: four fresh wires constrained to the hash of `inputs`. */
    method HashNToHashNoPad(inputs: seq<Target>) returns (h: HashOutTarget)
      modifies this
      ensures h.elements == Range(old(numTargets), 4) && numTargets == old(numTargets) + 4
      ensures constraints == old(constraints) + [HashNoPad(inputs, h.elements)]
      ensures publicInputs == old(publicInputs)
    {
      h := AddVirtualHash();
      constraints := constraints + [HashNoPad(inputs, h.elements)];
    }

    method Connect(a: Target, b: Target)
      modifies this
      ensures constraints == old(constraints) + [Constraint.Connect(a, b)]
      ensures numTargets == old(numTargets) && publicInputs == old(publicInputs)
    {
      constraints := constraints + [Constraint.Connect(a, b)];
    }
  }

  function Elements(hts: seq<HashOutTarget>): (ts: seq<Targets4>)
    ensures |ts| == |hts| && forall j | 0 <= j < |hts| :: ts[j] == hts[j].elements
  {
    seq(|hts|, j requires 0 <= j < |hts| => hts[j].elements)
  }

  /** The backend's partial witness: the values the caller binds before proving. */
  class PartialWitness {
    var values: Witness

    constructor ()
      ensures values == map[]
    {
      values := map[];
    }

    method SetTarget(t: Target, v: F)
      modifies this
      ensures values == old(values)[t := v]
    {
      values := values[t := v];
    }

    method SetTargets(ts: seq<Target>, vs: seq<F>)
      requires |ts| == |vs|
      modifies this
      ensures values == Assign(old(values), ts, vs)
    {
      for i := 0 to |ts|
        invariant Assign(values, ts[i..], vs[i..]) == Assign(old(values), ts, vs)
      {
        assert ts[i..][1..] == ts[i + 1..] && vs[i..][1..] == vs[i + 1..];
        SetTarget(ts[i], vs[i]);
      }
    }

    method SetHashTarget(ht: HashOutTarget, h: Digest)
      modifies this
      ensures values == Assign(old(values), ht.elements, h)
    {
      SetTargets(ht.elements, h);
    }
  }
}
