/**
 * The algebraic base: Goldilocks field elements, 4-element digests and the
 * hash capability shared by the code outside and inside the circuit.
 */
module Field {
  /** Order of the Goldilocks field, 2^64 - 2^32 + 1. */
  const P: nat := 0xFFFF_FFFF_0000_0001

  /** A field element, kept in canonical form. */
  type F = x: nat | x < P

  const ZERO: F := 0
  const ONE: F := 1

  /** One more than the largest `usize` of a 64-bit target. */
  const USIZE_LIMIT: nat := 0x1_0000_0000_0000_0000

  type Usize = n: nat | n < USIZE_LIMIT

  /** A digest, a key or a topic: exactly four field elements. */
  type Digest = d: seq<F> | |d| == 4 witness [0, 0, 0, 0]

  const ZERO_DIGEST: Digest := [ZERO, ZERO, ZERO, ZERO]

  /** The elements of the digests, one digest after another (`flat_map` over `elements`). */
  function Flatten(ds: seq<Digest>): (fs: seq<F>)
    ensures |fs| == 4 * |ds|
    ensures forall j, k | 0 <= j < |ds| && 0 <= k < 4 :: fs[4 * j + k] == ds[j][k]
  {
    if ds == [] then [] else ds[0] + Flatten(ds[1..])
  }

  /**
   * Embedding of a `usize` into the field. A `usize` is below 2 * P, so at
   * most one subtraction of P brings it to canonical form; indices below P
   * are embedded unchanged.
   */
  function FromCanonicalUsize(n: Usize): (r: F)
    ensures n < P ==> r == n
    ensures n >= P ==> r == n - P
  {
    n % P
  }

  /**
   * The hash primitive. `hashNoPad` is the sponge hash of a sequence of field
   * elements without padding; `twoToOne` compresses two digests into one (the
   * inner nodes of a Merkle tree). The same two functions are used outside
   * the circuit and constrained inside it.
   */
  datatype Hasher = Hasher(hashNoPad: seq<F> -> Digest, twoToOne: (Digest, Digest) -> Digest)

  /**
   * Leaf hashing of the Merkle tree: inputs of at most four elements are
   * used as the digest itself, padded with zeros; longer inputs are hashed.
   */
  function HashOrNoop(hs: Hasher, inputs: seq<F>): Digest
  {
    if |inputs| <= 4 then inputs + seq(4 - |inputs|, _ => ZERO) else hs.hashNoPad(inputs)
  }

  /** A public key or any other digest is its own leaf digest. */
  lemma HashOrNoopOfDigest(hs: Hasher, d: Digest)
    ensures HashOrNoop(hs, d) == d
  {
    assert d + seq(0, _ => ZERO) == d;
  }

  /** The circuit's leaf data, a key followed by four zeros, is hashed. */
  lemma HashOrNoopOfLeafData(hs: Hasher, sk: Digest)
    ensures HashOrNoop(hs, sk + ZERO_DIGEST) == hs.hashNoPad(sk + ZERO_DIGEST)
  {
  }
}
