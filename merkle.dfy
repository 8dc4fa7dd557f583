/**
 * A reference binary Merkle tree with a cap of height 0, over the abstract
 * hash. It stands in for the proving library's `MerkleTree::new` / `prove`,
 * which are not part of this model: it is the assumption the semaphore
 * circuit relies on, that walking the authentication path of leaf i from
 * that leaf's digest, going left or right by the little-endian bits of i,
 * reaches the single cap entry.
 */
module Merkle {
  import opened Field
  import opened Bits
  import opened Errors

  /** One level of the walk: a set bit means the current digest is the right child. */
  function Step(hs: Hasher, state: Digest, bit: bool, sibling: Digest): Digest
  {
    if bit then hs.twoToOne(sibling, state) else hs.twoToOne(state, sibling)
  }

  /** Walks from a leaf digest up the siblings, bottom level first. */
  function Walk(hs: Hasher, leaf: Digest, bits: seq<bool>, siblings: seq<Digest>): Digest
    requires |bits| == |siblings|
    decreases |siblings|
  {
    if siblings == [] then leaf
    else Walk(hs, Step(hs, leaf, bits[0], siblings[0]), bits[1..], siblings[1..])
  }

  /** The level above `ds`: adjacent pairs compressed. */
  function ParentLevel(hs: Hasher, ds: seq<Digest>): (ps: seq<Digest>)
    ensures |ps| == |ds| / 2
  {
    seq(|ds| / 2, j requires 0 <= j < |ds| / 2 => hs.twoToOne(ds[2 * j], ds[2 * j + 1]))
  }

  /** The root of a level of 2^h digests. */
  function RootOf(hs: Hasher, ds: seq<Digest>, h: nat): Digest
    requires |ds| == Pow2(h)
    decreases h
  {
    if h == 0 then ds[0] else RootOf(hs, ParentLevel(hs, ds), h - 1)
  }

  /** The other child of the same parent. */
  function Sibling(ds: seq<Digest>, i: nat): Digest
    requires i < |ds| && |ds| % 2 == 0
  {
    if i % 2 == 0 then ds[i + 1] else ds[i - 1]
  }

  /** The authentication path of position i in a level of 2^h digests, bottom up. */
  function PathOf(hs: Hasher, ds: seq<Digest>, h: nat, i: nat): (siblings: seq<Digest>)
    requires |ds| == Pow2(h) && i < |ds|
    ensures |siblings| == h
    decreases h
  {
    if h == 0 then [] else [Sibling(ds, i)] + PathOf(hs, ParentLevel(hs, ds), h - 1, i / 2)
  }

  /** Walking the path of position i with the h bits of i reaches the root. */
  lemma {:induction false} PathLeadsToRoot(hs: Hasher, ds: seq<Digest>, h: nat, i: nat)
    requires |ds| == Pow2(h) && i < |ds|
    ensures Walk(hs, ds[i], SplitLE(i, h), PathOf(hs, ds, h, i)) == RootOf(hs, ds, h)
    decreases h
  {
    if h > 0 {
      var ps := ParentLevel(hs, ds);
      assert Step(hs, ds[i], i % 2 == 1, Sibling(ds, i)) == ps[i / 2];
      PathLeadsToRoot(hs, ps, h - 1, i / 2);
    }
  }

  datatype MerkleProof = MerkleProof(siblings: seq<Digest>)

  /** The tree is determined by its leaves (public keys as vectors of field elements). */
  datatype MerkleTree = MerkleTree(leaves: seq<seq<F>>) {
    /** The library only builds trees over a power-of-two number of leaves. */
    predicate Valid() {
      |leaves| < USIZE_LIMIT && IsPow2(|leaves|)
    }

    /** `log2_strict` of the leaf count. */
    function Height(): (h: nat)
      requires Valid()
      ensures Pow2(h) == |leaves|
    {
      IsPow2Iff(|leaves|);
      TrailingZeros(|leaves|)
    }

    function LeafDigests(hs: Hasher): (ds: seq<Digest>)
      ensures |ds| == |leaves|
    {
      seq(|leaves|, i requires 0 <= i < |leaves| => HashOrNoop(hs, leaves[i]))
    }

    /** The cap of height 0: the root alone. */
    function Cap(hs: Hasher): (cap: seq<Digest>)
      requires Valid()
      ensures |cap| == 1
    {
      [RootOf(hs, LeafDigests(hs), Height())]
    }

    /** The authentication path of leaf `index`; the library aborts for an index out of range. */
    function Prove(hs: Hasher, index: nat): (proof: MerkleProof)
      requires Valid() && index < |leaves|
      ensures |proof.siblings| == Height()
    {
      MerkleProof(PathOf(hs, LeafDigests(hs), Height(), index))
    }
  }

  /** `MerkleTree::new(leaves, 0)`; a leaf count that is not a power of two is refused. */
  function New(leaves: seq<seq<F>>): (r: Result<MerkleTree>)
    requires |leaves| < USIZE_LIMIT
    ensures r.Ok? <==> exists h: nat :: Pow2(h) == |leaves|
    ensures r.Ok? ==> r.value.leaves == leaves && r.value.Valid()
    ensures r.Err? ==> r.error == InvalidSetSize
  {
    IsPow2Exists(|leaves|);
    if IsPow2(|leaves|) then Ok(MerkleTree(leaves)) else Err(InvalidSetSize)
  }

  /**
   * Membership: the path the tree hands out for leaf `index`, walked from
   * that leaf's digest with the little-endian bits of `index`, reaches the cap.
   */
  lemma Membership(hs: Hasher, tree: MerkleTree, index: nat)
    requires tree.Valid() && index < |tree.leaves|
    ensures Walk(hs, HashOrNoop(hs, tree.leaves[index]), SplitLE(index, tree.Height()),
                 tree.Prove(hs, index).siblings) == tree.Cap(hs)[0]
  {
    PathLeadsToRoot(hs, tree.LeafDigests(hs), tree.Height(), index);
  }
}
