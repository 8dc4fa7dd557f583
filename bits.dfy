/**
 * Powers of two, little-endian bit decomposition and trailing zeros: the
 * integer side of `split_le`, `tree_height` and `log2_strict`.
 */
module Bits {
  import opened Field

  function Pow2(n: nat): (r: nat)
    ensures r >= 1
  {
    if n == 0 then 1 else 2 * Pow2(n - 1)
  }

  lemma {:induction false} Pow2Monotone(a: nat, b: nat)
    requires a <= b
    ensures Pow2(a) <= Pow2(b)
  {
    if a < b {
      Pow2Monotone(a, b - 1);
    }
  }

  /** The first n little-endian bits of x: bit i is (x / 2^i) % 2. */
  function SplitLE(x: nat, n: nat): (bits: seq<bool>)
    ensures |bits| == n
  {
    if n == 0 then [] else [x % 2 == 1] + SplitLE(x / 2, n - 1)
  }

  /** Bit i of the split is bit i of x: (x / 2^i) mod 2. */
  lemma {:induction false} SplitLEBit(x: nat, n: nat)
    ensures forall i | 0 <= i < n :: SplitLE(x, n)[i] == ((x / Pow2(i)) % 2 == 1)
    decreases n
  {
    if n > 0 {
      SplitLEBit(x / 2, n - 1);
      forall i | 1 <= i < n
        ensures SplitLE(x, n)[i] == ((x / Pow2(i)) % 2 == 1)
      {
        ModDouble(x, Pow2(i - 1));
        assert SplitLE(x, n)[i] == SplitLE(x / 2, n - 1)[i - 1];
      }
    }
  }

  /** The integer whose little-endian bits are `bits`. */
  function Recompose(bits: seq<bool>): (r: nat)
    ensures r < Pow2(|bits|)
  {
    if bits == [] then 0 else (if bits[0] then 1 else 0) + 2 * Recompose(bits[1..])
  }

  lemma ModDouble(x: nat, a: nat)
    requires a > 0
    ensures x % (2 * a) == x % 2 + 2 * ((x / 2) % a)
    ensures x / (2 * a) == (x / 2) / a
  {
    var q, r0 := x / 2, x % 2;
    var k, r1 := q / a, q % a;
    assert x == 2 * a * k + (2 * r1 + r0);
    DivModUnique(x, 2 * a, k, 2 * r1 + r0);
  }

  lemma DivModUnique(x: nat, d: nat, q: nat, r: nat)
    requires d > 0 && r < d && x == d * q + r
    ensures x % d == r && x / d == q
  {
    var q', r' := x / d, x % d;
    assert x == d * q' + r';
    if q > q' {
      MulAtLeast(d, q - q');
    } else if q < q' {
      MulAtLeast(d, q' - q);
    }
  }

  lemma {:induction false} MulAtLeast(d: nat, k: nat)
    requires k >= 1
    ensures d * k >= d
  {
    if k > 1 {
      MulAtLeast(d, k - 1);
      assert d * k == d * (k - 1) + d;
    }
  }

  /** Splitting keeps exactly the residue modulo 2^n. */
  lemma {:induction false} RecomposeSplit(x: nat, n: nat)
    ensures Recompose(SplitLE(x, n)) == x % Pow2(n)
  {
    if n > 0 {
      RecomposeSplit(x / 2, n - 1);
      ModDouble(x, Pow2(n - 1));
      assert SplitLE(x, n)[1..] == SplitLE(x / 2, n - 1);
    }
  }

  /** A value below 2^n is recovered exactly from its n bits. */
  lemma RecomposeSplitExact(x: nat, n: nat)
    requires x < Pow2(n)
    ensures Recompose(SplitLE(x, n)) == x
  {
    RecomposeSplit(x, n);
  }

  /** Splitting inverts recomposition: the decomposition of width n is unique. */
  lemma {:induction false} SplitRecompose(bits: seq<bool>)
    ensures SplitLE(Recompose(bits), |bits|) == bits
  {
    if bits != [] {
      var x := Recompose(bits);
      DivModUnique(x, 2, Recompose(bits[1..]), if bits[0] then 1 else 0);
      SplitRecompose(bits[1..]);
    }
  }

  /** `usize::trailing_zeros`: 64 for zero. */
  function TrailingZeros(n: Usize): (r: nat)
    ensures n == 0 ==> r == 64
    ensures n > 0 ==> n % Pow2(r) == 0 && (n / Pow2(r)) % 2 == 1
    decreases n
  {
    if n == 0 then 64
    else if n % 2 == 1 then 0
    else
      var r' := TrailingZeros(n / 2);
      ModDouble(n, Pow2(r'));
      1 + r'
  }

  /** `log2_strict`'s test: shifting out the trailing zeros leaves exactly 1. */
  predicate IsPow2(n: Usize) {
    n > 0 && n / Pow2(TrailingZeros(n)) == 1
  }

  lemma {:induction false} TrailingZerosOfPow2(h: nat)
    requires Pow2(h) < USIZE_LIMIT
    ensures TrailingZeros(Pow2(h)) == h
  {
    if h > 0 {
      Pow2Monotone(h - 1, h);
      DivModUnique(Pow2(h), 2, Pow2(h - 1), 0);
      TrailingZerosOfPow2(h - 1);
    }
  }

  /** A power of two passes the test, and the test admits nothing else. */
  lemma IsPow2Iff(n: Usize)
    ensures IsPow2(n) <==> n > 0 && Pow2(TrailingZeros(n)) == n
  {
    if n > 0 {
      var p := Pow2(TrailingZeros(n));
      assert n == p * (n / p) + n % p;
      if n / p == 1 {
        assert n == p;
      }
      if p == n {
        DivModUnique(n, p, 1, 0);
      }
    }
  }

  lemma Pow2IsPow2(h: nat)
    requires Pow2(h) < USIZE_LIMIT
    ensures IsPow2(Pow2(h)) && TrailingZeros(Pow2(h)) == h
  {
    TrailingZerosOfPow2(h);
    IsPow2Iff(Pow2(h));
  }

  /** `log2_strict`'s test accepts exactly the powers of two. */
  lemma IsPow2Exists(n: Usize)
    ensures IsPow2(n) <==> exists h: nat :: Pow2(h) == n
  {
    IsPow2Iff(n);
    if exists h: nat :: Pow2(h) == n {
      var h: nat :| Pow2(h) == n;
      Pow2IsPow2(h);
    }
  }

  lemma {:induction false} Pow2Add(a: nat, b: nat)
    ensures Pow2(a + b) == Pow2(a) * Pow2(b)
  {
    if a > 0 {
      Pow2Add(a - 1, b);
    }
  }

  /** Every tree a `usize` can count has height at most 63, and 2^63 < P. */
  lemma Pow2BelowField(h: nat)
    requires Pow2(h) < USIZE_LIMIT
    ensures h <= 63 && Pow2(h) < P
  {
    assert Pow2(2) == 4;
    Pow2Add(2, 2);
    assert Pow2(4) == 16;
    Pow2Add(4, 4);
    assert Pow2(8) == 256;
    Pow2Add(8, 8);
    assert Pow2(16) == 0x1_0000;
    Pow2Add(16, 16);
    assert Pow2(32) == 0x1_0000_0000;
    Pow2Add(32, 32);
    assert Pow2(64) == USIZE_LIMIT;
    assert Pow2(63) == 0x8000_0000_0000_0000;
    if h > 63 {
      Pow2Monotone(64, h);
    }
    Pow2Monotone(h, 63);
  }
}
