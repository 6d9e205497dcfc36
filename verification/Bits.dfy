/** Bytes, shifts and most-significant-bit-first bit lists. */
module Bits {
  type byte = x: int | 0 <= x < 256

  /** `c << k`, without a width. */
  function Shl(c: nat, k: nat): (r: nat)
    ensures r >= c
  {
    if k == 0 then c else 2 * Shl(c, k - 1)
  }

  /** `v >> k`. */
  function Shr(v: nat, k: nat): nat {
    if k == 0 then v else Shr(v / 2, k - 1)
  }

  lemma {:induction false} ShlAdd(a: nat, b: nat, k: nat)
    ensures Shl(a + b, k) == Shl(a, k) + Shl(b, k)
  {
    if k > 0 { ShlAdd(a, b, k - 1); }
  }

  lemma {:induction false} ShlGap(a: nat, b: nat, k: nat)
    requires a < b
    ensures Shl(a, k) + Shl(1, k) <= Shl(b, k)
  {
    ShlAdd(a, 1, k);
    ShlAdd(a + 1, b - a - 1, k);
  }

  lemma {:induction false} ShlInjective(a: nat, b: nat, k: nat)
    requires Shl(a, k) == Shl(b, k)
    ensures a == b
  {
    if a < b { ShlGap(a, b, k); } else if b < a { ShlGap(b, a, k); }
  }

  lemma {:induction false} ShlShl(c: nat, j: nat, k: nat)
    ensures Shl(Shl(c, j), k) == Shl(c, j + k)
  {
    if k > 0 { ShlShl(c, j, k - 1); }
  }

  /** Shifting right keeps the whole slots below a value. */
  lemma {:induction false} ShrBounds(v: nat, k: nat)
    ensures Shl(Shr(v, k), k) <= v < Shl(Shr(v, k), k) + Shl(1, k)
  {
    if k > 0 { ShrBounds(v / 2, k - 1); }
  }

  lemma {:induction false} ShrShl(c: nat, k: nat)
    ensures Shr(Shl(c, k), k) == c
  {
    var q := Shr(Shl(c, k), k);
    ShrBounds(Shl(c, k), k);
    if q < c { ShlGap(q, c, k); } else if c < q { ShlGap(c, q, k); }
  }

  function Repeat<T>(x: T, n: nat): (s: seq<T>)
    ensures |s| == n && forall i | 0 <= i < n :: s[i] == x
  {
    seq(n, _ => x)
  }

  /** The low `n` bits of `v`, most significant first. */
  function BitsOf(v: nat, n: nat): (b: seq<bool>)
    ensures |b| == n
    decreases n, v
  {
    if n == 0 then [] else BitsOf(v / 2, n - 1) + [v % 2 == 1]
  }

  function ValueOf(b: seq<bool>): nat {
    if b == [] then 0
    else 2 * ValueOf(b[..|b| - 1]) + if b[|b| - 1] then 1 else 0
  }

  lemma {:induction false} ValueOfBitsOf(v: nat, n: nat)
    requires v < Shl(1, n)
    ensures ValueOf(BitsOf(v, n)) == v
  {
    if n > 0 {
      ValueOfBitsOf(v / 2, n - 1);
      assert BitsOf(v, n)[..n - 1] == BitsOf(v / 2, n - 1);
    }
  }

  lemma {:induction false} BitsOfValueOf(b: seq<bool>)
    ensures ValueOf(b) < Shl(1, |b|)
    ensures BitsOf(ValueOf(b), |b|) == b
  {
    if b != [] {
      var init := b[..|b| - 1];
      BitsOfValueOf(init);
      assert ValueOf(b) / 2 == ValueOf(init);
      assert b == init + [b[|b| - 1]];
    }
  }

  /** Widening a value that fits adds leading zeros only. */
  lemma {:induction false} BitsOfWiden(v: nat, n: nat, k: nat)
    requires v < Shl(1, n)
    ensures BitsOf(v, k + n) == Repeat(false, k) + BitsOf(v, n)
  {
    if n == 0 {
      BitsOfZero(k);
      assert BitsOf(0, k + 0) == Repeat(false, k);
    } else {
      BitsOfWiden(v / 2, n - 1, k);
      assert k + n - 1 == k + (n - 1);
    }
  }

  lemma {:induction false} BitsOfZero(n: nat)
    ensures BitsOf(0, n) == Repeat(false, n)
  {
    if n > 0 { BitsOfZero(n - 1); }
  }

  lemma {:induction false} BitsOfOnes(n: nat)
    ensures BitsOf(Shl(1, n) - 1, n) == Repeat(true, n)
  {
    if n > 0 {
      BitsOfOnes(n - 1);
      assert (2 * Shl(1, n - 1) - 1) / 2 == Shl(1, n - 1) - 1;
      assert (2 * Shl(1, n - 1) - 1) % 2 == 1;
    }
  }

  /** The first `m` of `n` bits are the bits of the value shifted right. */
  lemma {:induction false} BitsOfPrefix(v: nat, n: nat, m: nat)
    requires m <= n
    ensures BitsOf(v, n)[..m] == BitsOf(Shr(v, n - m), m)
  {
    if m < n {
      BitsOfPrefix(v / 2, n - 1, m);
      assert BitsOf(v, n)[..m] == BitsOf(v / 2, n - 1)[..m];
    } else {
      assert BitsOf(v, n)[..m] == BitsOf(v, n);
    }
  }

  /** The bits of a byte string, in transmission order. */
  function BytesBits(s: seq<byte>): (b: seq<bool>)
    ensures |b| == 8 * |s|
  {
    if s == [] then [] else BytesBits(s[..|s| - 1]) + BitsOf(s[|s| - 1], 8)
  }
}
