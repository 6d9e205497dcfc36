/** What the transform computes: the rows of its matrix are cosines (trigger6_codec.c:84-93, 355-394). */
module Cosine {
  import opened Entropy
  import opened Dct

  // ---- Integer laws of the matrix ------------------------------------------------------

  /** The cosine of frequency `n` at sample `x`, scaled by 2^13 and rounded; frequencies fold back at 8. */
  function Wave(n: nat, x: nat): int
    requires n < 16 && x < 8
  {
    if n == 0 then 8192 else if n < 8 then Row(n)[x] else if n == 8 then 0 else -Row(16 - n)[x]
  }

  /** 2 cos a cos b = cos(a + b) + cos(a - b), as close as integers can: two units in the last place. */
  lemma {:induction false} ProductToSum(u: nat, v: nat, x: nat)
    requires 0 < u < 8 && 0 < v < 8 && x < 8
    ensures Close(Row(u)[x], Row(v)[x], Wave(u + v, x), Wave(Abs(u - v), x))
  {
    if v < u {
      ProductToSum(v, u, x);
      CloseSwaps(Row(v)[x], Row(u)[x], Wave(u + v, x), Wave(Abs(u - v), x));
    } else if u == 1 {
      ProductsOfOne(v, x);
    } else if u == 2 {
      ProductsOfTwo(v, x);
    } else if u < 5 {
      ProductsOfMiddle(u, v, x);
    } else {
      ProductsOfHigh(u, v, x);
    }
  }

  ghost predicate Close(a: int, b: int, sum: int, difference: int) {
    -16530 <= 2 * a * b - 8192 * (sum + difference) <= 16530
  }

  lemma {:induction false} CloseSwaps(a: int, b: int, sum: int, difference: int)
    requires Close(a, b, sum, difference)
    ensures Close(b, a, sum, difference)
  {
  }

  lemma {:induction false} ProductsOfOne(v: nat, x: nat)
    requires 0 < v < 8 && x < 8
    ensures Close(Row(1)[x], Row(v)[x], Wave(1 + v, x), Wave(v - 1, x))
  {
  }

  lemma {:induction false} ProductsOfTwo(v: nat, x: nat)
    requires 1 < v < 8 && x < 8
    ensures Close(Row(2)[x], Row(v)[x], Wave(2 + v, x), Wave(v - 2, x))
  {
  }

  lemma {:induction false} ProductsOfMiddle(u: nat, v: nat, x: nat)
    requires 2 < u < 5 && u <= v < 8 && x < 8
    ensures Close(Row(u)[x], Row(v)[x], Wave(u + v, x), Wave(Abs(u - v), x))
  {
  }

  lemma {:induction false} ProductsOfHigh(u: nat, v: nat, x: nat)
    requires 4 < u <= v < 8 && x < 8
    ensures Close(Row(u)[x], Row(v)[x], Wave(u + v, x), Wave(Abs(u - v), x))
  {
  }

  /** Frequency 0 is flat, and scaled down by the square root of two. */
  lemma {:induction false} FlatRow(x: nat)
    requires x < 8
    ensures Row(0)[x] > 0 && -8834 <= 2 * Row(0)[x] * Row(0)[x] - 8192 * 8192 <= 8834
  {
  }

  /** Frequency 1 falls all the way, from positive to negative. */
  lemma {:induction false} FallingRow(x: nat)
    requires x < 7
    ensures Row(1)[x + 1] < Row(1)[x] && (Row(1)[x] > 0 <==> x < 4) && Row(1)[7] < 0
  {
  }

  function SignChanges(m: seq<int>): nat {
    if |m| < 2 then 0
    else SignChanges(m[..|m| - 1]) + Change(m[|m| - 2], m[|m| - 1])
  }

  lemma {:induction false} SignChange(m: seq<int>, n: nat)
    requires 2 <= n <= |m|
    ensures SignChanges(m[..n]) == SignChanges(m[..n - 1]) + Change(m[n - 2], m[n - 1])
  {
    assert m[..n][..n - 1] == m[..n - 1];
  }

  /** Row `u` starts positive, is never zero, and changes sign `u` times. */
  lemma {:induction false} CountsFrequency(u: nat)
    requires u < 8
    ensures Row(u)[0] > 0 && SignChanges(Row(u)) == u && forall x: nat | x < 8 :: Row(u)[x] != 0
  {
    SignSum(Row(u));
  }

  function Change(a: int, b: int): nat { if (a > 0) == (b > 0) then 0 else 1 }

  lemma {:induction false} SignSum(m: seq<int>)
    requires |m| == 8
    ensures SignChanges(m) == Change(m[0], m[1]) + Change(m[1], m[2]) + Change(m[2], m[3]) + Change(m[3], m[4])
                              + Change(m[4], m[5]) + Change(m[5], m[6]) + Change(m[6], m[7])
  {
    assert SignChanges(m[..1]) == 0;
    SignChange(m, 2);
    SignChange(m, 3);
    SignChange(m, 4);
    SignChange(m, 5);
    SignChange(m, 6);
    SignChange(m, 7);
    SignChange(m, 8);
    assert m[..8] == m;
  }

  // ---- Real cosines ----------------------------------------------------------------------

  /** `c(n)` is the cosine of n pi / 16: the addition law, and a quarter turn at 8. */
  ghost predicate IsCosine(c: nat -> real) {
    && c(0) == 1.0 && c(8) == 0.0 && (forall n: nat | n < 8 :: c(n) > 0.0)
    && forall m: nat, n: nat | n <= m :: Adds(c, m, n)
  }

  ghost predicate Adds(c: nat -> real, m: nat, n: nat)
    requires n <= m
  {
    2.0 * c(m) * c(n) == c(m + n) + c(m - n)
  }

  /** A half turn changes the sign; so the curve is odd about a quarter turn and repeats after a whole one. */
  lemma {:induction false} HalfTurn(c: nat -> real, n: nat)
    requires IsCosine(c)
    ensures c(n + 16) == -c(n)
  {
    assert Adds(c, n + 8, 8);
    assert n + 8 + 8 == n + 16 && n + 8 - 8 == n;
  }

  lemma {:induction false} QuarterTurn(c: nat -> real, n: nat)
    requires IsCosine(c) && n <= 8
    ensures c(8 + n) == -c(8 - n)
  {
    assert Adds(c, 8, n);
  }

  lemma {:induction false} WholeTurns(c: nat -> real, n: nat, k: nat)
    requires IsCosine(c)
    ensures c(n + 32 * k) == c(n)
    decreases k
  {
    if k > 0 {
      var m := n + 32 * (k - 1);
      WholeTurns(c, n, k - 1);
      HalfTurn(c, m);
      HalfTurn(c, m + 16);
      assert m + 16 + 16 == n + 32 * k;
    }
  }

  lemma {:induction false} Between(x: real, lo: real, hi: real)
    requires 0.0 < x && 0.0 < lo < hi && lo * lo < x * x < hi * hi
    ensures lo < x < hi
  {
    if x <= lo { Squares(x, lo); }
    if hi <= x { Squares(hi, x); }
  }

  lemma {:induction false} Squares(a: real, b: real)
    requires 0.0 <= a <= b
    ensures a * a <= b * b
  {
    MulUp(b - a, a + b);
  }

  /** The seven cosines, from their double angles. */
  lemma {:induction false} Values(c: nat -> real)
    requires IsCosine(c)
    ensures 5792.60 < 8192.0 * c(4) < 5792.64 && 7568.41 < 8192.0 * c(2) < 7568.43 && 3134.9 < 8192.0 * c(6) < 3134.98
    ensures 8034.58 < 8192.0 * c(1) < 8034.61 && 6811.38 < 8192.0 * c(3) < 6811.42
    ensures 4551.2 < 8192.0 * c(5) < 4551.26 && 1598.1 < 8192.0 * c(7) < 1598.26
  {
    Doubled(c, 4);
    Root(c(4), c(8), 5792.60, 5792.64);
    Doubled(c, 2);
    Doubled(c, 6);
    QuarterTurn(c, 4);
    Root(c(2), c(4), 7568.41, 7568.43);
    Root(c(6), c(12), 3134.9, 3134.98);
    Doubled(c, 1);
    Doubled(c, 3);
    Doubled(c, 5);
    Doubled(c, 7);
    QuarterTurn(c, 2);
    QuarterTurn(c, 6);
    Root(c(1), c(2), 8034.58, 8034.61);
    Root(c(3), c(6), 6811.38, 6811.42);
    Root(c(5), c(10), 4551.2, 4551.26);
    Root(c(7), c(14), 1598.1, 1598.26);
  }

  lemma {:induction false} Doubled(c: nat -> real, n: nat)
    requires IsCosine(c)
    ensures 2.0 * c(n) * c(n) == c(2 * n) + 1.0
  {
    assert Adds(c, n, n);
    assert n + n == 2 * n && n - n == 0;
  }

  lemma {:induction false} Root(x: real, d: real, lo: real, hi: real)
    requires 0.0 < x && 2.0 * x * x == d + 1.0 && 0.0 < lo < hi
    requires 2.0 * lo * lo < 67108864.0 * (d + 1.0) < 2.0 * hi * hi
    ensures lo < 8192.0 * x < hi
  {
    assert (8192.0 * x) * (8192.0 * x) == 67108864.0 * (x * x);
    Between(8192.0 * x, lo, hi);
  }

  /** T.81 section A.3.3: the basis of frequency `u`, with its factor of the square root of a half at 0. */
  function Basis(c: nat -> real, u: nat, x: nat): real {
    if u == 0 then c(4) else c(u * (2 * x + 1))
  }

  /** Each entry of the matrix is the cosine, scaled by 2^13, rounded to nearest. */
  lemma {:induction false} RowsAreCosines(c: nat -> real, u: nat, x: nat)
    requires IsCosine(c) && u < 8 && x < 8
    ensures -0.5 < Row(u)[x] as real - 8192.0 * Basis(c, u, x) < 0.5
  {
    if u == 0 {
      Values(c);
    } else {
      RowEntry(u, x);
      EntryIsCosine(c, u * (2 * x + 1));
    }
  }

  lemma {:induction false} RowEntry(u: nat, x: nat)
    requires 0 < u < 8 && x < 8
    ensures Row(u)[x] == Entry(u * (2 * x + 1)) && u * (2 * x + 1) % 8 != 0
  {
    EntryFolds(u);
    PickEntry(Entry, u, x);
    NoQuarter(u, x);
  }

  lemma {:induction false} EntryIsCosine(c: nat -> real, n: nat)
    requires IsCosine(c) && n % 8 != 0
    ensures -0.5 < Entry(n) as real - 8192.0 * c(n) < 0.5
  {
    var m := n % 32;
    Values(c);
    WholeTurns(c, m, n / 32);
    assert n == m + 32 * (n / 32);
    if 8 < m <= 16 { QuarterTurn(c, m - 8); }
    if 16 < m { HalfTurn(c, m - 16); }
    if 24 < m { QuarterTurn(c, m - 24); }
  }

  /** Row `u` lists what `e` says of the odd multiples of `u`. */
  ghost predicate Lists(e: nat -> int, u: nat)
    requires u < 8
  {
    Row(u) == [e(u), e(3 * u), e(5 * u), e(7 * u), e(9 * u), e(11 * u), e(13 * u), e(15 * u)]
  }

  /** The integer side: an entry depends on its folded angle only. */
  lemma {:induction false} EntryFolds(u: nat)
    requires 0 < u < 8
    ensures Lists(Entry, u)
  {
    match u {
      case 1 => RowFolds1();
      case 2 => RowFolds2();
      case 3 => RowFolds3();
      case 4 => RowFolds4();
      case 5 => RowFolds5();
      case 6 => RowFolds6();
      case 7 => RowFolds7();
    }
  }

  lemma {:induction false} RowFolds1()
    ensures Lists(Entry, 1)
  {
    assert Entry(1) == 8035 && Entry(3) == 6811 && Entry(5) == 4551 && Entry(7) == 1598;
    assert Entry(9) == -1598 && Entry(11) == -4551 && Entry(13) == -6811 && Entry(15) == -8035;
  }

  lemma {:induction false} RowFolds2()
    ensures Lists(Entry, 2)
  {
    assert Entry(2) == 7568 && Entry(6) == 3135 && Entry(10) == -3135 && Entry(14) == -7568;
    assert Entry(18) == -7568 && Entry(22) == -3135 && Entry(26) == 3135 && Entry(30) == 7568;
  }

  lemma {:induction false} RowFolds3()
    ensures Lists(Entry, 3)
  {
    assert Entry(3) == 6811 && Entry(9) == -1598 && Entry(15) == -8035 && Entry(21) == -4551;
    assert Entry(27) == 4551 && Entry(33) == 8035 && Entry(39) == 1598 && Entry(45) == -6811;
  }

  lemma {:induction false} RowFolds4()
    ensures Lists(Entry, 4)
  {
    assert Entry(4) == 5793 && Entry(12) == -5793 && Entry(20) == -5793 && Entry(28) == 5793;
    assert Entry(36) == 5793 && Entry(44) == -5793 && Entry(52) == -5793 && Entry(60) == 5793;
  }

  lemma {:induction false} RowFolds5()
    ensures Lists(Entry, 5)
  {
    assert Entry(5) == 4551 && Entry(15) == -8035 && Entry(25) == 1598 && Entry(35) == 6811;
    assert Entry(45) == -6811 && Entry(55) == -1598 && Entry(65) == 8035 && Entry(75) == -4551;
  }

  lemma {:induction false} RowFolds6()
    ensures Lists(Entry, 6)
  {
    assert Entry(6) == 3135 && Entry(18) == -7568 && Entry(30) == 7568 && Entry(42) == -3135;
    assert Entry(54) == -3135 && Entry(66) == 7568 && Entry(78) == -7568 && Entry(90) == 3135;
  }

  lemma {:induction false} RowFolds7()
    ensures Lists(Entry, 7)
  {
    assert Entry(7) == 1598 && Entry(21) == -4551 && Entry(35) == 6811 && Entry(49) == -8035;
    assert Entry(63) == 8035 && Entry(77) == -6811 && Entry(91) == 4551 && Entry(105) == -1598;
  }

  lemma {:induction false} PickEntry(e: nat -> int, u: nat, x: nat)
    requires u < 8 && x < 8 && Lists(e, u)
    ensures Row(u)[x] == e(u * (2 * x + 1))
  {
    var n := u * (2 * x + 1);
    match x {
      case 0 => assert n == u;
      case 1 => assert n == 3 * u;
      case 2 => assert n == 5 * u;
      case 3 => assert n == 7 * u;
      case 4 => assert n == 9 * u;
      case 5 => assert n == 11 * u;
      case 6 => assert n == 13 * u;
      case 7 => assert n == 15 * u;
    }
  }

  /** No sample lies on a quarter turn. */
  lemma {:induction false} NoQuarter(u: nat, x: nat)
    requires 0 < u < 8 && x < 8
    ensures u * (2 * x + 1) % 8 != 0
  {
    var n := u * (2 * x + 1);
    match u {
      case 1 => assert n == 2 * x + 1;
      case 2 => assert n == 4 * x + 2;
      case 3 => assert n == 6 * x + 3;
      case 4 => assert n == 8 * x + 4;
      case 5 => assert n == 10 * x + 5;
      case 6 => assert n == 12 * x + 6;
      case 7 => assert n == 14 * x + 7;
    }
  }

  /** 2^13 times the cosine of n pi / 16, rounded: a quarter turn, and how the others follow from it. */
  function Entry(n: nat): int {
    var m := n % 32;
    if m <= 8 then Quarter(m) else if m <= 16 then -Quarter(16 - m) else if m <= 24 then -Quarter(m - 16)
    else Quarter(32 - m)
  }

  function Quarter(m: nat): int {
    if m == 0 then 8192 else if m == 1 then 8035 else if m == 2 then 7568 else if m == 3 then 6811
    else if m == 4 then 5793 else if m == 5 then 4551 else if m == 6 then 3135 else if m == 7 then 1598 else 0
  }

  // ---- The transform ----------------------------------------------------------------------

  /** The values of one basis function. */
  function Curve(c: nat -> real, u: nat): (f: seq<real>)
    ensures |f| == 8
  {
    seq(8, x requires 0 <= x < 8 => Basis(c, u, x))
  }

  /** A two-dimensional sum over the first `n` samples. */
  function Ideal(s: Samples, horizontal: seq<real>, vertical: seq<real>, n: nat): real
    requires |horizontal| == |vertical| == 8 && n <= 64
  {
    if n == 0 then 0.0
    else Ideal(s, horizontal, vertical, n - 1)
         + s[n - 1] as real * (horizontal[(n - 1) % 8] * vertical[(n - 1) / 8])
  }

  /** One product of two basis values: off by at most 2^13 in 2^26. */
  lemma {:induction false} ProductError(a: real, b: real, p: real, q: real)
    requires -0.5 <= a - p <= 0.5 && -0.5 <= b - q <= 0.5
    requires -8192.0 <= a <= 8192.0 && -8192.0 <= q <= 8192.0
    ensures -8192.0 <= a * b - p * q <= 8192.0
  {
    assert a * b - p * q == a * (b - q) + q * (a - p);
    Scaled(a, b - q);
    Scaled(q, a - p);
  }

  lemma {:induction false} Scaled(a: real, e: real)
    requires -8192.0 <= a <= 8192.0 && -0.5 <= e <= 0.5
    ensures -4096.0 <= a * e <= 4096.0
  {
    MulUp(8192.0 - a, 0.5 - e);
    MulUp(8192.0 + a, 0.5 + e);
    MulUp(8192.0 - a, 0.5 + e);
    MulUp(8192.0 + a, 0.5 - e);
  }

  lemma {:induction false} MulUp(x: real, y: real)
    requires x >= 0.0 && y >= 0.0
    ensures x * y >= 0.0
  {
  }

  /** A row that rounds a curve. */
  ghost predicate Rounds(m: seq<int>, f: seq<real>) {
    && |m| == |f| == 8
    && forall x: nat | x < 8 ::
         -0.5 <= m[x] as real - 8192.0 * f[x] <= 0.5 && -8192 <= m[x] <= 8192 && -1.0 <= f[x] <= 1.0
  }

  lemma {:induction false} RowRounds(c: nat -> real, u: nat)
    requires IsCosine(c) && u < 8
    ensures Rounds(Row(u), Curve(c, u))
  {
    forall x: nat | x < 8
      ensures -0.5 <= Row(u)[x] as real - 8192.0 * Basis(c, u, x) <= 0.5
      ensures -8192 <= Row(u)[x] <= 8192 && -1.0 <= Basis(c, u, x) <= 1.0
    {
      RowsAreCosines(c, u, x);
      RowWithin(u, x);
    }
  }

  lemma {:induction false} RowWithin(u: nat, x: nat)
    requires u < 8 && x < 8
    ensures -8191 <= Row(u)[x] <= 8191
  {
  }

  /** The fixed-point sum follows the ideal one, with at most 2^20 of error a sample, in 2^26. */
  lemma {:induction false} SumError(s: Samples, h: seq<int>, w: seq<int>, f: seq<real>, g: seq<real>, n: nat)
    requires Rounds(h, f) && Rounds(w, g) && n <= 64
    ensures -1048576.0 * n as real <= Direct(s, h, w, n) as real - 67108864.0 * Ideal(s, f, g,
      n) <= 1048576.0 * n as real
  {
    if n > 0 {
      SumError(s, h, w, f, g, n - 1);
      var k := n - 1;
      var t, r := Summands(s, h, w, f, g, k);
      assert Near(t, r);
    }
  }

  ghost predicate Near(t: int, r: real) { -1048576.0 <= t as real - 67108864.0 * r <= 1048576.0 }

  /** What sample `k` adds to the two sums. */
  lemma {:induction false} Summands(s: Samples, h: seq<int>, w: seq<int>, f: seq<real>, g: seq<real>, k: nat)
      returns (t: int, r: real)
    requires Rounds(h, f) && Rounds(w, g) && k < 64
    ensures Direct(s, h, w, k + 1) == Direct(s, h, w, k) + t && Ideal(s, f, g, k + 1) == Ideal(s, f, g, k) + r
    ensures Near(t, r)
  {
    var x, y := k % 8, k / 8;
    OneTerm(s[k], h[x], w[y], f[x], g[y]);
    t := DirectNext(s, h, w, k);
    r := IdealNext(s, f, g, k);
  }

  lemma {:induction false} DirectNext(s: Samples, h: seq<int>, w: seq<int>, k: nat) returns (t: int)
    requires |h| == |w| == 8 && k < 64
    ensures Direct(s, h, w, k + 1) == Direct(s, h, w, k) + t && t == Whole(s[k], h[k % 8], w[k / 8])
  {
    t := s[k] * (h[k % 8] * w[k / 8]);
  }

  lemma {:induction false} IdealNext(s: Samples, f: seq<real>, g: seq<real>, k: nat) returns (r: real)
    requires |f| == |g| == 8 && k < 64
    ensures Ideal(s, f, g, k + 1) == Ideal(s, f, g, k) + r && r == Part(s[k], f[k % 8], g[k / 8])
  {
    r := s[k] as real * (f[k % 8] * g[k / 8]);
  }

  function Whole(s: Sample, a: int, b: int): int { s * (a * b) }

  function Part(s: Sample, p: real, q: real): real { s as real * (p * q) }

  lemma {:induction false} OneTerm(s: Sample, a: int, b: int, p: real, q: real)
    requires -0.5 <= a as real - 8192.0 * p <= 0.5 && -0.5 <= b as real - 8192.0 * q <= 0.5
    requires -8192 <= a <= 8192 && -1.0 <= q <= 1.0
    ensures Near(Whole(s, a, b), Part(s, p, q))
  {
    ProductError(a as real, b as real, 8192.0 * p, 8192.0 * q);
    TermError(s, a, b, p, q);
  }

  lemma {:induction false} TermError(s: Sample, a: int, b: int, p: real, q: real)
    requires -8192.0 <= a as real * b as real - (8192.0 * p) * (8192.0 * q) <= 8192.0
    ensures -1048576.0 <= (s * (a * b)) as real - 67108864.0 * (s as real * (p * q)) <= 1048576.0
  {
    var e := a as real * b as real - 67108864.0 * (p * q);
    assert (8192.0 * p) * (8192.0 * q) == 67108864.0 * (p * q);
    assert (s * (a * b)) as real == s as real * (a as real * b as real);
    assert (s * (a * b)) as real - 67108864.0 * (s as real * (p * q)) == s as real * e;
    MulUp(128.0 - s as real, 8192.0 - e);
    MulUp(128.0 + s as real, 8192.0 + e);
    MulUp(128.0 - s as real, 8192.0 + e);
    MulUp(128.0 + s as real, 8192.0 - e);
  }

  /** The forward transform of T.81 section A.3.3. */
  function Transform(s: Samples, c: nat -> real, v: nat, u: nat): real {
    Ideal(s, Curve(c, u), Curve(c, v), 64) / 4.0
  }

  /**
   * The coefficient at row `v` and column `u`, times its step, is the cosine transform of the block at that frequency:
   * to within half a step, 2^-10 of a step, and a quarter.
   */
  lemma {:induction false} CoefficientIsCosine(s: Samples, qt: seq<Step>, c: nat -> real, v: nat, u: nat)
    requires IsCosine(c) && |qt| == 64 && v < 8 && u < 8
    ensures var q, k := qt[8 * v + u], Coeffs(s, qt)[8 * v + u];
      -513.0 * q as real / 1024.0 - 0.25 <= (k * q) as real - Transform(s, c, v, u) <= 513.0 * q as real / 1024.0 + 0.25
  {
    CoefficientRounds(s, qt, v, u);
    SumIsCosine(s, c, v, u);
    Settle(Coeffs(s, qt)[8 * v + u] * qt[8 * v + u], qt[8 * v + u], Sum(s, v, u), Transform(s, c, v, u));
  }

  lemma {:induction false} CoefficientRounds(s: Samples, qt: seq<Step>, v: nat, u: nat)
    requires |qt| == 64 && v < 8 && u < 8
    ensures var d := SCALE * qt[8 * v + u];
      -513 * d <= 1024 * (SCALE * (Coeffs(s, qt)[8 * v + u] * qt[8 * v + u]) - Sum(s, v, u)) <= 513 * d
  {
    var k := 8 * v + u;
    assert k / 8 == v && k % 8 == u;
    SumBound(s, v, u);
    CoeffRange(s, qt, v, u);
    ReciprocalError(Sum(s, v, u), qt[k]);
    Reassociate(Coeffs(s, qt)[k], qt[k]);
  }

  lemma {:induction false} Reassociate(k: int, q: int)
    ensures k * (SCALE * q) == SCALE * (k * q)
  {
  }

  /** The sum before quantising is the cosine transform, at scale 2^28, to within a quarter. */
  lemma {:induction false} SumIsCosine(s: Samples, c: nat -> real, v: nat, u: nat)
    requires IsCosine(c) && v < 8 && u < 8
    ensures -67108864.0 <= Sum(s, v, u) as real - 268435456.0 * Transform(s, c, v, u) <= 67108864.0
  {
    RowRounds(c, u);
    RowRounds(c, v);
    SeparableSum(s, v, u);
    SumError(s, Row(u), Row(v), Curve(c, u), Curve(c, v), 64);
  }

  lemma {:induction false} Settle(kq: int, q: Step, sum: int, ideal: real)
    requires -513 * (SCALE * q) <= 1024 * (SCALE * kq - sum) <= 513 * (SCALE * q)
    requires -67108864.0 <= sum as real - 268435456.0 * ideal <= 67108864.0
    ensures -513.0 * q as real / 1024.0 - 0.25 <= kq as real - ideal <= 513.0 * q as real / 1024.0 + 0.25
  {
  }
}
