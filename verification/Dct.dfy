/** The fixed-point transform with fused descale and quantise (trigger6_codec.c:84-93, 330-394). */
module Dct {
  import opened Bits
  import opened Entropy

  type Sample = v: int | -128 <= v <= 127
  type Samples = s: seq<Sample> | |s| == 64 witness seq(64, _ => 0)
  type Step = q: int | 1 <= q <= 255 witness 1

  /** `t6_jpeg_dct_matrix`: cosines scaled by 2^14. */
  function Row(u: nat): (m: seq<int>)
    requires u < 8
    ensures |m| == 8
  {
    match u
    case 0 => [5793, 5793, 5793, 5793, 5793, 5793, 5793, 5793]
    case 1 => [8035, 6811, 4551, 1598, -1598, -4551, -6811, -8035]
    case 2 => [7568, 3135, -3135, -7568, -7568, -3135, 3135, 7568]
    case 3 => [6811, -1598, -8035, -4551, 4551, 8035, 1598, -6811]
    case 4 => [5793, -5793, -5793, 5793, 5793, -5793, -5793, 5793]
    case 5 => [4551, -8035, 1598, 6811, -6811, -1598, 8035, -4551]
    case 6 => [3135, -7568, 7568, -3135, -3135, 7568, -7568, 3135]
    case _ => [1598, -4551, 6811, -8035, 8035, -6811, 4551, -1598]
  }

  function Dot(a: seq<int>, m: seq<int>): int
    requires |a| == |m|
  {
    if a == [] then 0
    else Dot(a[..|a| - 1], m[..|a| - 1]) + a[|a| - 1] * m[|a| - 1]
  }

  /** One output of the row pass, and of the column pass over those. */
  function RowSum(s: Samples, row: nat, u: nat): int
    requires row < 8 && u < 8
  {
    Dot(s[8 * row..8 * row + 8], Row(u))
  }

  /** The row pass at place `k` of its buffer. */
  function RowAt(s: Samples, k: nat): int
    requires k < 64
  {
    RowSum(s, k / 8, k % 8)
  }

  function Column(s: Samples, u: nat): (c: seq<int>)
    requires u < 8
    ensures |c| == 8
  {
    seq(8, row requires 0 <= row < 8 => RowSum(s, row, u))
  }

  /** The transform at vertical frequency `v` and horizontal frequency `u`, scaled by 2^28. */
  function Sum(s: Samples, v: nat, u: nat): int
    requires u < 8 && v < 8
  {
    Dot(Column(s, u), Row(v))
  }

  /** The two-dimensional definition (T.81 section A.3.3, in fixed point): a plain sum over the first `n` samples. */
  function Direct(s: Samples, horizontal: seq<int>, vertical: seq<int>, n: nat): int
    requires |horizontal| == |vertical| == 8 && n <= 64
  {
    if n == 0 then 0
    else Direct(s, horizontal, vertical, n - 1) + s[n - 1] * (horizontal[(n - 1) % 8] * vertical[(n - 1) / 8])
  }

  /** Two one-dimensional passes compute the two-dimensional sum. */
  lemma {:induction false} SeparableSum(s: Samples, v: nat, u: nat)
    requires u < 8 && v < 8
    ensures Sum(s, v, u) == Direct(s, Row(u), Row(v), 64)
  {
    var c := Column(s, u);
    RowsUpTo(s, Row(u), Row(v), c, 8);
    assert c[..8] == c && Row(v)[..8] == Row(v);
  }

  lemma {:induction false} RowsUpTo(s: Samples, h: seq<int>, w: seq<int>, c: seq<int>, r: nat)
    requires |h| == |w| == |c| == 8 && r <= 8
    requires forall k: nat | k < 8 :: c[k] == Dot(s[8 * k..8 * k + 8], h)
    ensures Direct(s, h, w, 8 * r) == Dot(c[..r], w[..r])
  {
    if r > 0 {
      var k := r - 1;
      RowsUpTo(s, h, w, c, k);
      Cells(s, h, w, k, 8);
      DotSnoc(c, w, r);
      assert s[8 * k..8 * k + 8][..8] == s[8 * k..8 * k + 8] && h[..8] == h;
    }
  }

  lemma {:induction false} DotSnoc(a: seq<int>, m: seq<int>, c: nat)
    requires 0 < c <= |a| && |a| == |m|
    ensures Dot(a[..c], m[..c]) == Dot(a[..c - 1], m[..c - 1]) + a[c - 1] * m[c - 1]
  {
    assert a[..c][..c - 1] == a[..c - 1] && m[..c][..c - 1] == m[..c - 1];
  }

  lemma {:induction false} DirectStep(s: Samples, h: seq<int>, w: seq<int>, r: nat, d: nat)
    requires |h| == |w| == 8 && r < 8 && d < 8
    ensures Direct(s, h, w, 8 * r + d + 1) == Direct(s, h, w, 8 * r + d) + s[8 * r + d] * (h[d] * w[r])
  {
    var k := 8 * r + d;
    assert k % 8 == d && k / 8 == r;
  }

  /** One row contributes its row sum, weighted. */
  lemma {:induction false} Cells(s: Samples, h: seq<int>, w: seq<int>, r: nat, c: nat)
    requires |h| == |w| == 8 && r < 8 && c <= 8
    ensures Direct(s, h, w, 8 * r + c) == Direct(s, h, w, 8 * r) + Dot(s[8 * r..8 * r + 8][..c], h[..c]) * w[r]
  {
    var line := s[8 * r..8 * r + 8];
    if c == 0 {
      assert Dot(line[..c], h[..c]) == 0;
    } else {
      var d := c - 1;
      Cells(s, h, w, r, d);
      DirectStep(s, h, w, r, d);
      DotSnoc(line, h, c);
      assert line[d] == s[8 * r + d];
      Weigh(Dot(line[..d], h[..d]), line[d], h[d], w[r]);
    }
  }

  lemma {:induction false} Weigh(d: int, x: int, a: int, b: int)
    ensures d * b + x * (a * b) == (d + x * a) * b
  {
  }

  const N: nat := 0x1_0000_0000_0000
  const SCALE: nat := 0x1000_0000

  /** `t6_precompute_dct_qtable` for one entry. */
  function Recip(q: Step): (r: nat) {
    (N + SCALE * q / 2) / (SCALE * q)
  }

  /** One multiply and shift in place of two divisions (trigger6_codec.c:386-389). */
  function Quantise(sum: int, recip: nat): int {
    var q := (Abs(sum) * recip + N / 2) / N;
    if sum < 0 then -q else q
  }

  function Clamp(v: int): Coeff {
    if v < -32767 then -32767 else if v > 32767 then 32767 else v
  }

  function CoeffAt(s: Samples, qt: seq<Step>, v: nat, u: nat): Coeff
    requires |qt| == 64 && v < 8 && u < 8
  {
    Clamp(Quantise(Sum(s, v, u), Recip(qt[8 * v + u])))
  }

  /** All coefficients, in natural order. */
  function Coeffs(s: Samples, qt: seq<Step>): (c: seq<Coeff>)
    requires |qt| == 64
    ensures |c| == 64
  {
    seq(64, k requires 0 <= k < 64 => CoeffAt(s, qt, k / 8, k % 8))
  }

  // ---- The loops ------------------------------------------------------------

  function Recips(qt: seq<Step>): (r: seq<nat>)
    requires |qt| == 64
    ensures |r| == 64
  {
    seq(64, k requires 0 <= k < 64 => Recip(qt[k]))
  }

  method PrecomputeQtable(qt: seq<Step>) returns (recip: array<nat>)
    requires |qt| == 64
    ensures fresh(recip) && recip[..] == Recips(qt)
  {
    recip := new nat[64];
    for i := 0 to 64
      invariant forall k | 0 <= k < i :: recip[k] == Recip(qt[k])
    {
      var d := SCALE * qt[i];
      recip[i] := (N + d / 2) / d;
    }
  }

  method InnerProduct(a: array<int>, base: nat, stride: nat, m: seq<int>, ghost v: seq<int>) returns (sum: int)
    requires |v| == |m| == 8 && (stride == 1 || stride == 8) && base + 7 * stride < a.Length
    requires forall k | 0 <= k < 8 :: a[base + k * stride] == v[k]
    ensures sum == Dot(v, m)
  {
    sum := 0;
    for col := 0 to 8
      invariant sum == Dot(v[..col], m[..col])
    {
      sum := sum + a[base + col * stride] * m[col];
      assert v[..col + 1][..col] == v[..col] && m[..col + 1][..col] == m[..col];
    }
    assert v[..8] == v && m[..8] == m;
  }

  /** `t6_jpeg_fdct_quantize` (trigger6_codec.c:355-394), one method per pass. */
  method FdctQuantize(src: array<int>, recip: seq<nat>, dst: array<Coeff>, ghost s: Samples, ghost qt: seq<Step>)
    requires src.Length == dst.Length == 64 && |qt| == 64 && dst as object != src
    requires src[..] == s && recip == Recips(qt)
    modifies dst
    ensures dst[..] == Coeffs(s, qt)
  {
    var rowTmp := RowPass(src, s);
    ColumnPass(rowTmp, recip, dst, s, qt);
  }

  method RowPass(src: array<int>, ghost s: Samples) returns (rowTmp: array<int>)
    requires src.Length == 64 && src[..] == s
    ensures fresh(rowTmp) && rowTmp.Length == 64 && Rows(rowTmp[..], s, 64)
  {
    rowTmp := new int[64];
    for row := 0 to 8
      invariant Rows(rowTmp[..], s, 8 * row)
    {
      for u := 0 to 8
        invariant Rows(rowTmp[..], s, 8 * row + u)
      {
        var sum := RowProduct(src, row, u, s);
        ghost var t := rowTmp[..];
        rowTmp[row * 8 + u] := sum;
        assert rowTmp[..] == t[8 * row + u := sum];
      }
    }
  }

  ghost predicate Rows(t: seq<int>, s: Samples, n: nat) {
    |t| == 64 && forall k | 0 <= k < n && k < 64 :: t[k] == RowAt(s, k)
  }

  method RowProduct(src: array<int>, row: nat, u: nat, ghost s: Samples) returns (sum: int)
    requires src.Length == 64 && src[..] == s && row < 8 && u < 8
    ensures sum == RowAt(s, 8 * row + u)
  {
    ghost var line := s[8 * row..8 * row + 8];
    forall k | 0 <= k < 8 ensures src[8 * row + k * 1] == line[k] {
      assert src[8 * row + k] == src[..][8 * row + k];
    }
    sum := InnerProduct(src, 8 * row, 1, Row(u), line);
    assert (8 * row + u) / 8 == row && (8 * row + u) % 8 == u;
  }

  method ColumnProduct(rowTmp: array<int>, recip: seq<nat>, row: nat, u: nat, ghost s: Samples, ghost qt: seq<Step>)
    returns (c: Coeff)
    requires rowTmp.Length == 64 && |qt| == 64 && row < 8 && u < 8 && Rows(rowTmp[..], s, 64)
    requires recip == Recips(qt)
    ensures c == CoeffAt(s, qt, row, u)
  {
    forall k | 0 <= k < 8 ensures rowTmp[u + k * 8] == Column(s, u)[k] {
      assert (u + k * 8) / 8 == k && (u + k * 8) % 8 == u;
      assert rowTmp[..][u + k * 8] == RowAt(s, u + k * 8);
    }
    var idx := row * 8 + u;
    var sum := InnerProduct(rowTmp, u, 8, Row(row), Column(s, u));
    c := Clamp(Quantise(sum, recip[idx]));
  }

  method ColumnPass(rowTmp: array<int>, recip: seq<nat>, dst: array<Coeff>, ghost s: Samples, ghost qt: seq<Step>)
    requires rowTmp.Length == dst.Length == 64 && |qt| == 64 && Rows(rowTmp[..], s, 64)
    requires recip == Recips(qt) && dst as object != rowTmp
    modifies dst
    ensures dst[..] == Coeffs(s, qt)
  {
    for u := 0 to 8
      invariant Columns(dst[..], s, qt, u, 0)
    {
      for row := 0 to 8
        invariant Columns(dst[..], s, qt, u, row)
      {
        var c := ColumnProduct(rowTmp, recip, row, u, s, qt);
        ghost var t := dst[..];
        dst[row * 8 + u] := c;
        assert dst[..] == t[8 * row + u := c];
      }
    }
    AllColumns(dst[..], s, qt);
  }

  /** Filled column by column: all of the first `u` columns, and `row` places of the next. */
  ghost predicate Columns(t: seq<Coeff>, s: Samples, qt: seq<Step>, u: nat, row: nat) {
    && |t| == |qt| == 64
    && forall v: nat, w: nat | v < 8 && w < 8 && (w < u || (w == u && v < row)) ::
         t[8 * v + w] == CoeffAt(s, qt, v, w)
  }

  lemma {:induction false} AllColumns(t: seq<Coeff>, s: Samples, qt: seq<Step>)
    requires Columns(t, s, qt, 8, 0)
    ensures t == Coeffs(s, qt)
  {
    forall k | 0 <= k < 64 ensures t[k] == Coeffs(s, qt)[k] {
      assert t[8 * (k / 8) + k % 8] == CoeffAt(s, qt, k / 8, k % 8);
    }
  }

  /** A dot product of eight, spelled out. */
  lemma {:induction false} DotEight(a: seq<int>, m: seq<int>)
    requires |a| == |m| == 8
    ensures Dot(a, m) == a[0] * m[0] + a[1] * m[1] + a[2] * m[2] + a[3] * m[3]
                       + a[4] * m[4] + a[5] * m[5] + a[6] * m[6] + a[7] * m[7]
  {
    DotSnoc(a, m, 1);
    DotSnoc(a, m, 2);
    DotSnoc(a, m, 3);
    DotSnoc(a, m, 4);
    DotSnoc(a, m, 5);
    DotSnoc(a, m, 6);
    DotSnoc(a, m, 7);
    DotSnoc(a, m, 8);
    assert a[..8] == a && m[..8] == m && a[..0] == [] && m[..0] == [];
  }

  /** The matrix is orthonormal, at scale 2^28, up to 35336: how close the fixed-point rows are to cosines. */
  lemma {:induction false} NearlyOrthonormal(u: nat, v: nat)
    requires u < 8 && v < 8
    ensures -35336 <= Dot(Row(u), Row(v)) - (if u == v then SCALE else 0) <= 35336
  {
    DotEight(Row(u), Row(v));
  }

  // ---- Bounds ---------------------------------------------------------------

  function Total(m: seq<int>): int {
    if m == [] then 0 else Total(m[..|m| - 1]) + m[|m| - 1]
  }

  function L1(m: seq<int>): nat {
    if m == [] then 0 else L1(m[..|m| - 1]) + Abs(m[|m| - 1])
  }

  /** A dot product stays within half the range's width, times the weights, of its centre. */
  lemma {:induction false} DotBound(a: seq<int>, m: seq<int>, lo: int, hi: int)
    requires |a| == |m| && forall i | 0 <= i < |a| :: lo <= a[i] <= hi
    ensures (hi + lo) * Total(m) - (hi - lo) * L1(m) <= 2 * Dot(a, m) <= (hi + lo) * Total(m) + (hi - lo) * L1(m)
  {
    if a != [] {
      var n := |a| - 1;
      DotBound(a[..n], m[..n], lo, hi);
      TermBound(a[n], m[n], lo, hi);
      Expand(hi + lo, Total(m[..n]), m[n]);
      Expand(hi - lo, L1(m[..n]), Abs(m[n]));
    }
  }

  lemma Expand(c: int, x: int, y: int)
    ensures c * (x + y) == c * x + c * y
  {
  }

  lemma TermBound(a: int, m: int, lo: int, hi: int)
    requires lo <= a <= hi
    ensures (hi + lo) * m - (hi - lo) * Abs(m) <= 2 * (a * m) <= (hi + lo) * m + (hi - lo) * Abs(m)
  {
    assert (hi - a) * Abs(m) >= 0 && (a - lo) * Abs(m) >= 0;
    if m >= 0 {
      assert (hi - a) * m >= 0 && (a - lo) * m >= 0;
    } else {
      assert (hi - a) * (-m) >= 0 && (a - lo) * (-m) >= 0;
    }
  }

  const W: nat := 46344

  /** Every AC row of the matrix sums to zero; no row weighs more than the DC row. */
  lemma {:induction false} RowWeights(u: nat)
    requires u < 8
    ensures Total(Row(u)) == (if u == 0 then W else 0)
    ensures L1(Row(u)) <= W && (u == 0 ==> L1(Row(u)) == W)
  {
    var m := Row(u);
    Unroll(m);
  }

  lemma {:induction false} Unroll(m: seq<int>)
    requires |m| == 8
    ensures Total(m) == m[0] + m[1] + m[2] + m[3] + m[4] + m[5] + m[6] + m[7]
    ensures L1(m) == Abs(m[0]) + Abs(m[1]) + Abs(m[2]) + Abs(m[3]) + Abs(m[4]) + Abs(m[5]) + Abs(m[6]) + Abs(m[7])
  {
    AddLast(m, 0);
    AddLast(m, 1);
    AddLast(m, 2);
    AddLast(m, 3);
    AddLast(m, 4);
    AddLast(m, 5);
    AddLast(m, 6);
    AddLast(m, 7);
    assert m[..8] == m;
  }

  lemma {:induction false} AddLast(m: seq<int>, n: nat)
    requires n < |m|
    ensures Total(m[..n + 1]) == Total(m[..n]) + m[n]
    ensures L1(m[..n + 1]) == L1(m[..n]) + Abs(m[n])
  {
    assert m[..n + 1][..n] == m[..n];
  }

  /** The row pass on samples, with the DC column apart. */
  lemma {:induction false} RowSumBound(s: Samples, row: nat, u: nat)
    requires row < 8 && u < 8
    ensures u == 0 ==> -128 * W <= RowSum(s, row, u) <= 127 * W
    ensures u > 0 ==> -255 * W <= 2 * RowSum(s, row, u) <= 255 * W
  {
    RowWeights(u);
    DotBound(s[8 * row..8 * row + 8], Row(u), -128, 127);
  }

  /** DC and AC sums: the sample range is off centre, but an AC row sums to zero, so it may be centred. */
  lemma {:induction false} SumBound(s: Samples, v: nat, u: nat)
    requires v < 8 && u < 8
    ensures u == 0 && v == 0 ==> -128 * W * W <= Sum(s, v, u) <= 127 * W * W
    ensures u > 0 || v > 0 ==> -255 * W * W <= 2 * Sum(s, v, u) <= 255 * W * W
  {
    forall row: nat | row < 8
      ensures u == 0 ==> -128 * W <= Column(s, u)[row] <= 127 * W
      ensures u > 0 ==> -255 * W <= 2 * Column(s, u)[row] <= 255 * W
    {
      RowSumBound(s, row, u);
    }
    RowWeights(v);
    if u == 0 {
      DotBound(Column(s, u), Row(v), -128 * W, 127 * W);
    } else {
      DotBound(Column(s, u), Row(v), -255 * W / 2, 255 * W / 2);
    }
  }

  lemma {:induction false} RecipBounds(q: Step)
    ensures var d := SCALE * q; 2 * N - d <= 2 * (Recip(q) * d) <= 2 * N + d
    ensures Recip(q) <= 0x10_0000
  {
    var d: nat, half: nat := SCALE * q, 0x800_0000 * q;
    assert d == 2 * half;
    NearDivision(half, Recip(q));
  }

  lemma {:induction false} NearDivision(half: nat, r: int)
    requires 2 * half >= SCALE && r == (N + half) / (2 * half)
    ensures 2 * N - 2 * half <= 2 * (r * (2 * half)) <= 2 * N + 2 * half
    ensures r <= 0x10_0000
  {
    var d := 2 * half;
    assert d * r <= N + half < d * r + d;
    assert d * r == r * d;
    if r > 0x10_0000 { MulLe(d, 0x10_0001, r); }
  }

  lemma MulLe(d: int, x: int, y: int)
    requires d >= 0 && x <= y
    ensures d * x <= d * y
  {
    assert d * (y - x) >= 0;
  }

  const MAX_SUM: nat := 128 * W * W

  /** The 64-bit product never overflows, and the quotient is monotone in the magnitude. */
  lemma {:induction false} QuantiseBound(sum: int, q: Step, most: nat)
    requires Abs(sum) <= most <= MAX_SUM
    ensures Abs(sum) * Recip(q) + N / 2 < 0x8000_0000_0000_0000
    ensures Abs(Quantise(sum, Recip(q))) <= (most + 0x800_0000) / SCALE
  {
    RecipBounds(q);
    MulLe(Abs(sum), Recip(q), 0x10_0000);
    Descale(Abs(sum) * Recip(q), most);
  }

  lemma {:induction false} Descale(p: nat, most: nat)
    requires p <= most * 0x10_0000
    ensures (p + N / 2) / N <= (most + 0x800_0000) / SCALE
  {
    var t := (most + 0x800_0000) / SCALE;
    assert most + 0x800_0000 < (t + 1) * SCALE;
    assert p + N / 2 < (t + 1) * N;
  }

  /** Coefficient range for every sample block and every quantiser step. */
  lemma {:induction false} CoeffRange(s: Samples, qt: seq<Step>, v: nat, u: nat)
    requires |qt| == 64 && v < 8 && u < 8
    ensures CoeffAt(s, qt, v, u) == Quantise(Sum(s, v, u), Recip(qt[8 * v + u]))
    ensures v == 0 && u == 0 ==> -1024 <= CoeffAt(s, qt, v, u) <= 1016
    ensures v > 0 || u > 0 ==> -1020 <= CoeffAt(s, qt, v, u) <= 1020
  {
    SumBound(s, v, u);
    if v > 0 || u > 0 {
      AcRange(Sum(s, v, u), qt[8 * v + u]);
    } else {
      DcRange(Sum(s, v, u), qt[8 * v + u]);
    }
  }

  lemma {:induction false} AcRange(sum: int, q: Step)
    requires -255 * W * W <= 2 * sum <= 255 * W * W
    ensures -1020 <= Quantise(sum, Recip(q)) <= 1020
  {
    QuantiseBound(sum, q, 255 * W * W / 2);
  }

  lemma {:induction false} DcRange(sum: int, q: Step)
    requires -128 * W * W <= sum <= 127 * W * W
    ensures -1024 <= Quantise(sum, Recip(q)) <= 1016
  {
    if sum < 0 {
      QuantiseBound(sum, q, 128 * W * W);
    } else {
      QuantiseBound(sum, q, 127 * W * W);
    }
  }

  /** No intermediate value leaves the C `s64`: partial sums of both passes, and the product. */
  lemma {:induction false} NoOverflow(s: Samples, v: nat, u: nat, n: nat, q: Step)
    requires v < 8 && u < 8 && n <= 8
    ensures Abs(Dot(s[8 * v..8 * v + 8][..n], Row(u)[..n])) <= 128 * W
    ensures Abs(Dot(Column(s, u)[..n], Row(v)[..n])) <= MAX_SUM
    ensures Abs(Sum(s, v, u)) * Recip(q) + N / 2 < 0x8000_0000_0000_0000
  {
    PartialSums(s[8 * v..8 * v + 8], u, n, 128);
    forall row: nat | row < 8 ensures -128 * W <= Column(s, u)[row] <= 128 * W { RowSumBound(s, row, u); }
    PartialSums(Column(s, u), v, n, 128 * W);
    SumBound(s, v, u);
    QuantiseBound(Sum(s, v, u), q, MAX_SUM);
  }

  lemma {:induction false} PartialSums(a: seq<int>, u: nat, n: nat, most: int)
    requires most >= 0 && |a| == 8 && u < 8 && n <= 8 && forall i | 0 <= i < 8 :: -most <= a[i] <= most
    ensures Abs(Dot(a[..n], Row(u)[..n])) <= most * W
  {
    RowWeights(u);
    PartialWeight(Row(u), n);
    DotAbs(a[..n], Row(u)[..n], most);
    MulLe(most, L1(Row(u)[..n]), W);
  }

  lemma {:induction false} DotAbs(a: seq<int>, m: seq<int>, most: int)
    requires |a| == |m| && forall i | 0 <= i < |a| :: -most <= a[i] <= most
    ensures Abs(Dot(a, m)) <= most * L1(m)
  {
    DotBound(a, m, -most, most);
    assert (most + -most) * Total(m) == 0;
    assert (most - -most) * L1(m) == 2 * (most * L1(m));
  }

  lemma {:induction false} PartialWeight(m: seq<int>, n: nat)
    requires n <= |m|
    ensures L1(m[..n]) <= L1(m)
    decreases |m| - n
  {
    if n < |m| {
      AddLast(m, n);
      PartialWeight(m, n + 1);
    } else {
      assert m[..n] == m;
    }
  }

  // ---- Accuracy of the reciprocal ------------------------------------------

  function Nearest(sum: nat, d: nat): nat
    requires d > 0
  {
    (2 * sum + d) / (2 * d)
  }

  /** The multiply-shift is within 1/2 + 2^-10 of the true quotient. */
  lemma {:induction false} ReciprocalError(sum: int, q: Step)
    requires Abs(sum) <= MAX_SUM
    ensures var k, d := Quantise(sum, Recip(q)), SCALE * q;
      -513 * d <= 1024 * (k * d - sum) <= 513 * d
  {
    var d, r, m := SCALE * q, Recip(q), Abs(sum);
    RecipBounds(q);
    var k := (m * r + N / 2) / N;
    assert k * N <= m * r + N / 2 < k * N + N;
    ErrorBound(m, r, d, k);
    assert (-k) * d == -(k * d);
  }

  lemma {:induction false} ErrorBound(m: nat, r: nat, d: nat, k: nat)
    requires d > 0 && 512 * m <= N
    requires 2 * N - d <= 2 * (r * d) <= 2 * N + d
    requires k * N <= m * r + N / 2 <= k * N + N
    ensures -513 * d <= 1024 * (k * d - m) <= 513 * d
  {
    ErrorParts(m, r, d, k, N);
    HalfTimes(k * N - m * r, d, N);
    HalfTimes(r * d - N, m, d);
    MulLe(d, 512 * m, N);
    ErrorSum(d, k * d - m, (k * N - m * r) * d, (r * d - N) * m, d * m);
  }

  /** The error of the whole is that of the rounding and that of the reciprocal. */
  lemma {:induction false} ErrorParts(m: int, r: int, d: int, k: int, n: int)
    ensures n * (k * d - m) == (k * n - m * r) * d + (r * d - n) * m
  {
    assert (k * n - m * r) * d == n * (k * d) - (m * r) * d;
    assert (r * d - n) * m == (m * r) * d - n * m;
  }

  lemma {:induction false} HalfTimes(x: int, f: int, b: int)
    requires f >= 0 && -b <= 2 * x <= b
    ensures -(b * f) <= 2 * (x * f) <= b * f
  {
    MulLe(f, 2 * x, b);
    MulLe(f, -b, 2 * x);
  }

  lemma {:induction false} ErrorSum(d: int, x: int, p: int, q: int, t: int)
    requires N * x == p + q && -(N * d) <= 2 * p <= N * d && -t <= 2 * q <= t && 512 * t <= N * d
    ensures -513 * d <= 1024 * x <= 513 * d
  {
  }

  /** At most one away from exact rounding, and equal to it unless the quotient is within 2^-10 of a tie. */
  lemma {:induction false} ReciprocalRounds(m: nat, q: Step)
    requires m <= MAX_SUM
    ensures var k, n, d := Quantise(m, Recip(q)), Nearest(m, SCALE * q), SCALE * q;
      && -1 <= k - n <= 1
      && (1024 * Abs(n * d - m) < 511 * d ==> k == n)
  {
    var k, d := Quantise(m, Recip(q)), SCALE * q;
    ReciprocalError(m, q);
    NearestError(m, d);
    Compare(m, d, k, Nearest(m, d));
  }

  lemma {:induction false} NearestError(m: int, d: int)
    requires m >= 0 && d > 0
    ensures -d <= 2 * (Nearest(m, d) * d - m) <= d
  {
    var n := Nearest(m, d);
    assert (2 * d) * n <= 2 * m + d < (2 * d) * n + 2 * d;
    assert (2 * d) * n == 2 * (n * d);
  }

  lemma {:induction false} Compare(m: int, d: int, k: int, n: int)
    requires d > 0 && -513 * d <= 1024 * (k * d - m) <= 513 * d
    requires -d <= 2 * (n * d - m) <= d
    ensures -1 <= k - n <= 1
    ensures 1024 * Abs(n * d - m) < 511 * d ==> k == n
  {
    assert (k - n) * d == k * d - n * d;
    Within(k - n, d, 2);
    Within(k - n, d, 1);
  }

  lemma {:induction false} Within(x: int, d: int, b: int)
    requires d > 0
    ensures -b * d < x * d < b * d ==> -b < x < b
  {
    if x >= b { MulLe(d, b, x); }
    if x <= -b { MulLe(d, x, -b); }
  }

  /** A power of two divides the scale exactly, so nothing is lost. */
  lemma {:induction false} ReciprocalExact(m: nat, q: Step)
    requires q in {1, 2, 4, 8, 16, 32, 64, 128}
    ensures Quantise(m, Recip(q)) == Nearest(m, SCALE * q)
  {
    var d, r := SCALE * q, Recip(q);
    assert r * d == N;
    ExactRounds(m, r, d, Quantise(m, r));
    QuotientIs(2 * m + d, 2 * d, Quantise(m, r));
  }

  lemma {:induction false} ExactRounds(m: nat, r: nat, d: nat, k: nat)
    requires r * d == N && k * N <= m * r + N / 2 < k * N + N
    ensures (2 * d) * k <= 2 * m + d < (2 * d) * k + 2 * d
  {
    var x := 2 * m + d - 2 * (d * k);
    Rescale(m, r, d, k, N);
    assert 0 <= r * x < 2 * N;
    assert r * (2 * d) == 2 * (r * d);
    if x < 0 { MulLe(r, x, -1); }
    if 2 * d <= x { MulLe(r, 2 * d, x); }
    assert (2 * d) * k == 2 * (d * k);
  }

  lemma {:induction false} Rescale(m: int, r: int, d: int, k: int, n: int)
    requires r * d == n
    ensures r * (2 * m + d - 2 * (d * k)) == 2 * (m * r) + n - 2 * (k * n)
  {
    assert r * (d * k) == (r * d) * k;
    assert r * (2 * m + d - 2 * (d * k)) == 2 * (m * r) + r * d - 2 * (r * (d * k));
  }

  lemma {:induction false} QuotientIs(a: nat, d: nat, k: nat)
    requires d > 0 && d * k <= a < d * k + d
    ensures a / d == k
  {
    var k' := a / d;
    assert d * k' <= a < d * k' + d;
    if k < k' { MulLe(d, k + 1, k'); } else if k' < k { MulLe(d, k' + 1, k); }
  }
}
