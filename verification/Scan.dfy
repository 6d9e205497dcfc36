/** The scan as a list of data units: encoding order, prediction, and decoding. */
module Scan {
  import opened Bits
  import opened Wrappers
  import opened Huffman
  import opened BitWriter
  import opened Entropy
  import opened Dct
  import opened Pixels
  import StandardTables

  /** Y, Cb, Cr. */
  type Comp = c: int | 0 <= c < 3

  /** One coded block: its component and zigzag coefficients. */
  datatype Unit = Unit(comp: Comp, zz: ZigZag)

  /** The symbol codes of one component, and of all three. */
  datatype Pair = Pair(dc: Coder, ac: Coder) {
    ghost predicate Ready() { DcReady(dc) && AcReady(ac) }
  }

  datatype Coders = Coders(y: Pair, cb: Pair, cr: Pair) {
    function Of(comp: Comp): Pair { if comp == 0 then y else if comp == 1 then cb else cr }
    ghost predicate Ready() { y.Ready() && cb.Ready() && cr.Ready() }
  }

  /** The last DC value of each component. */
  type Preds = p: seq<int> | |p| == 3 witness [0, 0, 0]

  function After(units: seq<Unit>, p: Preds): Preds
  {
    if units == [] then p else After(units[1..], p[units[0].comp := units[0].zz[0]])
  }

  function ScanBits(c: Coders, units: seq<Unit>, p: Preds): seq<bool>
  {
    if units == [] then []
    else
      var u := units[0];
      BlockBits(c.Of(u.comp).dc, c.Of(u.comp).ac, u.zz, p[u.comp]) + ScanBits(c, units[1..], p[u.comp := u.zz[0]])
  }

  lemma {:induction false} ScanAppend(c: Coders, units: seq<Unit>, u: Unit, p: Preds)
    ensures var q := After(units, p);
      && ScanBits(c, units + [u], p)
         == ScanBits(c, units, p) + BlockBits(c.Of(u.comp).dc, c.Of(u.comp).ac, u.zz, q[u.comp])
      && After(units + [u], p) == q[u.comp := u.zz[0]]
  {
    if units == [] {
      assert (units + [u])[1..] == [];
    } else {
      var h := units[0];
      var p' := p[h.comp := h.zz[0]];
      assert (units + [u])[1..] == units[1..] + [u];
      ScanAppend(c, units[1..], u, p');
      Assoc(BlockBits(c.Of(h.comp).dc, c.Of(h.comp).ac, h.zz, p[h.comp]), ScanBits(c, units[1..], p'),
              BlockBits(c.Of(u.comp).dc, c.Of(u.comp).ac, u.zz, After(units, p)[u.comp]));
    }
  }

  /** Bits of more units only add to the end. */
  lemma {:induction false} ScanGrows(c: Coders, units: seq<Unit>, more: seq<Unit>, p: Preds)
    ensures ScanBits(c, units, p) <= ScanBits(c, units + more, p)
    decreases |more|
  {
    if more == [] {
      assert units + more == units;
    } else {
      var init, last := more[..|more| - 1], more[|more| - 1];
      assert units + more == (units + init) + [last];
      ScanGrows(c, units, init, p);
      ScanAppend(c, units + init, last, p);
    }
  }

  // ---- Decoding ------------------------------------------------------------

  /** Decodes one block per listed component, predicting each from the last of its own. */
  function DecodeUnits(c: Coders, comps: seq<Comp>, bits: seq<bool>, p: Preds)
    : Option<(seq<(Comp, seq<int>)>, seq<bool>)>
    decreases |comps|
  {
    if comps == [] then Some(([], bits))
    else match DecodeBlock(c.Of(comps[0]).dc, c.Of(comps[0]).ac, bits, p[comps[0]])
      case None => None
      case Some((zz, rest)) =>
        if zz == [] then None
        else match DecodeUnits(c, comps[1..], rest, p[comps[0] := zz[0]])
          case None => None
          case Some((more, rest')) => Some(([(comps[0], zz)] + more, rest'))
  }

  function Comps(units: seq<Unit>): (r: seq<Comp>)
    ensures |r| == |units|
  {
    seq(|units|, i requires 0 <= i < |units| => units[i].comp)
  }

  function Values(units: seq<Unit>): (r: seq<(Comp, seq<int>)>)
    ensures |r| == |units|
  {
    seq(|units|, i requires 0 <= i < |units| => (units[i].comp, units[i].zz))
  }

  /** Every unit is within the categories of the tables, given its prediction. */
  ghost predicate AllEncodable(units: seq<Unit>, p: Preds)
  {
    units == [] ||
    (Encodable(units[0].zz, p[units[0].comp]) && AllEncodable(units[1..], p[units[0].comp := units[0].zz[0]]))
  }

  /** Decoding the scan of any encodable sequence of blocks returns exactly those blocks. */
  lemma {:induction false} ScanRoundTrip(c: Coders, units: seq<Unit>, p: Preds, rest: seq<bool>)
    requires c.Ready() && AllEncodable(units, p)
    ensures DecodeUnits(c, Comps(units), ScanBits(c, units, p) + rest, p) == Some((Values(units), rest))
  {
    if units == [] {
      assert ScanBits(c, units, p) + rest == rest;
      assert Values(units) == [];
    } else {
      var u, more := units[0], units[1..];
      var p' := p[u.comp := u.zz[0]];
      var later := ScanBits(c, more, p') + rest;
      Assoc(BlockBits(c.Of(u.comp).dc, c.Of(u.comp).ac, u.zz, p[u.comp]), ScanBits(c, more, p'), rest);
      BlockRoundTrip(c.Of(u.comp).dc, c.Of(u.comp).ac, u.zz, p[u.comp], later);
      ScanRoundTrip(c, more, p', rest);
      assert Comps(units)[0] == u.comp && Comps(units)[1..] == Comps(more);
      var zz: seq<int> := u.zz;
      assert Values(units) == [(u.comp, zz)] + Values(more);
    }
  }

  // ---- The picture's data units ----------------------------------------------

  /** T.81 section A.2.3 order inside one MCU: four luma blocks, then Cb and Cr. */
  function Mcu(img: Image, ql: seq<Step>, qc: seq<Step>, mx: nat, my: nat): seq<Unit>
    requires img.Valid() && |ql| == |qc| == 64
  {
    [LumaUnit(img, ql, mx * 16, my * 16), LumaUnit(img, ql, mx * 16 + 8, my * 16),
     LumaUnit(img, ql, mx * 16, my * 16 + 8), LumaUnit(img, ql, mx * 16 + 8, my * 16 + 8),
     CbUnit(img, qc, mx * 16, my * 16), CrUnit(img, qc, mx * 16, my * 16)]
  }

  function LumaUnit(img: Image, ql: seq<Step>, x: nat, y: nat): Unit
    requires img.Valid() && |ql| == 64
  {
    Unit(0, Zig(Coeffs(YBlock(img, x, y), ql)))
  }

  function CbUnit(img: Image, qc: seq<Step>, x: nat, y: nat): Unit
    requires img.Valid() && |qc| == 64
  {
    Unit(1, Zig(Coeffs(CbBlock(img, x, y), qc)))
  }

  function CrUnit(img: Image, qc: seq<Step>, x: nat, y: nat): Unit
    requires img.Valid() && |qc| == 64
  {
    Unit(2, Zig(Coeffs(CrBlock(img, x, y), qc)))
  }

  /** The first `n` MCUs of row `my`, and the first `n` rows of MCUs. */
  function RowUnits(img: Image, ql: seq<Step>, qc: seq<Step>, my: nat, n: nat): seq<Unit>
    requires img.Valid() && |ql| == |qc| == 64
  {
    if n == 0 then [] else RowUnits(img, ql, qc, my, n - 1) + Mcu(img, ql, qc, n - 1, my)
  }

  function Units(img: Image, ql: seq<Step>, qc: seq<Step>, n: nat): seq<Unit>
    requires img.Valid() && |ql| == |qc| == 64
  {
    if n == 0 then [] else Units(img, ql, qc, n - 1) + RowUnits(img, ql, qc, n - 1, McusAcross(img.width))
  }

  /** DIV_ROUND_UP(n, 16), in 32 bits. */
  function McusAcross(n: nat): (r: nat)
    ensures n + 15 < WORD ==> r == (n + 15) / 16 && 16 * r < n + 16 <= 16 * r + 16
  {
    (n + 15) % WORD / 16
  }

  function Cycle(pattern: seq<Comp>, n: nat): seq<Comp> {
    if n == 0 then [] else Cycle(pattern, n - 1) + pattern
  }

  const PATTERN: seq<Comp> := [0, 0, 0, 0, 1, 2]

  lemma {:induction false} CycleAdd(pattern: seq<Comp>, m: nat, n: nat)
    ensures Cycle(pattern, m + n) == Cycle(pattern, m) + Cycle(pattern, n)
  {
    if n > 0 {
      CycleAdd(pattern, m, n - 1);
      assert m + n - 1 == m + (n - 1);
    }
  }

  lemma {:induction false} RowComps(img: Image, ql: seq<Step>, qc: seq<Step>, my: nat, n: nat)
    requires img.Valid() && |ql| == |qc| == 64
    ensures Comps(RowUnits(img, ql, qc, my, n)) == Cycle(PATTERN, n)
  {
    if n > 0 {
      RowComps(img, ql, qc, my, n - 1);
      assert Comps(Mcu(img, ql, qc, n - 1, my)) == PATTERN;
      CompsAdd(RowUnits(img, ql, qc, my, n - 1), Mcu(img, ql, qc, n - 1, my));
    }
  }

  lemma {:induction false} CompsAdd(a: seq<Unit>, b: seq<Unit>)
    ensures Comps(a + b) == Comps(a) + Comps(b)
  {
  }

  /** A picture has one pattern of blocks per MCU, row by row. */
  lemma {:induction false} UnitComps(img: Image, ql: seq<Step>, qc: seq<Step>, n: nat)
    requires img.Valid() && |ql| == |qc| == 64
    ensures Comps(Units(img, ql, qc, n)) == Cycle(PATTERN, n * McusAcross(img.width))
  {
    if n == 0 {
      assert Comps(Units(img, ql, qc, n)) == [];
    } else {
      var w := McusAcross(img.width);
      UnitComps(img, ql, qc, n - 1);
      RowComps(img, ql, qc, n - 1, w);
      CompsAdd(Units(img, ql, qc, n - 1), RowUnits(img, ql, qc, n - 1, w));
      CycleAdd(PATTERN, (n - 1) * w, w);
      assert (n - 1) * w + w == n * w;
    }
  }

  // ---- No symbol is ever dropped ------------------------------------------------

  /** What the transform guarantees of a block: a narrow DC, narrower ACs. */
  ghost predicate InRange(zz: ZigZag) {
    -1024 <= zz[0] <= 1016 && forall i | 1 <= i < 64 :: -1020 <= zz[i] <= 1020
  }

  lemma {:induction false} TransformInRange(s: Samples, qt: seq<Step>)
    requires |qt| == 64
    ensures InRange(Zig(Coeffs(s, qt)))
  {
    var zz := Zig(Coeffs(s, qt));
    forall i: nat | i < 64
      ensures i == 0 ==> -1024 <= zz[i] <= 1016
      ensures i > 0 ==> -1020 <= zz[i] <= 1020
    {
      var k := StandardTables.Zigzag(i);
      CoeffRange(s, qt, k / 8, k % 8);
      assert zz[i] == CoeffAt(s, qt, k / 8, k % 8);
    }
  }

  /** Differences of such DC values have category at most 11, AC values at most 10. */
  lemma {:induction false} InRangeEncodable(zz: ZigZag, pred: int)
    requires InRange(zz) && -1024 <= pred <= 1016
    ensures Encodable(zz, pred)
  {
    StandardTables.Powers();
    CategoryAtMost(Abs(zz[0] - pred), 11);
    forall i | 1 <= i < 64 ensures Category(Abs(zz[i])) <= 10 {
      CategoryAtMost(Abs(zz[i]), 10);
    }
  }

  ghost predicate PredsInRange(p: Preds) {
    forall k | 0 <= k < 3 :: -1024 <= p[k] <= 1016
  }

  ghost predicate UnitsInRange(units: seq<Unit>) {
    forall i | 0 <= i < |units| :: InRange(units[i].zz)
  }

  lemma {:induction false} AllInRange(units: seq<Unit>, p: Preds)
    requires UnitsInRange(units) && PredsInRange(p)
    ensures AllEncodable(units, p)
  {
    if units != [] {
      InRangeEncodable(units[0].zz, p[units[0].comp]);
      AllInRange(units[1..], p[units[0].comp := units[0].zz[0]]);
    }
  }

  lemma {:induction false} McuInRange(img: Image, ql: seq<Step>, qc: seq<Step>, mx: nat, my: nat)
    requires img.Valid() && |ql| == |qc| == 64
    ensures UnitsInRange(Mcu(img, ql, qc, mx, my))
  {
    var x, y := mx * 16, my * 16;
    TransformInRange(YBlock(img, x, y), ql);
    TransformInRange(YBlock(img, x + 8, y), ql);
    TransformInRange(YBlock(img, x, y + 8), ql);
    TransformInRange(YBlock(img, x + 8, y + 8), ql);
    TransformInRange(CbBlock(img, x, y), qc);
    TransformInRange(CrBlock(img, x, y), qc);
  }

  lemma {:induction false} RowInRange(img: Image, ql: seq<Step>, qc: seq<Step>, my: nat, n: nat)
    requires img.Valid() && |ql| == |qc| == 64
    ensures UnitsInRange(RowUnits(img, ql, qc, my, n))
  {
    if n > 0 {
      RowInRange(img, ql, qc, my, n - 1);
      McuInRange(img, ql, qc, n - 1, my);
      InRangeAdd(RowUnits(img, ql, qc, my, n - 1), Mcu(img, ql, qc, n - 1, my));
    }
  }

  lemma {:induction false} InRangeAdd(a: seq<Unit>, b: seq<Unit>)
    requires UnitsInRange(a) && UnitsInRange(b)
    ensures UnitsInRange(a + b)
  {
  }

  lemma {:induction false} PictureInRange(img: Image, ql: seq<Step>, qc: seq<Step>, n: nat)
    requires img.Valid() && |ql| == |qc| == 64
    ensures UnitsInRange(Units(img, ql, qc, n))
  {
    if n > 0 {
      var w := McusAcross(img.width);
      PictureInRange(img, ql, qc, n - 1);
      RowInRange(img, ql, qc, n - 1, w);
      InRangeAdd(Units(img, ql, qc, n - 1), RowUnits(img, ql, qc, n - 1, w));
    }
  }

  const START: Preds := [0, 0, 0]

  /** For every picture and every quantiser, each block can be coded: no symbol is missing. */
  lemma {:induction false} PictureEncodable(img: Image, ql: seq<Step>, qc: seq<Step>, n: nat)
    requires img.Valid() && |ql| == |qc| == 64
    ensures AllEncodable(Units(img, ql, qc, n), START)
  {
    PictureInRange(img, ql, qc, n);
    AllInRange(Units(img, ql, qc, n), START);
  }
}
