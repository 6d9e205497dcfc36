/** Which pixels a coded block stands for (trigger6_codec.c:454-523, 678-726). */
module Placement {
  import opened Bits
  import opened Wrappers
  import opened Entropy
  import opened Dct
  import opened Pixels
  import opened Scan
  import opened Segments
  import opened JpegFile
  import opened StandardTables
  import Cosine

  /** One byte of the pixel at `(x, y)`: blue, green, red; outside the picture, of the nearest pixel inside it. */
  function ByteAt(img: Image, x: nat, y: nat, channel: nat): byte
    requires img.Valid() && channel < 3
  {
    var nx := if x < img.width then x else img.width - 1;
    var ny := if y < img.height then y else img.height - 1;
    Inside(img, nx, ny);
    img.src[ny * img.stride % 0x1_0000_0000 + 4 * nx % 0x1_0000_0000 + channel]
  }

  lemma {:induction false} Inside(img: Image, x: nat, y: nat)
    requires img.Valid() && x < img.width && y < img.height
    ensures y * img.stride % 0x1_0000_0000 + 4 * x % 0x1_0000_0000 + 2 < |img.src|
  {
    assert Address(img.stride, x, y) + 2 < |img.src|;
  }

  /** The rounded mean over the two by two pixels from `(x, y)`. */
  function MeanAt(img: Image, x: nat, y: nat, channel: nat): byte
    requires img.Valid() && channel < 3
  {
    (ByteAt(img, x, y, channel) + ByteAt(img, x + 1, y, channel)
     + ByteAt(img, x, y + 1, channel) + ByteAt(img, x + 1, y + 1, channel) + 2) / 4
  }

  lemma {:induction false} ChannelIsByte(img: Image, x: nat, y: nat, channel: nat)
    requires img.Valid() && channel < 3
    ensures Channel(img, x, y, channel) == ByteAt(img, x, y, channel)
  {
  }

  // ---- The order of the units ---------------------------------------------------------------

  /** Groups of six, `w` to a row: the first `n` of row `my`, and `n` rows. */
  function RowOf(group: (nat, nat) -> seq<Unit>, my: nat, n: nat): seq<Unit> {
    if n == 0 then [] else RowOf(group, my, n - 1) + group(n - 1, my)
  }

  function RowsOf(group: (nat, nat) -> seq<Unit>, w: nat, n: nat): seq<Unit> {
    if n == 0 then [] else RowsOf(group, w, n - 1) + RowOf(group, n - 1, w)
  }

  ghost predicate Sixes(group: (nat, nat) -> seq<Unit>) { forall mx: nat, my: nat :: |group(mx, my)| == 6 }

  lemma {:induction false} RowOfAt(group: (nat, nat) -> seq<Unit>, my: nat, n: nat, mx: nat, j: nat)
    requires Sixes(group) && j < 6
    ensures |RowOf(group, my, n)| == 6 * n
    ensures mx < n ==> RowOf(group, my, n)[6 * mx + j] == group(mx, my)[j]
    decreases n
  {
    if n > 0 { RowOfAt(group, my, n - 1, mx, j); }
  }

  /** How many groups `n` rows of `w` hold. */
  function Groups(n: nat, w: nat): nat { if n == 0 then 0 else Groups(n - 1, w) + w }

  lemma {:induction false} GroupsIsProduct(n: nat, w: nat)
    ensures Groups(n, w) == n * w
  {
    if n > 0 {
      GroupsIsProduct(n - 1, w);
      assert n * w == (n - 1) * w + w;
    }
  }

  lemma {:induction false} RowsOfLength(group: (nat, nat) -> seq<Unit>, w: nat, n: nat)
    requires Sixes(group)
    ensures |RowsOf(group, w, n)| == 6 * Groups(n, w)
  {
    if n > 0 {
      RowsOfLength(group, w, n - 1);
      RowOfAt(group, n - 1, w, 0, 0);
    }
  }

  lemma {:induction false} RowsOfAt(group: (nat, nat) -> seq<Unit>, w: nat, n: nat, mx: nat, my: nat, j: nat)
    requires Sixes(group) && j < 6 && mx < w && my < n
    ensures var k := 6 * (Groups(my, w) + mx) + j;
      k < |RowsOf(group, w, n)| && RowsOf(group, w, n)[k] == group(mx, my)[j]
    decreases n
  {
    var a, b, k := RowsOf(group, w, n - 1), RowOf(group, n - 1, w), 6 * (Groups(my, w) + mx) + j;
    RowsOfLength(group, w, n - 1);
    RowOfAt(group, n - 1, w, mx, j);
    if my < n - 1 {
      RowsOfAt(group, w, n - 1, mx, my, j);
      assert k < |a|;
    } else {
      assert k == |a| + (6 * mx + j);
    }
    Joined(a, b, k);
  }

  lemma {:induction false} Joined(a: seq<Unit>, b: seq<Unit>, k: nat)
    requires k < |a| + |b|
    ensures (a + b)[k] == if k < |a| then a[k] else b[k - |a|]
  {
  }

  /** The MCUs of a picture as a function. */
  function Mcus(img: Image, ql: seq<Step>, qc: seq<Step>): (nat, nat) -> seq<Unit>
    requires img.Valid() && |ql| == |qc| == 64
  {
    (mx: nat, my: nat) => Mcu(img, ql, qc, mx, my)
  }

  lemma {:induction false} RowIsRow(img: Image, ql: seq<Step>, qc: seq<Step>, my: nat, n: nat)
    requires img.Valid() && |ql| == |qc| == 64
    ensures RowUnits(img, ql, qc, my, n) == RowOf(Mcus(img, ql, qc), my, n)
  {
    if n > 0 { RowIsRow(img, ql, qc, my, n - 1); }
  }

  lemma {:induction false} UnitsAreRows(img: Image, ql: seq<Step>, qc: seq<Step>, n: nat)
    requires img.Valid() && |ql| == |qc| == 64
    ensures Units(img, ql, qc, n) == RowsOf(Mcus(img, ql, qc), McusAcross(img.width), n)
  {
    if n > 0 {
      UnitsAreRows(img, ql, qc, n - 1);
      RowIsRow(img, ql, qc, n - 1, McusAcross(img.width));
    }
  }

  /** Where MCU `(mx, my)` starts, with `w` MCUs to a row. */
  function Start(w: nat, mx: nat, my: nat): nat { 6 * (my * w + mx) }

  /** Unit `j` of MCU `(mx, my)` in a picture. */
  lemma {:induction false} UnitAt(img: Image, ql: seq<Step>, qc: seq<Step>, n: nat, mx: nat, my: nat, j: nat)
    requires img.Valid() && |ql| == |qc| == 64 && mx < McusAcross(img.width) && my < n && j < 6
    ensures var k := Start(McusAcross(img.width), mx, my) + j;
      k < |Units(img, ql, qc, n)| && Units(img, ql, qc, n)[k] == Mcus(img, ql, qc)(mx, my)[j]
  {
    var w := McusAcross(img.width);
    UnitsAreRows(img, ql, qc, n);
    AllSixes(img, ql, qc);
    RowsOfAt(Mcus(img, ql, qc), w, n, mx, my, j);
    GroupsIsProduct(my, w);
  }

  lemma {:induction false} AllSixes(img: Image, ql: seq<Step>, qc: seq<Step>)
    requires img.Valid() && |ql| == |qc| == 64
    ensures Sixes(Mcus(img, ql, qc))
  {
  }

  // ---- The samples of a unit ------------------------------------------------------------------

  /** The unit is the coded form of the block. */
  predicate Codes(u: Unit, comp: Comp, s: Samples, qt: seq<Step>)
    requires |qt| == 64
  {
    u == Unit(comp, Zig(Coeffs(s, qt)))
  }

  /** `v` is the luma of the pixel at `(x, y)`. */
  ghost predicate YAt(img: Image, x: nat, y: nat, v: int)
    requires img.Valid()
  {
    v == Luma(ByteAt(img, x, y, 0), ByteAt(img, x, y, 1), ByteAt(img, x, y, 2))
  }

  /** The samples are the luma of the eight by eight pixels from `(left, top)`, row by row. */
  ghost predicate LumaOf(img: Image, left: nat, top: nat, s: Samples)
    requires img.Valid()
  {
    forall k: nat | k < 64 :: YAt(img, left + k % 8, top + k / 8, s[k])
  }

  /**
   * Luma block `2 * dy + dx` of an MCU: its samples are the luma of the eight by eight pixels from
   * `(16 mx + 8 dx, 16 my + 8 dy)`, row by row.
   */
  lemma {:induction false} LumaBlock(img: Image, ql: seq<Step>, qc: seq<Step>, mx: nat, my: nat, dx: nat, dy: nat)
      returns (s: Samples)
    requires img.Valid() && |ql| == |qc| == 64 && dx < 2 && dy < 2
    requires mx < McusAcross(img.width) && my < McusAcross(img.height)
    ensures var units := Units(img, ql, qc, McusAcross(img.height));
      var k := Start(McusAcross(img.width), mx, my) + 2 * dy + dx;
      k < |units| && Codes(units[k], 0, s, ql)
    ensures LumaOf(img, 16 * mx + 8 * dx, 16 * my + 8 * dy, s)
  {
    s := YBlock(img, 16 * mx + 8 * dx, 16 * my + 8 * dy);
    LumaUnitAt(img, ql, qc, mx, my, dx, dy);
    LumaSamples(img, 16 * mx + 8 * dx, 16 * my + 8 * dy);
  }

  lemma {:induction false} LumaUnitAt(img: Image, ql: seq<Step>, qc: seq<Step>, mx: nat, my: nat, dx: nat, dy: nat)
    requires img.Valid() && |ql| == |qc| == 64 && dx < 2 && dy < 2
    requires mx < McusAcross(img.width) && my < McusAcross(img.height)
    ensures var units := Units(img, ql, qc, McusAcross(img.height));
      var k := Start(McusAcross(img.width), mx, my) + 2 * dy + dx;
      k < |units| && Codes(units[k], 0, YBlock(img, 16 * mx + 8 * dx, 16 * my + 8 * dy), ql)
  {
    UnitAt(img, ql, qc, McusAcross(img.height), mx, my, 2 * dy + dx);
    LumaOfMcu(img, ql, qc, mx, my, dx, dy);
  }

  /**
   * Where pixel `(px, py)` is coded: at place `8 * (py % 8) + px % 8` of block `2 * (py / 8 % 2) + px / 8 % 2` of MCU
   * `(px / 16, py / 16)`. Past the edge of the picture, it is the nearest pixel.
   */
  lemma {:induction false} PixelPlace(img: Image, ql: seq<Step>, qc: seq<Step>, px: nat, py: nat) returns (s: Samples)
    requires img.Valid() && |ql| == |qc| == 64
    requires px / 16 < McusAcross(img.width) && py / 16 < McusAcross(img.height)
    ensures var units := Units(img, ql, qc, McusAcross(img.height));
      var k := Start(McusAcross(img.width), px / 16, py / 16) + 2 * (py / 8 % 2) + px / 8 % 2;
      k < |units| && units[k] == Unit(0, Zig(Coeffs(s, ql)))
    ensures YAt(img, px, py, s[8 * (py % 8) + px % 8])
  {
    var x, y := px % 8, py % 8;
    Digits(px);
    Digits(py);
    s := LumaBlock(img, ql, qc, px / 16, py / 16, px / 8 % 2, py / 8 % 2);
    Grid(x, y);
    assert YAt(img, px - x + (8 * y + x) % 8, py - y + (8 * y + x) / 8, s[8 * y + x]);
  }

  lemma {:induction false} Digits(p: nat)
    ensures 16 * (p / 16) + 8 * (p / 8 % 2) + p % 8 == p
  {
  }

  lemma {:induction false} LumaSamples(img: Image, left: nat, top: nat)
    requires img.Valid()
    ensures LumaOf(img, left, top, YBlock(img, left, top))
  {
    forall k: nat | k < 64 ensures YAt(img, left + k % 8, top + k / 8, YBlock(img, left, top)[k]) {
      LumaIsLuma(img, left + k % 8, top + k / 8);
    }
  }

  lemma {:induction false} LumaIsLuma(img: Image, x: nat, y: nat)
    requires img.Valid()
    ensures YAt(img, x, y, YSample(img, x, y))
  {
    ChannelIsByte(img, x, y, 0);
    ChannelIsByte(img, x, y, 1);
    ChannelIsByte(img, x, y, 2);
  }

  lemma {:induction false} Grid(x: nat, y: nat)
    requires x < 8 && y < 8
    ensures (8 * y + x) % 8 == x && (8 * y + x) / 8 == y
  {
  }

  lemma {:induction false} LumaOfMcu(img: Image, ql: seq<Step>, qc: seq<Step>, mx: nat, my: nat, dx: nat, dy: nat)
    requires img.Valid() && |ql| == |qc| == 64 && dx < 2 && dy < 2
    ensures Codes(Mcus(img, ql, qc)(mx, my)[2 * dy + dx], 0, YBlock(img, 16 * mx + 8 * dx, 16 * my + 8 * dy), ql)
  {
    assert mx * 16 == 16 * mx && my * 16 == 16 * my;
  }

  ghost predicate CbAt(img: Image, x: nat, y: nat, v: int)
    requires img.Valid()
  {
    v == Cb(MeanAt(img, x, y, 0), MeanAt(img, x, y, 1), MeanAt(img, x, y, 2))
  }

  ghost predicate CrAt(img: Image, x: nat, y: nat, v: int)
    requires img.Valid()
  {
    v == Cr(MeanAt(img, x, y, 0), MeanAt(img, x, y, 1), MeanAt(img, x, y, 2))
  }

  /** The samples are the colour of the sixteen by sixteen pixels from `(left, top)`, two by two, row by row. */
  ghost predicate ColourOf(img: Image, left: nat, top: nat, cb: Samples, cr: Samples)
    requires img.Valid()
  {
    forall k: nat | k < 64 ::
      CbAt(img, left + 2 * (k % 8), top + 2 * (k / 8), cb[k]) && CrAt(img, left + 2 * (k % 8), top + 2 * (k / 8), cr[k])
  }

  /** The two colour blocks of an MCU. */
  lemma {:induction false} ColourBlocks(img: Image, ql: seq<Step>, qc: seq<Step>, mx: nat, my: nat)
      returns (cb: Samples, cr: Samples)
    requires img.Valid() && |ql| == |qc| == 64 && mx < McusAcross(img.width) && my < McusAcross(img.height)
    ensures var units := Units(img, ql, qc, McusAcross(img.height));
      var k := Start(McusAcross(img.width), mx, my);
      k + 5 < |units| && units[k + 4] == Unit(1, Zig(Coeffs(cb, qc))) && units[k + 5] == Unit(2, Zig(Coeffs(cr, qc)))
    ensures ColourOf(img, 16 * mx, 16 * my, cb, cr)
  {
    cb, cr := CbBlock(img, 16 * mx, 16 * my), CrBlock(img, 16 * mx, 16 * my);
    ColourUnitsAt(img, ql, qc, mx, my);
    ColourSamples(img, 16 * mx, 16 * my);
  }

  lemma {:induction false} ColourSamples(img: Image, left: nat, top: nat)
    requires img.Valid()
    ensures ColourOf(img, left, top, CbBlock(img, left, top), CrBlock(img, left, top))
  {
    var cb, cr := CbBlock(img, left, top), CrBlock(img, left, top);
    forall k: nat | k < 64
      ensures CbAt(img, left + 2 * (k % 8), top + 2 * (k / 8), cb[k])
      ensures CrAt(img, left + 2 * (k % 8), top + 2 * (k / 8), cr[k])
    {
      ColourSample(img, left + 2 * (k % 8), top + 2 * (k / 8), cb[k], cr[k]);
    }
  }

  lemma {:induction false} ColourUnitsAt(img: Image, ql: seq<Step>, qc: seq<Step>, mx: nat, my: nat)
    requires img.Valid() && |ql| == |qc| == 64 && mx < McusAcross(img.width) && my < McusAcross(img.height)
    ensures var units := Units(img, ql, qc, McusAcross(img.height));
      var k := Start(McusAcross(img.width), mx, my);
      && k + 5 < |units| && Codes(units[k + 4], 1, CbBlock(img, 16 * mx, 16 * my), qc)
      && Codes(units[k + 5], 2, CrBlock(img, 16 * mx, 16 * my), qc)
  {
    UnitAt(img, ql, qc, McusAcross(img.height), mx, my, 4);
    UnitAt(img, ql, qc, McusAcross(img.height), mx, my, 5);
    ColoursOfMcu(img, ql, qc, mx, my);
  }

  lemma {:induction false} ColoursOfMcu(img: Image, ql: seq<Step>, qc: seq<Step>, mx: nat, my: nat)
    requires img.Valid() && |ql| == |qc| == 64
    ensures Codes(Mcus(img, ql, qc)(mx, my)[4], 1, CbBlock(img, 16 * mx, 16 * my), qc)
    ensures Codes(Mcus(img, ql, qc)(mx, my)[5], 2, CrBlock(img, 16 * mx, 16 * my), qc)
  {
    assert mx * 16 == 16 * mx && my * 16 == 16 * my;
  }

  lemma {:induction false} ColourSample(img: Image, x: nat, y: nat, cb: int, cr: int)
    requires img.Valid() && cb == CbSample(img, x, y) && cr == CrSample(img, x, y)
    ensures CbAt(img, x, y, cb) && CrAt(img, x, y, cr)
  {
    MeanIsMean(img, x, y, 0);
    MeanIsMean(img, x, y, 1);
    MeanIsMean(img, x, y, 2);
  }

  lemma {:induction false} MeanIsMean(img: Image, x: nat, y: nat, channel: nat)
    requires img.Valid() && channel < 3
    ensures Mean(img, x, y, channel) == MeanAt(img, x, y, channel)
  {
    ChannelIsByte(img, x, y, channel);
    ChannelIsByte(img, x + 1, y, channel);
    ChannelIsByte(img, x, y + 1, channel);
    ChannelIsByte(img, x + 1, y + 1, channel);
  }

  // ---- From a pixel to the file -------------------------------------------------------------

  /** Every coefficient, times its step, is the cosine transform of the samples, as close as quantising allows. */
  ghost predicate Faithful(zz: seq<int>, q: seq<byte>, s: Samples, c: nat -> real)
    requires |zz| == |q| == 64
  {
    forall v: nat, u: nat | v < 8 && u < 8 ::
      Rounded(zz[ZigzagPlace(8 * v + u)], q[8 * v + u], Cosine.Transform(s, c, v, u))
  }

  ghost predicate Rounded(k: int, q: byte, exact: real) {
    -513.0 * q as real / 1024.0 - 0.25 <= (k * q) as real - exact <= 513.0 * q as real / 1024.0 + 0.25
  }

  lemma {:induction false} CodedIsFaithful(s: Samples, q: seq<Step>, c: nat -> real)
    requires |q| == 64 && Cosine.IsCosine(c)
    ensures Faithful(Zig(Coeffs(s, q)), q, s, c)
  {
    forall v: nat, u: nat | v < 8 && u < 8
      ensures Rounded(Zig(Coeffs(s, q))[ZigzagPlace(8 * v + u)], q[8 * v + u], Cosine.Transform(s, c, v, u))
    {
      ZigzagPermutes(8 * v + u);
      assert Zig(Coeffs(s, q))[ZigzagPlace(8 * v + u)] == Coeffs(s, q)[8 * v + u];
      Cosine.CoefficientIsCosine(s, q, c, v, u);
    }
  }

  /**
   * End to end: what a reader finds in the file for the block of pixel `(px, py)` is the cosine transform of eight by
   * eight samples that hold the luma of that pixel at its place.
   */
  lemma {:induction false} FileHoldsLuma(sp: Specs, img: Image, quality: nat, px: nat, py: nat, c: nat -> real)
      returns (j: Jpeg, s: Samples)
    requires sp.Valid() && img.Valid() && img.width < 0x1_0000 && img.height < 0x1_0000 && Cosine.IsCosine(c)
    requires px < img.width && py < img.height
    ensures DecodeJpeg(FileBytes(sp, img, quality)) == Some(j)
    ensures YAt(img, px, py, s[8 * (py % 8) + px % 8])
    ensures var k := Start((img.width + 15) / 16, px / 16, py / 16) + 2 * (py / 8 % 2) + px / 8 % 2;
      && k < |j.blocks| && j.blocks[k].0 == 0 && |j.blocks[k].1| == |j.quantisers[0]| == 64
      && Faithful(j.blocks[k].1, j.quantisers[0], s, c)
  {
    var ql, qc := LumaSteps(quality), ChromaSteps(quality);
    FileRoundTrip(sp, img, quality);
    j := Recovered(sp, img, quality);
    s := PixelPlace(img, ql, qc, px, py);
    CodedIsFaithful(s, ql, c);
  }
}
