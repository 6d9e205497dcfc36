/** Colour conversion and block loading with edge replication (trigger6_codec.c:288-304, 454-523). */
module Pixels {
  import opened Bits
  import opened Dct
  import StandardTables

  /** An XRGB8888 picture: rows of `stride` bytes, four bytes (blue, green, red, unused) per pixel. */
  datatype Image = Image(src: seq<byte>, width: nat, height: nat, stride: nat) {
    /** A size that the encoder accepts, and a readable source: every pixel's address, as computed, is inside it. */
    ghost predicate Valid() {
      && 0 < width < WORD && 0 < height < WORD
      && forall x: nat, y: nat | x < width && y < height :: Address(stride, x, y) + 2 < |src|
    }
  }

  const WORD: nat := 0x1_0000_0000

  /** Both products are computed in 32 bits. */
  function Address(stride: nat, x: nat, y: nat): nat { y * stride % WORD + x * 4 % WORD }

  /** An ordinary picture is readable, and below 4 GiB no address wraps. */
  lemma {:induction false} Ordinary(img: Image)
    requires 0 < img.width < WORD && 0 < img.height < WORD && img.width * 4 <= img.stride
    requires img.height * img.stride <= |img.src|
    ensures img.Valid()
    ensures img.height * img.stride <= WORD ==> forall x: nat, y: nat | x < img.width && y < img.height ::
      Address(img.stride, x, y) == y * img.stride + x * 4
  {
    forall x: nat, y: nat | x < img.width && y < img.height
      ensures Address(img.stride, x, y) + 2 < |img.src|
      ensures img.height * img.stride <= WORD ==> Address(img.stride, x, y) == y * img.stride + x * 4
    {
      RowInside(y, img.height, img.stride);
      Wraps(y * img.stride);
      Wraps(x * 4);
    }
  }

  lemma {:induction false} Wraps(n: nat)
    ensures n % WORD <= n && (n < WORD ==> n % WORD == n)
  {
  }

  function Min(a: nat, b: nat): nat { if a < b then a else b }

  function ClampByte(v: int): byte {
    if v < 0 then 0 else if v > 255 then 255 else v
  }

  /** The address of the pixel at `(x, y)`, or of the nearest one inside the picture. */
  function Offset(img: Image, x: nat, y: nat): (o: nat)
    requires img.Valid()
    ensures o + 2 < |img.src|
  {
    Address(img.stride, Min(x, img.width - 1), Min(y, img.height - 1))
  }

  lemma {:induction false} RowInside(py: nat, height: nat, stride: nat)
    requires py < height
    ensures py * stride + stride <= height * stride
  {
    assert (height - 1 - py) * stride >= 0;
    assert height * stride == py * stride + stride + (height - 1 - py) * stride;
  }

  function Channel(img: Image, x: nat, y: nat, channel: nat): (v: nat)
    requires img.Valid() && channel < 3
    ensures v < 256
  {
    img.src[Offset(img, x, y) + channel]
  }

  function Luma(b: byte, g: byte, r: byte): Sample {
    ClampByte((77 * r + 150 * g + 29 * b + 128) / 256) - 128
  }

  function YSample(img: Image, x: nat, y: nat): Sample
    requires img.Valid()
  {
    Luma(Channel(img, x, y, 0), Channel(img, x, y, 1), Channel(img, x, y, 2))
  }

  /** Rounded mean of one channel over the two-by-two square at `(x, y)`. */
  function Mean(img: Image, x: nat, y: nat, channel: nat): byte
    requires img.Valid() && channel < 3
  {
    (Channel(img, x, y, channel) + Channel(img, x + 1, y, channel) +
     Channel(img, x, y + 1, channel) + Channel(img, x + 1, y + 1, channel) + 2) / 4
  }

  function Cb(b: byte, g: byte, r: byte): Sample {
    ClampByte((-43 * r - 85 * g + 128 * b + 128) / 256 + 128) - 128
  }

  function Cr(b: byte, g: byte, r: byte): Sample {
    ClampByte((128 * r - 107 * g - 21 * b + 128) / 256 + 128) - 128
  }

  function CbSample(img: Image, x: nat, y: nat): Sample
    requires img.Valid()
  {
    Cb(Mean(img, x, y, 0), Mean(img, x, y, 1), Mean(img, x, y, 2))
  }

  function CrSample(img: Image, x: nat, y: nat): Sample
    requires img.Valid()
  {
    Cr(Mean(img, x, y, 0), Mean(img, x, y, 1), Mean(img, x, y, 2))
  }

  /** The 8 by 8 blocks with their top left corner at `(x, y)`; chroma covers 16 by 16 pixels. */
  function YBlock(img: Image, x: nat, y: nat): Samples
    requires img.Valid()
  {
    seq(64, k requires 0 <= k < 64 => YSample(img, x + k % 8, y + k / 8))
  }

  function CbBlock(img: Image, x: nat, y: nat): Samples
    requires img.Valid()
  {
    seq(64, k requires 0 <= k < 64 => CbSample(img, x + k % 8 * 2, y + k / 8 * 2))
  }

  function CrBlock(img: Image, x: nat, y: nat): Samples
    requires img.Valid()
  {
    seq(64, k requires 0 <= k < 64 => CrSample(img, x + k % 8 * 2, y + k / 8 * 2))
  }

  method LoadYBlock(img: Image, baseX: nat, baseY: nat, block: array<int>)
    requires img.Valid() && block.Length == 64
    modifies block
    ensures block[..] == YBlock(img, baseX, baseY)
  {
    ghost var want := YBlock(img, baseX, baseY);
    for y := 0 to 8
      invariant forall k | 0 <= k < 8 * y :: block[k] == want[k]
    {
      for x := 0 to 8
        invariant forall k | 0 <= k < 8 * y + x :: block[k] == want[k]
      {
        assert want[8 * y + x] == YSample(img, baseX + x, baseY + y) by {
          assert (8 * y + x) / 8 == y && (8 * y + x) % 8 == x;
        }
        block[y * 8 + x] := YSample(img, baseX + x, baseY + y);
      }
    }
  }

  method LoadChromaBlock(img: Image, baseX: nat, baseY: nat, cbBlock: array<int>, crBlock: array<int>)
    requires img.Valid() && cbBlock.Length == 64 && crBlock.Length == 64 && cbBlock != crBlock
    modifies cbBlock, crBlock
    ensures cbBlock[..] == CbBlock(img, baseX, baseY)
    ensures crBlock[..] == CrBlock(img, baseX, baseY)
  {
    ghost var wantCb, wantCr := CbBlock(img, baseX, baseY), CrBlock(img, baseX, baseY);
    for y := 0 to 8
      invariant forall k | 0 <= k < 8 * y :: cbBlock[k] == wantCb[k] && crBlock[k] == wantCr[k]
    {
      for x := 0 to 8
        invariant forall k | 0 <= k < 8 * y + x :: cbBlock[k] == wantCb[k] && crBlock[k] == wantCr[k]
      {
        ChromaPlace(img, baseX, baseY, x, y);
        var cb, cr := ChromaAt(img, baseX + x * 2, baseY + y * 2);
        cbBlock[y * 8 + x] := cb;
        crBlock[y * 8 + x] := cr;
      }
    }
  }

  lemma {:induction false} ChromaPlace(img: Image, baseX: nat, baseY: nat, x: nat, y: nat)
    requires img.Valid() && x < 8 && y < 8
    ensures CbBlock(img, baseX, baseY)[8 * y + x] == CbSample(img, baseX + x * 2, baseY + y * 2)
    ensures CrBlock(img, baseX, baseY)[8 * y + x] == CrSample(img, baseX + x * 2, baseY + y * 2)
  {
    assert (8 * y + x) / 8 == y && (8 * y + x) % 8 == x;
  }

  method ChromaAt(img: Image, x: nat, y: nat) returns (cb: Sample, cr: Sample)
    requires img.Valid()
    ensures cb == CbSample(img, x, y) && cr == CrSample(img, x, y)
  {
    var b := SumSquare(img, x, y, 0);
    var g := SumSquare(img, x, y, 1);
    var r := SumSquare(img, x, y, 2);
    cb, cr := Cb(b, g, r), Cr(b, g, r);
  }

  /** The two inner loops of the chroma loader for one channel, and its rounding. */
  method SumSquare(img: Image, x: nat, y: nat, channel: nat) returns (mean: byte)
    requires img.Valid() && channel < 3
    ensures mean == Mean(img, x, y, channel)
  {
    var sum := 0;
    for sy := 0 to 2
      invariant sum == (if sy >= 1 then Channel(img, x, y, channel) + Channel(img, x + 1, y, channel) else 0)
        + (if sy >= 2 then Channel(img, x, y + 1, channel) + Channel(img, x + 1, y + 1, channel) else 0)
    {
      ghost var before := sum;
      for sx := 0 to 2
        invariant sum == before + (if sx >= 1 then Channel(img, x, y + sy, channel) else 0)
          + (if sx >= 2 then Channel(img, x + 1, y + sy, channel) else 0)
      {
        sum := sum + Channel(img, x + sx, y + sy, channel);
      }
    }
    mean := (sum + 2) / 4;
  }

  // ---- What the conversion means -----------------------------------------------

  /** Greys keep their brightness and have no colour. */
  lemma {:induction false} GreyIsNeutral(x: byte)
    ensures Luma(x, x, x) == x - 128 && Cb(x, x, x) == 0 && Cr(x, x, x) == 0
  {
    assert (256 * x + 128) / 256 == x;
  }

  /** Clamping never changes luma, and chroma only for pure blue and pure red, where it saves one step. */
  lemma {:induction false} ClampsExactly(b: byte, g: byte, r: byte)
    ensures Luma(b, g, r) == (77 * r + 150 * g + 29 * b + 128) / 256 - 128
    ensures Cb(b, g, r) == (-43 * r - 85 * g + 128 * b + 128) / 256 <==> !(b == 255 && g == 0 && r == 0)
    ensures Cr(b, g, r) == (128 * r - 107 * g - 21 * b + 128) / 256 <==> !(r == 255 && g == 0 && b == 0)
  {
  }

  /** The integer weights are within one level of the JFIF conversion, here in millionths. */
  lemma {:induction false} JfifError(b: byte, g: byte, r: byte)
    ensures -1000000 <= 1000000 * (Luma(b, g, r) + 128) - (299000 * r + 587000 * g + 114000 * b) <= 1000000
    ensures -1000000 <= 1000000 * Cb(b, g, r) - (-168736 * r - 331264 * g + 500000 * b) <= 1000000
    ensures -1000000 <= 1000000 * Cr(b, g, r) - (500000 * r - 418688 * g - 81312 * b) <= 1000000
  {
    ClampsExactly(b, g, r);
  }

  // ---- Quantiser tables --------------------------------------------------------

  function Scale(quality: nat): nat {
    var q := if quality < 1 then 1 else if quality > 100 then 100 else quality;
    if q < 50 then 5000 / q else 200 - 2 * q
  }

  function ScaleStep(base: nat, quality: nat): Step {
    var v := (base * Scale(quality) + 50) / 100;
    if v < 1 then 1 else if v > 255 then 255 else v
  }

  function BaseTable(chroma: bool): (b: seq<byte>)
    ensures |b| == 64
  {
    seq(64, i requires 0 <= i < 64 => if chroma then StandardTables.QtChroma(i) else StandardTables.QtLuma(i))
  }

  function Steps(base: seq<byte>, quality: nat): (qt: seq<Step>)
    requires |base| == 64
    ensures |qt| == 64
  {
    seq(64, i requires 0 <= i < 64 => ScaleStep(base[i], quality))
  }

  function LumaSteps(quality: nat): (qt: seq<Step>)
    ensures |qt| == 64
  {
    Steps(BaseTable(false), quality)
  }

  function ChromaSteps(quality: nat): (qt: seq<Step>)
    ensures |qt| == 64
  {
    Steps(BaseTable(true), quality)
  }

  /** `t6_jpeg_build_qtable` (trigger6_codec.c:288-304). */
  method BuildQtable(base: seq<byte>, quality: nat, out: array<Step>)
    requires |base| == 64 && out.Length == 64
    modifies out
    ensures out[..] == Steps(base, quality)
  {
    var q := if quality < 1 then 1 else if quality > 100 then 100 else quality;
    var scale := 200 - 2 * q;
    if q < 50 {
      scale := 5000 / q;
    }
    for i := 0 to 64
      invariant forall k | 0 <= k < i :: out[k] == ScaleStep(base[k], quality)
    {
      var value := (base[i] * scale + 50) / 100;
      out[i] := if value < 1 then 1 else if value > 255 then 255 else value;
    }
  }

  /** The list that quality 50 sends, in the zigzag order of its segment. */
  function AnnexK(chroma: bool): (list: seq<byte>)
    ensures |list| == 64
  {
    if chroma then [17, 18, 18, 24, 21, 24, 47, 26, 26, 47, 99, 66, 56, 66] + seq(50, _ => 99)
    else
      [16, 11, 12, 14, 12, 10, 16, 14, 13, 14, 18, 17, 16, 19, 24, 40]
      + [26, 24, 22, 22, 24, 49, 35, 37, 29, 40, 58, 51, 61, 60, 57, 51]
      + [56, 55, 64, 72, 92, 78, 64, 68, 87, 69, 55, 56, 80, 109, 81, 87]
      + [95, 98, 103, 104, 103, 62, 77, 113, 121, 112, 100, 120, 92, 101, 103, 99]
  }

  lemma {:induction false} AnnexKInZigzag(i: nat)
    requires i < 64
    ensures LumaSteps(50)[StandardTables.Zigzag(i)] == AnnexK(false)[i]
    ensures ChromaSteps(50)[StandardTables.Zigzag(i)] == AnnexK(true)[i]
  {
    var k := StandardTables.Zigzag(i);
    AnnexKAtFifty(BaseTable(false)[k]);
    AnnexKAtFifty(BaseTable(true)[k]);
    LumaInZigzag(i);
    ChromaInZigzag(i);
  }

  lemma {:induction false} LumaInZigzag(i: nat)
    requires i < 64
    ensures StandardTables.QtLuma(StandardTables.Zigzag(i)) == AnnexK(false)[i]
  {
    if i < 16 { LumaZigzagFirst(i); } else if i < 32 { LumaZigzagSecond(i); }
    else if i < 48 { LumaZigzagThird(i); } else { LumaZigzagFourth(i); }
  }

  lemma {:induction false} LumaZigzagFirst(i: nat)
    requires 0 <= i < 16
    ensures StandardTables.QtLuma(StandardTables.Zigzag(i)) == AnnexK(false)[i]
  {
  }

  lemma {:induction false} LumaZigzagSecond(i: nat)
    requires 16 <= i < 32
    ensures StandardTables.QtLuma(StandardTables.Zigzag(i)) == AnnexK(false)[i]
  {
  }

  lemma {:induction false} LumaZigzagThird(i: nat)
    requires 32 <= i < 48
    ensures StandardTables.QtLuma(StandardTables.Zigzag(i)) == AnnexK(false)[i]
  {
  }

  lemma {:induction false} LumaZigzagFourth(i: nat)
    requires 48 <= i < 64
    ensures StandardTables.QtLuma(StandardTables.Zigzag(i)) == AnnexK(false)[i]
  {
  }

  lemma {:induction false} ChromaInZigzag(i: nat)
    requires i < 64
    ensures StandardTables.QtChroma(StandardTables.Zigzag(i)) == AnnexK(true)[i]
  {
  }

  /** Below 50 a step is the base step times 50 over the quality, up to the two roundings and the ends of the byte. */
  lemma {:induction false} LowQuality(base: byte, quality: nat)
    requires 1 <= quality < 50
    ensures var s := ScaleStep(base, quality);
      && (s < 255 ==> 100 * (s * quality) >= 5000 * base - quality * (base + 50))
      && (s > 1 ==> 100 * (s * quality) <= 5000 * base + 50 * quality)
  {
    var scale: nat := 5000 / quality;
    var v: nat := (base * scale + 50) / 100;
    Quotient(5000, quality, scale);
    LowProducts(base, quality, scale, base * scale, scale * quality, v);
  }

  lemma {:induction false} Quotient(n: nat, q: nat, k: nat)
    requires q > 0 && k == n / q
    ensures n - q < k * q <= n
  {
    assert q * k <= n < q * k + q;
    assert q * k == k * q;
  }

  lemma {:induction false} LowProducts(base: nat, q: nat, scale: nat, a: nat, b: nat, v: nat)
    requires a == base * scale && b == scale * q && 5000 - q < b <= 5000 && q <= 50 && v == (a + 50) / 100
    ensures 5000 * base - q * (base + 50) <= 100 * (v * q) <= 5000 * base + 50 * q
  {
    var aq, vq: nat := a * q, v * q;
    assert aq == base * b by { assert base * scale * q == base * (scale * q); }
    MulMono(base, b, 5000);
    MulMono(base, 5000 - q, b);
    MulMono(q, 100 * v, a + 50);
    MulMono(q, a, 100 * v + 50);
    Spread(base, q, a, v);
  }

  lemma {:induction false} Spread(base: nat, q: nat, a: nat, v: nat)
    requires q <= 50
    ensures base * (5000 - q) == 5000 * base - base * q && q * (100 * v) == 100 * (v * q) && q * (a + 50) == a * q
      + 50 * q
    ensures q * a == a * q && q * (100 * v + 50) == 100 * (v * q) + 50 * q && q * (base + 50) == base * q + 50 * q
  {
  }

  /** From 50 to 100 it falls in a straight line, to 1; past 100 and at 0 the quality is taken as 100 and as 1. */
  lemma {:induction false} HighQuality(base: byte, quality: nat)
    requires 50 <= quality <= 100
    ensures var s, line := ScaleStep(base, quality), base * (200 - 2 * quality);
      (s < 255 ==> 100 * s >= line - 50) && (s > 1 ==> 100 * s <= line + 50)
    ensures ScaleStep(base, 100) == 1
  {
    var line: nat := base * (200 - 2 * quality);
    assert Scale(quality) == 200 - 2 * quality && Scale(100) == 0;
    assert base * Scale(100) == 0;
  }

  lemma {:induction false} EndsOfQuality(base: byte, quality: nat)
    ensures ScaleStep(base, 0) == ScaleStep(base, 1)
    ensures quality > 100 ==> ScaleStep(base, quality) == ScaleStep(base, 100)
  {
    assert Scale(0) == Scale(1);
    if quality > 100 { assert Scale(quality) == Scale(100); }
  }

  /** At quality 50 the quantisers are those of T.81 Annex K. */
  lemma {:induction false} AnnexKAtFifty(base: byte)
    requires base >= 1
    ensures ScaleStep(base, 50) == base
  {
    assert Scale(50) == 100;
    assert (base * 100 + 50) / 100 == base;
  }

  /** A higher quality never means a coarser step. */
  lemma {:induction false} QualityOrders(base: byte, low: nat, high: nat)
    requires low <= high
    ensures ScaleStep(base, high) <= ScaleStep(base, low)
  {
    var a: nat, b: nat := Scale(low), Scale(high);
    ScaleFalls(low, high);
    MulMono(base, b, a);
    var x, y := base * b, base * a;
    assert (x + 50) / 100 <= (y + 50) / 100;
  }

  lemma {:induction false} MulMono(c: nat, x: nat, y: nat)
    requires x <= y
    ensures c * x <= c * y
  {
    assert c * y == c * x + c * (y - x);
  }

  lemma {:induction false} ScaleFalls(low: nat, high: nat)
    requires low <= high
    ensures Scale(high) <= Scale(low)
  {
    var p := if low < 1 then 1 else if low > 100 then 100 else low;
    var q := if high < 1 then 1 else if high > 100 then 100 else high;
    if q < 50 {
      QuotientFalls(5000, p, q);
    } else if p < 50 {
      QuotientFalls(5000, p, 50);
    }
  }

  lemma {:induction false} QuotientFalls(n: nat, p: nat, q: nat)
    requires 0 < p <= q
    ensures n / q <= n / p
  {
    var x, y := n / q, n / p;
    MulMono(x, p, q);
    if x > y { MulMono(p, y + 1, x); }
  }
}
